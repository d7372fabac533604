/**
 * The conversation list of the chat page (`chats`) and the views derived from it: the navigation
 * upsert, the initial merge of the global, group and private fetches, the unconditional prepends,
 * the delete filter, `myGroups`, `otherGroups` and `getOtherUser`.
 */
module Directory {
  import opened ChatTypes
  import opened ChatOrder
  import Seqs
  import JsText

  // ----- ids -----

  /** Every entry carries an id no other entry carries. */
  ghost predicate UniqueIds(chats: seq<Conversation>) {
    forall c :: c in chats ==> CountId(chats, c.id) == 1
  }

  lemma {:induction false} HasIdCount(chats: seq<Conversation>, id: Id)
    ensures HasId(chats, id) <==> CountId(chats, id) > 0
  {
    if chats != [] {
      HasIdCount(chats[1..], id);
      if chats[0].id != id && HasId(chats, id) {
        var i :| 0 <= i < |chats| && chats[i].id == id;
        assert chats[1..][i - 1].id == id;
      }
      if HasId(chats[1..], id) {
        var i :| 0 <= i < |chats[1..]| && chats[1..][i].id == id;
        assert chats[i + 1].id == id;
      }
    }
  }

  lemma CountIdAppend(a: seq<Conversation>, b: seq<Conversation>, id: Id)
    ensures CountId(a + b, id) == CountId(a, id) + CountId(b, id)
  {
    Seqs.FilterAppend(a, b, (c: Conversation) => c.id == id);
  }

  // ----- navigation upsert (Chat.jsx, `setChats(prev => ...)` after a route fetch) -----

  /** `prev.map(c => c._id === data._id ? data : c)`. */
  function ReplaceById(s: seq<Conversation>, d: Conversation): (r: seq<Conversation>)
    ensures |r| == |s|
    ensures forall i :: 0 <= i < |s| ==> r[i] == (if s[i].id == d.id then d else s[i])
  {
    if s == [] then [] else [if s[0].id == d.id then d else s[0]] + ReplaceById(s[1..], d)
  }

  /** Replacing keeps the number of entries per id and the multiplicity of every entry of another id. */
  lemma {:induction false} ReplaceByIdCounts(s: seq<Conversation>, d: Conversation, id: Id, c: Conversation)
    ensures CountId(ReplaceById(s, d), id) == CountId(s, id)
    ensures c.id != d.id ==> multiset(ReplaceById(s, d))[c] == multiset(s)[c]
  {
    if s != [] {
      ReplaceByIdCounts(s[1..], d, id, c);
      var h := if s[0].id == d.id then d else s[0];
      CountIdAppend([h], ReplaceById(s[1..], d), id);
      CountIdAppend([s[0]], s[1..], id);
      assert ReplaceById(s, d) == [h] + ReplaceById(s[1..], d);
      assert s == [s[0]] + s[1..];
    }
  }

  /** The list before sorting: the replaced list, or `data` in front of the old one. */
  function Upserted(prev: seq<Conversation>, data: Conversation): (r: seq<Conversation>)
    ensures |r| == if HasId(prev, data.id) then |prev| else |prev| + 1
  {
    if HasId(prev, data.id) then ReplaceById(prev, data) else [data] + prev
  }

  /** Replace the entry with `data`'s id, or put `data` in front; then sort. */
  function UpsertChat(prev: seq<Conversation>, data: Conversation): (r: seq<Conversation>)
    ensures |r| == if HasId(prev, data.id) then |prev| else |prev| + 1
  {
    SortChats(Upserted(prev, data))
  }

  lemma UpsertedReplaceSpec(prev: seq<Conversation>, data: Conversation)
    requires HasId(prev, data.id)
    ensures data in Upserted(prev, data)
    ensures forall c :: c in Upserted(prev, data) && c.id == data.id ==> c == data
    ensures forall c: Conversation :: c.id != data.id ==> multiset(Upserted(prev, data))[c] == multiset(prev)[c]
    ensures CountId(Upserted(prev, data), data.id) == CountId(prev, data.id)
  {
    var pre := ReplaceById(prev, data);
    var i :| 0 <= i < |prev| && prev[i].id == data.id;
    assert pre[i] == data;
    forall c | c in pre && c.id == data.id ensures c == data {
      var j :| 0 <= j < |pre| && pre[j] == c;
    }
    forall c: Conversation | c.id != data.id ensures multiset(pre)[c] == multiset(prev)[c] {
      ReplaceByIdCounts(prev, data, data.id, c);
    }
    ReplaceByIdCounts(prev, data, data.id, data);
  }

  lemma UpsertedPrependSpec(prev: seq<Conversation>, data: Conversation)
    requires !HasId(prev, data.id)
    ensures data in Upserted(prev, data)
    ensures forall c :: c in Upserted(prev, data) && c.id == data.id ==> c == data
    ensures forall c: Conversation :: c.id != data.id ==> multiset(Upserted(prev, data))[c] == multiset(prev)[c]
    ensures CountId(Upserted(prev, data), data.id) == 1
  {
    HasIdCount(prev, data.id);
    forall c | c in prev ensures c.id != data.id {
      var j :| 0 <= j < |prev| && prev[j] == c;
    }
    CountIdAppend([data], prev, data.id);
  }

  /**
   * The upsert replaces a present entry (length unchanged) or adds `data` (length + 1); either way
   * `data` is in the result, every entry with `data`'s id is `data`, entries of other ids keep their
   * multiplicity, and the list is ordered by activity.
   */
  lemma UpsertChatSpec(prev: seq<Conversation>, data: Conversation)
    ensures Descending(UpsertChat(prev, data))
    ensures data in UpsertChat(prev, data)
    ensures |UpsertChat(prev, data)| == if HasId(prev, data.id) then |prev| else |prev| + 1
    ensures forall c :: c in UpsertChat(prev, data) && c.id == data.id ==> c == data
    ensures forall c: Conversation :: c.id != data.id ==> multiset(UpsertChat(prev, data))[c] == multiset(prev)[c]
    ensures CountId(UpsertChat(prev, data), data.id) == if HasId(prev, data.id) then CountId(prev, data.id) else 1
  {
    var pre := Upserted(prev, data);
    var r := UpsertChat(prev, data);
    if HasId(prev, data.id) {
      UpsertedReplaceSpec(prev, data);
    } else {
      UpsertedPrependSpec(prev, data);
    }
    assert data in multiset(pre);
    forall c | c in r && c.id == data.id ensures c == data {
      assert c in multiset(pre);
    }
    Seqs.CountPermutation(r, pre, (c: Conversation) => c.id == data.id);
  }

  /** Upserting preserves unique ids: the navigation path never duplicates a conversation. */
  lemma UpsertChatKeepsIdsUnique(prev: seq<Conversation>, data: Conversation)
    requires UniqueIds(prev)
    ensures UniqueIds(UpsertChat(prev, data))
  {
    var pre := Upserted(prev, data);
    var r := UpsertChat(prev, data);
    UpsertChatSpec(prev, data);
    HasIdCount(prev, data.id);
    if HasId(prev, data.id) {
      var i :| 0 <= i < |prev| && prev[i].id == data.id;
      assert prev[i] in prev;
    }
    forall c | c in r ensures CountId(r, c.id) == 1 {
      if c.id != data.id {
        assert multiset(r)[c] == multiset(prev)[c];
        assert c in prev;
        Seqs.CountPermutation(r, pre, (x: Conversation) => x.id == c.id);
        if HasId(prev, data.id) {
          ReplaceByIdCounts(prev, data, c.id, c);
        } else {
          CountIdAppend([data], prev, c.id);
        }
      }
    }
  }

  /** Upserting the same conversation twice is the same as upserting it once. */
  lemma UpsertChatIdempotent(prev: seq<Conversation>, data: Conversation)
    ensures UpsertChat(UpsertChat(prev, data), data) == UpsertChat(prev, data)
  {
    var r := UpsertChat(prev, data);
    UpsertChatSpec(prev, data);
    var i :| 0 <= i < |r| && r[i] == data;
    assert HasId(r, data.id);
    assert ReplaceById(r, data) == r;
    SortChatsSorted(r);
  }

  // ----- the unconditional prepends (live resolution, send resolution, group creation) -----

  /** `setChats(prev => [conv, ...prev])`. */
  function PrependChat(chats: seq<Conversation>, conv: Conversation): (r: seq<Conversation>)
    ensures CountId(r, conv.id) == CountId(chats, conv.id) + 1
    ensures r[0] == conv && r[1..] == chats
  {
    CountIdAppend([conv], chats, conv.id);
    [conv] + chats
  }

  /** Unlike the upsert, the prepend does not look for the id: a known conversation is duplicated. */
  lemma PrependDuplicates(chats: seq<Conversation>, conv: Conversation)
    requires HasId(chats, conv.id)
    ensures !UniqueIds(PrependChat(chats, conv))
  {
    HasIdCount(chats, conv.id);
    assert conv in PrependChat(chats, conv);
  }

  // ----- initial merge -----

  /** `arr.filter(c => c._id !== id)`. */
  function WithoutId(s: seq<Conversation>, id: Id): (r: seq<Conversation>)
    ensures !HasId(r, id)
    ensures forall c :: c in r <==> c in s && c.id != id
  {
    var r := Seqs.Filter(s, (c: Conversation) => c.id != id);
    assert forall i :: 0 <= i < |r| ==> r[i] in r;
    r
  }

  /** The filter keeps the remaining conversations in list order, so a sorted list stays sorted. */
  lemma WithoutIdKeepsOrder(s: seq<Conversation>, id: Id)
    ensures Seqs.Subsequence(WithoutId(s, id), s)
    ensures Descending(s) ==> Descending(WithoutId(s, id))
  {
    Seqs.FilterIsSubsequence(s, (c: Conversation) => c.id != id);
    if Descending(s) {
      SubsequenceKeepsDescending(WithoutId(s, id), s);
    }
  }

  lemma WithoutIdCount(s: seq<Conversation>, id: Id, other: Id, c: Conversation)
    ensures CountId(WithoutId(s, id), id) == 0
    ensures other != id ==> CountId(WithoutId(s, id), other) == CountId(s, other)
    ensures c.id != id ==> multiset(WithoutId(s, id))[c] == multiset(s)[c]
  {
    HasIdCount(WithoutId(s, id), id);
    Seqs.FilterMultiplicity(s, (x: Conversation) => x.id != id, c);
    if other != id {
      FilterOfFilter(s, id, other);
    }
  }

  lemma {:induction false} FilterOfFilter(s: seq<Conversation>, id: Id, other: Id)
    requires other != id
    ensures CountId(WithoutId(s, id), other) == CountId(s, other)
  {
    if s != [] {
      FilterOfFilter(s[1..], id, other);
      var h := if s[0].id != id then [s[0]] else [];
      assert WithoutId(s, id) == h + WithoutId(s[1..], id);
      CountIdAppend(h, WithoutId(s[1..], id), other);
      CountIdAppend([s[0]], s[1..], other);
      assert s == [s[0]] + s[1..];
    }
  }

  /** `sortChats([globalChat, ...groups without the global id, ...privateChats])`. */
  function MergeDirectory(global: Conversation, groups: seq<Conversation>, privates: seq<Conversation>): (r: seq<Conversation>)
    ensures Descending(r)
    ensures multiset(r) == multiset([global] + WithoutId(groups, global.id) + privates)
  {
    SortChats([global] + WithoutId(groups, global.id) + privates)
  }

  /**
   * The merge is ordered and holds exactly the global conversation, the fetched groups without the
   * global id, and the private chats; the group sources contribute the global id exactly once.
   */
  lemma MergeDirectorySpec(global: Conversation, groups: seq<Conversation>, privates: seq<Conversation>)
    ensures Descending(MergeDirectory(global, groups, privates))
    ensures multiset(MergeDirectory(global, groups, privates)) == multiset([global] + WithoutId(groups, global.id) + privates)
    ensures CountId(MergeDirectory(global, groups, privates), global.id) == 1 + CountId(privates, global.id)
    ensures forall c :: c in MergeDirectory(global, groups, privates) <==>
      c == global || (c in groups && c.id != global.id) || c in privates
  {
    var all := [global] + WithoutId(groups, global.id) + privates;
    var r := MergeDirectory(global, groups, privates);
    Seqs.CountPermutation(r, all, (c: Conversation) => c.id == global.id);
    CountIdAppend([global] + WithoutId(groups, global.id), privates, global.id);
    CountIdAppend([global], WithoutId(groups, global.id), global.id);
    WithoutIdCount(groups, global.id, global.id, global);
    forall c ensures c in r <==> c in all {
      assert c in r <==> c in multiset(r);
      assert c in all <==> c in multiset(all);
    }
  }

  /** With no private chat carrying the global id, the merged list holds the global conversation once. */
  lemma MergeDirectoryGlobalOnce(global: Conversation, groups: seq<Conversation>, privates: seq<Conversation>)
    requires !HasId(privates, global.id)
    ensures CountId(MergeDirectory(global, groups, privates), global.id) == 1
  {
    MergeDirectorySpec(global, groups, privates);
    HasIdCount(privates, global.id);
  }

  /** The ids of the group page and of the private chats are unique and disjoint. */
  ghost predicate DisjointSources(groups: seq<Conversation>, privates: seq<Conversation>) {
    && UniqueIds(groups) && UniqueIds(privates)
    && forall g, p :: g in groups && p in privates ==> g.id != p.id
  }

  lemma MergedIdCount(global: Conversation, groups: seq<Conversation>, privates: seq<Conversation>, c: Conversation)
    requires DisjointSources(groups, privates) && !HasId(privates, global.id)
    requires c in groups || c in privates
    requires c.id != global.id
    ensures CountId([global] + WithoutId(groups, global.id) + privates, c.id) == 1
  {
    CountIdAppend([global] + WithoutId(groups, global.id), privates, c.id);
    CountIdAppend([global], WithoutId(groups, global.id), c.id);
    WithoutIdCount(groups, global.id, c.id, c);
    assert CountId([global], c.id) == 0 by {
      HasIdCount([global], c.id);
    }
    if c in groups {
      assert CountId(privates, c.id) == 0 by {
        assert !HasId(privates, c.id) by {
          forall i | 0 <= i < |privates| ensures privates[i].id != c.id {
            assert privates[i] in privates;
          }
        }
        HasIdCount(privates, c.id);
      }
    } else {
      assert CountId(groups, c.id) == 0 by {
        assert !HasId(groups, c.id) by {
          forall i | 0 <= i < |groups| ensures groups[i].id != c.id {
            assert groups[i] in groups;
          }
        }
        HasIdCount(groups, c.id);
      }
    }
  }

  /**
   * When the fetched group page and the private chats have unique, disjoint ids, the merged list has
   * unique ids: the merge itself introduces no duplicate.
   */
  lemma MergeDirectoryUniqueIds(global: Conversation, groups: seq<Conversation>, privates: seq<Conversation>)
    requires DisjointSources(groups, privates) && !HasId(privates, global.id)
    ensures UniqueIds(MergeDirectory(global, groups, privates))
  {
    MergeDirectorySpec(global, groups, privates);
    MergeDirectoryGlobalOnce(global, groups, privates);
    var all := [global] + WithoutId(groups, global.id) + privates;
    var r := MergeDirectory(global, groups, privates);
    forall c | c in r ensures CountId(r, c.id) == 1 {
      if c.id != global.id {
        Seqs.CountPermutation(r, all, (x: Conversation) => x.id == c.id);
        MergedIdCount(global, groups, privates, c);
      }
    }
  }

  // ----- delete -----

  /** After a successful delete no entry has the deleted id and every other entry keeps its multiplicity. */
  lemma DeleteSpec(chats: seq<Conversation>, id: Id)
    ensures !HasId(WithoutId(chats, id), id)
    ensures forall c: Conversation :: c.id != id ==> multiset(WithoutId(chats, id))[c] == multiset(chats)[c]
    ensures Seqs.Subsequence(WithoutId(chats, id), chats)
    ensures Descending(chats) ==> Descending(WithoutId(chats, id))
  {
    WithoutIdKeepsOrder(chats, id);
    forall c: Conversation | c.id != id ensures multiset(WithoutId(chats, id))[c] == multiset(chats)[c] {
      WithoutIdCount(chats, id, id, c);
    }
  }

  // ----- derived views -----

  /** `g.name && g.name.toLowerCase() === 'global'`. */
  predicate NamedGlobal(c: Conversation) {
    c.name.Some? && JsText.Lower(c.name.value) == "global"
  }

  /** The name, lower-cased, is `global` or `global chat`. */
  predicate GlobalLikeName(c: Conversation) {
    c.name.Some? && (JsText.Lower(c.name.value) == "global" || JsText.Lower(c.name.value) == "global chat")
  }

  /** `g.members?.some(m => m._id === user.id)`. */
  predicate IsMember(c: Conversation, userId: Id) {
    c.members.Some? && exists m :: m in c.members.value && m.id == userId
  }

  /** `chats.find(g => g.name && g.name.toLowerCase() === 'global')`: the first conversation named global. */
  function GlobalGroup(chats: seq<Conversation>): (r: Option<Conversation>)
    ensures r.None? <==> forall c :: c in chats ==> !NamedGlobal(c)
    ensures r.Some? ==> exists i :: (0 <= i < |chats| && chats[i] == r.value && NamedGlobal(r.value)
      && forall j :: 0 <= j < i ==> !NamedGlobal(chats[j]))
  {
    if chats == [] then None
    else if NamedGlobal(chats[0]) then Some(chats[0])
    else
      var r := GlobalGroup(chats[1..]);
      assert r.Some? ==> exists i :: (1 <= i < |chats| && chats[i] == r.value && NamedGlobal(r.value)
        && forall j :: 1 <= j < i ==> !NamedGlobal(chats[j])) by {
        if r.Some? {
          var i :| 0 <= i < |chats[1..]| && chats[1..][i] == r.value && NamedGlobal(r.value)
            && forall j :: 0 <= j < i ==> !NamedGlobal(chats[1..][j]);
          assert chats[i + 1] == r.value;
          assert forall j :: 1 <= j < i + 1 ==> chats[j] == chats[1..][j - 1];
        }
      }
      r
  }

  /** The conversations the user belongs to, with the global one forced to the front. */
  function MyGroups(chats: seq<Conversation>, userId: Id): (r: seq<Conversation>)
    ensures GlobalGroup(chats).Some? ==> |r| > 0 && r[0] == GlobalGroup(chats).value
    ensures GlobalGroup(chats).None? ==> forall c :: c in r <==> c in chats && IsMember(c, userId)
    ensures forall c :: c in r ==> c in chats
  {
    var mine := Seqs.Filter(chats, (c: Conversation) => IsMember(c, userId));
    match GlobalGroup(chats)
    case None => mine
    case Some(g) => [g] + WithoutId(mine, g.id)
  }

  /**
   * `myGroups` starts with the first conversation named global, when there is one, and holds its id
   * exactly once; every other entry is a conversation of `chats` the user is a member of, and every
   * such conversation of another id is there.
   */
  lemma MyGroupsSpec(chats: seq<Conversation>, userId: Id)
    ensures GlobalGroup(chats).Some? ==>
      |MyGroups(chats, userId)| > 0 && MyGroups(chats, userId)[0] == GlobalGroup(chats).value
      && CountId(MyGroups(chats, userId), GlobalGroup(chats).value.id) == 1
    ensures forall c :: c in MyGroups(chats, userId) ==> c in chats
    ensures forall c :: c in MyGroups(chats, userId) && GlobalGroup(chats) != Some(c) ==> IsMember(c, userId)
    ensures forall c :: c in chats && IsMember(c, userId) ==>
      (c in MyGroups(chats, userId) <==> GlobalGroup(chats).None? || c.id != GlobalGroup(chats).value.id || c == GlobalGroup(chats).value)
  {
    var mine := Seqs.Filter(chats, (c: Conversation) => IsMember(c, userId));
    match GlobalGroup(chats)
    case None =>
    case Some(g) =>
      CountIdAppend([g], WithoutId(mine, g.id), g.id);
      WithoutIdCount(mine, g.id, g.id, g);
  }

  /** The sidebar's discoverable groups: not joined, not the global conversation by id or by name. */
  function OtherGroups(chats: seq<Conversation>, userId: Id): (r: seq<Conversation>)
    ensures forall c :: c in r ==> c in chats && !IsMember(c, userId) && !GlobalLikeName(c)
    ensures forall c :: c in r && GlobalGroup(chats).Some? ==> c.id != GlobalGroup(chats).value.id
  {
    var g := GlobalGroup(chats);
    Seqs.Filter(chats, (c: Conversation) => !IsMember(c, userId) && (g.None? || c.id != g.value.id) && !GlobalLikeName(c))
  }

  /**
   * Both views keep the list's order: `otherGroups` is a deletion of the list, and so is
   * `myGroups` after the global conversation it puts in front.
   */
  lemma ViewsKeepOrder(chats: seq<Conversation>, userId: Id)
    ensures Seqs.Subsequence(OtherGroups(chats, userId), chats)
    ensures GlobalGroup(chats).None? ==> Seqs.Subsequence(MyGroups(chats, userId), chats)
    ensures GlobalGroup(chats).Some? ==> Seqs.Subsequence(MyGroups(chats, userId)[1..], chats)
  {
    var g := GlobalGroup(chats);
    Seqs.FilterIsSubsequence(chats, (c: Conversation) => !IsMember(c, userId) && (g.None? || c.id != g.value.id) && !GlobalLikeName(c));
    var mine := Seqs.Filter(chats, (c: Conversation) => IsMember(c, userId));
    Seqs.FilterIsSubsequence(chats, (c: Conversation) => IsMember(c, userId));
    if g.Some? {
      WithoutIdKeepsOrder(mine, g.value.id);
      assert MyGroups(chats, userId)[1..] == WithoutId(mine, g.value.id);
      Seqs.SubsequenceTrans(WithoutId(mine, g.value.id), mine, chats);
    }
  }

  /** No conversation is offered both as one of the user's groups and as a discoverable group. */
  lemma GroupViewsDisjoint(chats: seq<Conversation>, userId: Id, c: Conversation)
    ensures !(c in MyGroups(chats, userId) && c in OtherGroups(chats, userId))
  {
    MyGroupsSpec(chats, userId);
    if c in MyGroups(chats, userId) && GlobalGroup(chats) == Some(c) {
      assert NamedGlobal(c);
    }
  }

  /** Every conversation the sidebar could list is listed: the filter drops only what it must. */
  lemma OtherGroupsComplete(chats: seq<Conversation>, userId: Id, c: Conversation)
    requires c in chats && !IsMember(c, userId) && !GlobalLikeName(c)
    requires GlobalGroup(chats).None? || c.id != GlobalGroup(chats).value.id
    ensures c in OtherGroups(chats, userId)
  {
  }

  // ----- getOtherUser -----

  /** `members.find(m => m._id !== currentUserId)`. */
  function FirstOther(members: seq<User>, userId: Id): (r: Option<User>)
    ensures r.None? <==> forall m :: m in members ==> m.id == userId
    ensures r.Some? ==> exists i :: (0 <= i < |members| && members[i] == r.value && r.value.id != userId
      && forall j :: 0 <= j < i ==> members[j].id == userId)
  {
    if members == [] then None
    else if members[0].id != userId then Some(members[0])
    else
      var r := FirstOther(members[1..], userId);
      assert r.Some? ==> exists i :: (1 <= i < |members| && members[i] == r.value && r.value.id != userId
        && forall j :: 0 <= j < i ==> members[j].id == userId) by {
        if r.Some? {
          var i :| 0 <= i < |members[1..]| && members[1..][i] == r.value && r.value.id != userId
            && forall j :: 0 <= j < i ==> members[1..][j].id == userId;
          assert members[i + 1] == r.value;
          assert forall j :: 1 <= j < i + 1 ==> members[j] == members[1..][j - 1];
        }
      }
      r
  }

  /** `getOtherUser(chat, currentUserId)`: no result without a chat or a member list. */
  function GetOtherUser(chat: Option<Conversation>, userId: Id): (r: Option<User>)
    ensures chat.None? || chat.value.members.None? ==> r.None?
    ensures r.Some? ==> r.value in chat.value.members.value && r.value.id != userId
    ensures chat.Some? && chat.value.members.Some? ==> r == FirstOther(chat.value.members.value, userId)
  {
    if chat.None? || chat.value.members.None? then None else FirstOther(chat.value.members.value, userId)
  }
}
