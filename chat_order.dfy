/**
 * `sortChats`: the conversation list ordered by descending activity, as `Array.prototype.sort`
 * (stable since ECMAScript 2019) orders it with the comparator `date(b) - date(a)`.
 */
module ChatOrder {
  import opened ChatTypes
  import Seqs

  /** `a.lastMessage?.createdAt`: missing when there is no last message or it has no time. */
  function LastMessageTime(c: Conversation): Option<Timestamp> {
    if c.lastMessage.Some? then c.lastMessage.value.createdAt else None
  }

  /** A timestamp `||` passes over: a missing one, or the falsy 0. */
  predicate Falsy(t: Option<Timestamp>) {
    t.None? || t.value == 0
  }

  /**
   * `a.lastMessage?.createdAt || a.updatedAt || a.createdAt || 0`: the first timestamp that is
   * present and non-zero, else 0.
   */
  function ActivityKey(c: Conversation): Timestamp {
    if !Falsy(LastMessageTime(c)) then LastMessageTime(c).value
    else if !Falsy(c.updatedAt) then c.updatedAt.value
    else if !Falsy(c.createdAt) then c.createdAt.value
    else 0
  }

  /** The key is 0 exactly when every timestamp is missing or 0, and otherwise the first one that is neither. */
  lemma ActivityKeySpec(c: Conversation)
    ensures ActivityKey(c) == 0 <==> Falsy(LastMessageTime(c)) && Falsy(c.updatedAt) && Falsy(c.createdAt)
    ensures ActivityKey(c) != 0 ==> Some(ActivityKey(c)) in {LastMessageTime(c), c.updatedAt, c.createdAt}
    ensures !Falsy(LastMessageTime(c)) ==> Some(ActivityKey(c)) == LastMessageTime(c)
    ensures Falsy(LastMessageTime(c)) && !Falsy(c.updatedAt) ==> Some(ActivityKey(c)) == c.updatedAt
  {
  }

  /** Most recent activity first. */
  ghost predicate Descending(s: seq<Conversation>) {
    forall i, j :: 0 <= i < j < |s| ==> ActivityKey(s[i]) >= ActivityKey(s[j])
  }

  /** The entries of `s` whose activity key is `k`, in their order in `s`. */
  function WithKey(s: seq<Conversation>, k: Timestamp): seq<Conversation> {
    if s == [] then [] else (if ActivityKey(s[0]) == k then [s[0]] else []) + WithKey(s[1..], k)
  }

  /** Places `c` before the first entry that is not more recent than `c`. */
  function Insert(c: Conversation, s: seq<Conversation>): seq<Conversation> {
    if s == [] then [c]
    else if ActivityKey(s[0]) <= ActivityKey(c) then [c] + s
    else [s[0]] + Insert(c, s[1..])
  }

  /** Stable sort by descending activity key (insertion sort). */
  function SortChats(s: seq<Conversation>): (r: seq<Conversation>)
    ensures Descending(r)
    ensures multiset(r) == multiset(s)
    ensures |r| == |s|
  {
    if s == [] then []
    else
      var rest := SortChats(s[1..]);
      SortStep(s, rest);
      Insert(s[0], rest)
  }

  /** Inserting the head into the sorted tail sorts the whole list. */
  lemma SortStep(s: seq<Conversation>, rest: seq<Conversation>)
    requires s != [] && Descending(rest) && multiset(rest) == multiset(s[1..])
    ensures Descending(Insert(s[0], rest))
    ensures multiset(Insert(s[0], rest)) == multiset(s)
    ensures |Insert(s[0], rest)| == |s|
  {
    InsertKeepsOrder(s[0], rest);
    assert s == [s[0]] + s[1..];
    assert |rest| == |multiset(rest)| == |multiset(s[1..])| == |s| - 1;
  }

  lemma {:induction false} InsertPermutes(c: Conversation, s: seq<Conversation>)
    ensures multiset(Insert(c, s)) == multiset(s) + multiset{c}
    ensures |Insert(c, s)| == |s| + 1
  {
    if s != [] && ActivityKey(s[0]) > ActivityKey(c) {
      InsertPermutes(c, s[1..]);
      assert s == [s[0]] + s[1..];
    }
  }

  lemma {:induction false} InsertKeepsOrder(c: Conversation, s: seq<Conversation>)
    requires Descending(s)
    ensures Descending(Insert(c, s))
    ensures multiset(Insert(c, s)) == multiset(s) + multiset{c}
    ensures |Insert(c, s)| == |s| + 1
  {
    InsertPermutes(c, s);
    if s != [] && ActivityKey(s[0]) > ActivityKey(c) {
      InsertKeepsOrder(c, s[1..]);
      var t := Insert(c, s[1..]);
      HeadDominates(c, s, t);
      ConsDescending(s[0], t);
      assert Insert(c, s) == [s[0]] + t;
    }
  }

  /** The head of an ordered list is at least as recent as every entry of any rearrangement of its tail and a less recent `c`. */
  lemma HeadDominates(c: Conversation, s: seq<Conversation>, t: seq<Conversation>)
    requires Descending(s) && s != [] && ActivityKey(s[0]) > ActivityKey(c)
    requires multiset(t) == multiset(s[1..]) + multiset{c}
    ensures forall j :: 0 <= j < |t| ==> ActivityKey(s[0]) >= ActivityKey(t[j])
  {
    forall j | 0 <= j < |t| ensures ActivityKey(s[0]) >= ActivityKey(t[j]) {
      assert t[j] in multiset(t);
      if t[j] != c {
        assert t[j] in s[1..];
        var k :| 1 <= k < |s| && s[k] == t[j];
        assert ActivityKey(s[0]) >= ActivityKey(s[k]);
      }
    }
  }

  /** An ordered list stays ordered when an entry at least as recent as all of it goes in front. */
  lemma ConsDescending(h: Conversation, t: seq<Conversation>)
    requires Descending(t)
    requires forall j :: 0 <= j < |t| ==> ActivityKey(h) >= ActivityKey(t[j])
    ensures Descending([h] + t)
  {
    var r := [h] + t;
    forall i, j | 0 <= i < j < |r| ensures ActivityKey(r[i]) >= ActivityKey(r[j]) {
      assert r[j] == t[j - 1];
      if i > 0 {
        assert r[i] == t[i - 1];
      }
    }
  }

  lemma {:induction false} WithKeyAppend(a: seq<Conversation>, b: seq<Conversation>, k: Timestamp)
    ensures WithKey(a + b, k) == WithKey(a, k) + WithKey(b, k)
  {
    if a == [] {
      assert a + b == b;
    } else {
      var head := if ActivityKey(a[0]) == k then [a[0]] else [];
      assert (a + b)[0] == a[0] && (a + b)[1..] == a[1..] + b;
      assert WithKey(a + b, k) == head + WithKey(a[1..] + b, k);
      WithKeyAppend(a[1..], b, k);
    }
  }

  /** Inserting adds `c` to its own key's entries, in front of them, and leaves every other key's entries alone. */
  lemma {:induction false} InsertStable(c: Conversation, s: seq<Conversation>, k: Timestamp)
    ensures WithKey(Insert(c, s), k) == (if ActivityKey(c) == k then [c] else []) + WithKey(s, k)
  {
    if s == [] {
    } else if ActivityKey(s[0]) <= ActivityKey(c) {
      WithKeyAppend([c], s, k);
    } else {
      InsertStable(c, s[1..], k);
      WithKeyAppend([s[0]], Insert(c, s[1..]), k);
    }
  }

  /** Stability: entries with equal activity keep their input order. */
  lemma {:induction false} SortChatsStable(s: seq<Conversation>, k: Timestamp)
    ensures WithKey(SortChats(s), k) == WithKey(s, k)
  {
    if s != [] {
      SortChatsStable(s[1..], k);
      InsertStable(s[0], SortChats(s[1..]), k);
    }
  }

  lemma {:induction false} WithKeyMember(s: seq<Conversation>, k: Timestamp, x: Conversation)
    ensures x in WithKey(s, k) <==> x in s && ActivityKey(x) == k
  {
    if s != [] {
      WithKeyMember(s[1..], k, x);
      assert s == [s[0]] + s[1..];
    }
  }

  lemma WithKeyHead(s: seq<Conversation>)
    requires s != []
    ensures WithKey(s, ActivityKey(s[0])) != []
  {
  }

  /**
   * Two lists ordered by descending activity that agree on the entries of every activity key
   * are the same list.
   */
  lemma {:induction false} DescendingUnique(a: seq<Conversation>, b: seq<Conversation>)
    requires Descending(a) && Descending(b)
    requires forall k :: WithKey(a, k) == WithKey(b, k)
    ensures a == b
  {
    if a == [] && b == [] {
    } else if a == [] {
      WithKeyHead(b);
      assert false;
    } else if b == [] {
      WithKeyHead(a);
      assert false;
    } else {
      var ka, kb := ActivityKey(a[0]), ActivityKey(b[0]);
      WithKeyMember(a, ka, a[0]);
      WithKeyMember(b, kb, b[0]);
      var y := WithKey(b, ka)[0];
      WithKeyMember(b, ka, y);
      var x := WithKey(a, kb)[0];
      WithKeyMember(a, kb, x);
      assert ka == kb by {
        assert y in b && ActivityKey(y) == ka;
        assert x in a && ActivityKey(x) == kb;
      }
      assert a[0] == b[0] by {
        assert WithKey(a, ka)[0] == a[0];
        assert WithKey(b, ka)[0] == b[0];
      }
      forall k ensures WithKey(a[1..], k) == WithKey(b[1..], k) {
        var head := if ka == k then [a[0]] else [];
        assert WithKey(a, k) == head + WithKey(a[1..], k);
        assert WithKey(b, k) == head + WithKey(b[1..], k);
        assert WithKey(a[1..], k) == WithKey(a, k)[|head|..];
        assert WithKey(b[1..], k) == WithKey(b, k)[|head|..];
      }
      DescendingUnique(a[1..], b[1..]);
      assert a == [a[0]] + a[1..] && b == [b[0]] + b[1..];
    }
  }

  /**
   * `SortChats` is the only stable descending order of its input: whatever stable algorithm the
   * JavaScript engine runs, with this comparator it produces `SortChats(s)`.
   */
  lemma SortChatsIsTheStableSort(s: seq<Conversation>, t: seq<Conversation>)
    requires Descending(t)
    requires forall k :: WithKey(t, k) == WithKey(s, k)
    ensures t == SortChats(s)
  {
    forall k ensures WithKey(t, k) == WithKey(SortChats(s), k) {
      SortChatsStable(s, k);
    }
    DescendingUnique(t, SortChats(s));
  }

  /** A list already in order is left as it is. */
  lemma SortChatsSorted(s: seq<Conversation>)
    requires Descending(s)
    ensures SortChats(s) == s
  {
    SortChatsIsTheStableSort(s, s);
  }

  /** Dropping entries from a list ordered by activity leaves it ordered. */
  lemma SubsequenceKeepsDescending(r: seq<Conversation>, s: seq<Conversation>)
    requires Seqs.Subsequence(r, s) && Descending(s)
    ensures Descending(r)
  {
    Seqs.SubsequencePairwise(r, s, (a: Conversation, b: Conversation) => ActivityKey(a) >= ActivityKey(b));
  }
}
