/**
 * The `userOnline` / `userOffline` listeners: they rewrite the matching user record in the sidebar
 * user list and among the members of every non-group conversation of the list.
 */
module Presence {
  import opened ChatTypes

  /** A presence broadcast: online, or offline with the `lastSeen` the event carries. */
  datatype PresenceEvent = Online | Offline(lastSeen: Option<Timestamp>)

  /** `{ ...u, online: true }` or `{ ...u, online: false, lastSeen }`. */
  function ApplyPresence(u: User, ev: PresenceEvent): (r: User)
    ensures r.id == u.id && r.username == u.username
    ensures r.online <==> ev.Online?
    ensures r.lastSeen == if ev.Offline? then ev.lastSeen else u.lastSeen
  {
    match ev
    case Online => u.(online := true)
    case Offline(seen) => u.(online := false, lastSeen := seen)
  }

  /** `users.map(u => u._id === userId ? <updated u> : u)`. */
  function RewriteUsers(users: seq<User>, userId: Id, ev: PresenceEvent): (r: seq<User>)
    ensures |r| == |users|
    ensures forall i :: 0 <= i < |users| && users[i].id != userId ==> r[i] == users[i]
    ensures forall i :: 0 <= i < |users| && users[i].id == userId ==>
      && r[i].id == userId && r[i].username == users[i].username
      && r[i].online == ev.Online?
      && r[i].lastSeen == (if ev.Offline? then ev.lastSeen else users[i].lastSeen)
  {
    if users == [] then []
    else [if users[0].id == userId then ApplyPresence(users[0], ev) else users[0]] + RewriteUsers(users[1..], userId, ev)
  }

  /** Only non-group conversations that carry a member list are touched, and only in their members. */
  function RewriteChats(chats: seq<Conversation>, userId: Id, ev: PresenceEvent): (r: seq<Conversation>)
    ensures |r| == |chats|
    ensures forall i :: 0 <= i < |chats| && (chats[i].isGroup || chats[i].members.None?) ==> r[i] == chats[i]
    ensures forall i :: 0 <= i < |chats| && !chats[i].isGroup && chats[i].members.Some? ==>
      && r[i].members.Some?
      && r[i] == chats[i].(members := r[i].members)
      && r[i].members.value == RewriteUsers(chats[i].members.value, userId, ev)
  {
    if chats == [] then []
    else
      var c := chats[0];
      var c' := if !c.isGroup && c.members.Some? then c.(members := Some(RewriteUsers(c.members.value, userId, ev))) else c;
      [c'] + RewriteChats(chats[1..], userId, ev)
  }

  /** Presence events are idempotent: a repeated broadcast changes nothing more. */
  lemma {:induction false} RewriteUsersIdempotent(users: seq<User>, userId: Id, ev: PresenceEvent)
    ensures RewriteUsers(RewriteUsers(users, userId, ev), userId, ev) == RewriteUsers(users, userId, ev)
  {
    if users != [] {
      RewriteUsersIdempotent(users[1..], userId, ev);
      assert RewriteUsers(users, userId, ev)[1..] == RewriteUsers(users[1..], userId, ev);
    }
  }

  /** The latest broadcast wins: any event followed by offline is just offline. */
  lemma {:induction false} RewriteUsersLatestWins(users: seq<User>, userId: Id, first: PresenceEvent, seen: Option<Timestamp>)
    ensures RewriteUsers(RewriteUsers(users, userId, first), userId, Offline(seen)) == RewriteUsers(users, userId, Offline(seen))
  {
    if users != [] {
      RewriteUsersLatestWins(users[1..], userId, first, seen);
      assert RewriteUsers(users, userId, first)[1..] == RewriteUsers(users[1..], userId, first);
    }
  }

  /** The same for the members of the conversation list. */
  lemma {:induction false} RewriteChatsIdempotent(chats: seq<Conversation>, userId: Id, ev: PresenceEvent)
    ensures RewriteChats(RewriteChats(chats, userId, ev), userId, ev) == RewriteChats(chats, userId, ev)
  {
    if chats != [] {
      RewriteChatsIdempotent(chats[1..], userId, ev);
      if !chats[0].isGroup && chats[0].members.Some? {
        RewriteUsersIdempotent(chats[0].members.value, userId, ev);
      }
      assert RewriteChats(chats, userId, ev)[1..] == RewriteChats(chats[1..], userId, ev);
    }
  }
}
