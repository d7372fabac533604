/**
 * The chat page's state and the handlers that overwrite it. Each field is one `useState` slot of
 * the page; each method is one handler, effect resolution or live-channel listener, with the
 * request it waited for passed in as its result.
 */
module ChatPage {
  import opened ChatTypes
  import Seqs
  import ChatOrder
  import Directory
  import Presence
  import LiveState
  import Pagination
  import SidebarPaging
  import GroupActions
  import JsText

  /** The route the page was opened on: a group, a private chat with a user, or neither. */
  datatype Route = GroupRoute(groupId: Id) | UserRoute(userId: Id) | NoRoute

  class ChatSession {
    /** The logged-in user's id. */
    const userId: Id
    /** Whether the live channel (socket) is present. */
    var connected: bool

    var chats: seq<Conversation>
    var chatPages: nat
    var activeChat: Option<Conversation>

    var messages: seq<Message>
    var loadingMessages: bool
    var msgPage: int
    var msgPages: nat

    var sidebarUsers: seq<User>
    var sidebarUserPage: int
    var sidebarUserPages: nat
    var sidebarGroups: seq<Conversation>
    var sidebarGroupPage: int
    var sidebarGroupPages: nat

    var typing: seq<Id>
    var reactions: map<Id, seq<string>>
    var readBy: map<Id, seq<Id>>

    var newGroupName: string
    var selectedGroupMembers: seq<Id>

    /** Page counters never drop below one, page counts are at least one, and nobody is listed as typing twice. */
    ghost predicate Valid()
      reads this
    {
      && msgPage >= 1 && msgPages >= 1 && chatPages >= 1
      && sidebarUserPage >= 1 && sidebarUserPages >= 1
      && sidebarGroupPage >= 1 && sidebarGroupPages >= 1
      && Seqs.NoDuplicates(typing)
    }

    /** The initial state of every slot. */
    constructor (userId: Id, connected: bool)
      ensures Valid()
      ensures this.userId == userId && this.connected == connected
      ensures chats == [] && chatPages == 1 && activeChat == None
      ensures messages == [] && !loadingMessages && msgPage == 1 && msgPages == 1
      ensures sidebarUsers == [] && sidebarUserPage == 1 && sidebarUserPages == 1
      ensures sidebarGroups == [] && sidebarGroupPage == 1 && sidebarGroupPages == 1
      ensures typing == [] && reactions == map[] && readBy == map[]
      ensures newGroupName == "" && selectedGroupMembers == []
    {
      this.userId := userId;
      this.connected := connected;
      chats := [];
      chatPages := 1;
      activeChat := None;
      messages := [];
      loadingMessages := false;
      msgPage := 1;
      msgPages := 1;
      sidebarUsers := [];
      sidebarUserPage := 1;
      sidebarUserPages := 1;
      sidebarGroups := [];
      sidebarGroupPage := 1;
      sidebarGroupPages := 1;
      typing := [];
      reactions := map[];
      readBy := map[];
      newGroupName := "";
      selectedGroupMembers := [];
    }

    // ----- opening a conversation -----

    /** The route changed: the message list is cleared and shown as loading; without a route nothing is open. */
    method Navigate(route: Route)
      requires Valid()
      modifies this`messages, this`loadingMessages, this`activeChat
      ensures Valid()
      ensures messages == [] && loadingMessages
      ensures activeChat == if route.NoRoute? then None else old(activeChat)
    {
      messages := [];
      loadingMessages := true;
      if route.NoRoute? {
        activeChat := None;
      }
    }

    /**
     * The route's conversation arrived: it becomes the open conversation and is upserted into the
     * list (replaced by id, or added), which is then re-sorted. A failed request closes the
     * conversation and leaves the list alone.
     */
    method NavigationResolved(result: Fetch<Conversation>)
      requires Valid()
      modifies this`activeChat, this`chats
      ensures Valid()
      ensures result.Fetched? ==> activeChat == Some(result.data) && chats == Directory.UpsertChat(old(chats), result.data)
      ensures result.Failed? ==> activeChat == None && chats == old(chats)
      ensures result.Fetched? ==> ChatOrder.Descending(chats) && result.data in chats
    {
      if result.Fetched? {
        activeChat := Some(result.data);
        chats := Directory.UpsertChat(chats, result.data);
        Directory.UpsertChatSpec(old(chats), result.data);
      } else {
        activeChat := None;
      }
    }

    /** A conversation picked from the list becomes the open one directly. */
    method SelectConversation(conv: Conversation)
      requires Valid()
      modifies this`activeChat
      ensures Valid()
      ensures activeChat == Some(conv)
    {
      activeChat := Some(conv);
    }

    /** The back arrow, and every change of logged-in user, close the open conversation. */
    method CloseConversation()
      requires Valid()
      modifies this`activeChat
      ensures Valid()
      ensures activeChat == None
    {
      activeChat := None;
    }

    // ----- loading the conversation list -----

    /** The list assembled from the global chat, a page of groups and the private chats, sorted by activity. */
    method DirectoryLoaded(global: Conversation, groups: PageData<Conversation>, privates: Option<seq<Conversation>>)
      requires Valid()
      modifies this`chats, this`chatPages
      ensures Valid()
      ensures chats == Directory.MergeDirectory(global, ItemsOrEmpty(groups.items), ItemsOrEmpty(privates))
      ensures chatPages == PagesOrOne(groups.pages)
    {
      chats := Directory.MergeDirectory(global, ItemsOrEmpty(groups.items), ItemsOrEmpty(privates));
      chatPages := PagesOrOne(groups.pages);
    }

    /** The list assembled from the global chat and a page of groups only (the earlier of the two loads). */
    method GroupDirectoryLoaded(global: Conversation, groups: PageData<Conversation>)
      requires Valid()
      modifies this`chats, this`chatPages
      ensures Valid()
      ensures chats == Directory.MergeDirectory(global, ItemsOrEmpty(groups.items), [])
      ensures chatPages == PagesOrOne(groups.pages)
    {
      var filtered := Directory.WithoutId(ItemsOrEmpty(groups.items), global.id);
      assert [global] + filtered + [] == [global] + filtered;
      chats := ChatOrder.SortChats([global] + filtered);
      chatPages := PagesOrOne(groups.pages);
    }

    // ----- messages and their pager -----

    /**
     * The messages effect starts: with a conversation open it marks loading and requests the
     * current page of that conversation; otherwise it does nothing.
     */
    method RequestMessages() returns (request: Option<(Id, int)>)
      requires Valid()
      modifies this`loadingMessages
      ensures Valid()
      ensures request.Some? <==> activeChat.Some?
      ensures request.Some? ==> request.value == (activeChat.value.id, msgPage) && loadingMessages
      ensures request.None? ==> loadingMessages == old(loadingMessages)
    {
      if activeChat.Some? {
        loadingMessages := true;
        request := Some((activeChat.value.id, msgPage));
      } else {
        request := None;
      }
    }

    /** A page of messages arrived: it replaces the list, and the page count is updated. */
    method MessagesLoaded(data: PageData<Message>)
      requires Valid()
      modifies this`messages, this`msgPages, this`loadingMessages
      ensures Valid()
      ensures messages == ItemsOrEmpty(data.items) && msgPages == PagesOrOne(data.pages) && !loadingMessages
    {
      messages := ItemsOrEmpty(data.items);
      msgPages := PagesOrOne(data.pages);
      loadingMessages := false;
    }

    /**
     * A click on the message pager as rendered: Prev disabled only on page 1, Next only on page
     * `msgPages` exactly. The page counter outlives a change of conversation, so it may exceed the
     * new page count; Next is then still enabled and moves further past the last page.
     */
    method MessagePagerClick(b: Pagination.Button)
      requires Valid()
      modifies this`msgPage
      ensures Valid()
      ensures var req := Pagination.Click(Pagination.Render(old(msgPage), msgPages), b);
        msgPage == if req.Some? then req.value else old(msgPage)
      ensures b == Pagination.Next && old(msgPage) < msgPages ==> msgPage <= msgPages
      ensures b == Pagination.Next && old(msgPage) > msgPages > 1 ==> msgPage == old(msgPage) + 1
    {
      var req := Pagination.Click(Pagination.Render(msgPage, msgPages), b);
      if req.Some? {
        msgPage := req.value;
      }
    }

    // ----- the sidebar -----

    /** A page of sidebar users arrived, or the request failed: then the list empties and an alert names the error. */
    method SidebarUsersLoaded(result: Fetch<PageData<User>>) returns (alert: Option<string>)
      requires Valid()
      modifies this`sidebarUsers, this`sidebarUserPages
      ensures Valid()
      ensures result.Fetched? ==>
        sidebarUsers == ItemsOrEmpty(result.data.items) && sidebarUserPages == PagesOrOne(result.data.pages) && alert == None
      ensures result.Failed? ==>
        sidebarUsers == [] && sidebarUserPages == 1 && alert == Some("Failed to fetch users: " + result.message)
    {
      if result.Fetched? {
        sidebarUsers := ItemsOrEmpty(result.data.items);
        sidebarUserPages := PagesOrOne(result.data.pages);
        alert := None;
      } else {
        sidebarUsers := [];
        sidebarUserPages := 1;
        alert := Some("Failed to fetch users: " + result.message);
      }
    }

    /** A page of sidebar groups arrived; a failed request changes nothing. */
    method SidebarGroupsLoaded(result: Fetch<PageData<Conversation>>)
      requires Valid()
      modifies this`sidebarGroups, this`sidebarGroupPages
      ensures Valid()
      ensures result.Fetched? ==>
        sidebarGroups == ItemsOrEmpty(result.data.items) && sidebarGroupPages == PagesOrOne(result.data.pages)
      ensures result.Failed? ==> sidebarGroups == old(sidebarGroups) && sidebarGroupPages == old(sidebarGroupPages)
    {
      if result.Fetched? {
        sidebarGroups := ItemsOrEmpty(result.data.items);
        sidebarGroupPages := PagesOrOne(result.data.pages);
      }
    }

    /** The Prev/Next controls under the sidebar user list. */
    method SidebarUserPagerClick(b: Pagination.Button)
      requires Valid()
      modifies this`sidebarUserPage
      ensures Valid()
      ensures var req := SidebarPaging.Click(old(sidebarUserPage), sidebarUserPages, b);
        sidebarUserPage == if req.Some? then req.value else old(sidebarUserPage)
    {
      var req := SidebarPaging.Click(sidebarUserPage, sidebarUserPages, b);
      SidebarPaging.ClickBounds(sidebarUserPage, sidebarUserPages, b);
      if req.Some? {
        sidebarUserPage := req.value;
      }
    }

    /** The Prev/Next controls under the sidebar group list. */
    method SidebarGroupPagerClick(b: Pagination.Button)
      requires Valid()
      modifies this`sidebarGroupPage
      ensures Valid()
      ensures var req := SidebarPaging.Click(old(sidebarGroupPage), sidebarGroupPages, b);
        sidebarGroupPage == if req.Some? then req.value else old(sidebarGroupPage)
    {
      var req := SidebarPaging.Click(sidebarGroupPage, sidebarGroupPages, b);
      SidebarPaging.ClickBounds(sidebarGroupPage, sidebarGroupPages, b);
      if req.Some? {
        sidebarGroupPage := req.value;
      }
    }

    // ----- live-channel listeners -----

    /** `userOnline` / `userOffline`: the user's record in the sidebar and in private chats' member lists. */
    method PresenceChanged(user: Id, ev: Presence.PresenceEvent)
      requires Valid()
      modifies this`sidebarUsers, this`chats
      ensures Valid()
      ensures sidebarUsers == Presence.RewriteUsers(old(sidebarUsers), user, ev)
      ensures chats == Presence.RewriteChats(old(chats), user, ev)
      ensures |chats| == |old(chats)| && |sidebarUsers| == |old(sidebarUsers)|
    {
      sidebarUsers := Presence.RewriteUsers(sidebarUsers, user, ev);
      chats := Presence.RewriteChats(chats, user, ev);
    }

    /**
     * `receiveMessage`, listened to only while a conversation is open: the message is appended,
     * and when its conversation is not in the list the looked-up conversation is prepended,
     * if the lookup produced one. Returns the lookup issued.
     */
    method MessageReceived(msg: Message, fetched: Fetch<Option<Conversation>>) returns (lookup: Option<GroupActions.Lookup>)
      requires Valid()
      modifies this`messages, this`chats
      ensures Valid()
      ensures old(activeChat).None? ==> messages == old(messages) && chats == old(chats) && lookup == None
      ensures old(activeChat).Some? ==> messages == old(messages) + [msg] && |messages| == |old(messages)| + 1
      ensures lookup.Some? <==> old(activeChat).Some? && !HasId(old(chats), msg.chat)
      ensures lookup.Some? ==> lookup.value == GroupActions.ReceiveLookup(msg, userId)
      ensures var conv := GroupActions.Resolution(fetched);
        chats == if lookup.Some? && conv.Some? then Directory.PrependChat(old(chats), conv.value) else old(chats)
    {
      lookup := None;
      if activeChat.Some? {
        messages := messages + [msg];
        if !HasId(chats, msg.chat) {
          lookup := Some(GroupActions.ReceiveLookup(msg, userId));
          var conv := GroupActions.Resolution(fetched);
          if conv.Some? {
            chats := Directory.PrependChat(chats, conv.value);
          }
        }
      }
    }

    /** `typing`: the user joins the typing list once (only while a conversation is open). */
    method TypingStarted(user: Id)
      requires Valid()
      modifies this`typing
      ensures Valid()
      ensures typing == if activeChat.Some? then LiveState.StartTyping(old(typing), user) else old(typing)
    {
      if activeChat.Some? {
        LiveState.TypingKeepsNoDuplicates(typing, user);
        typing := LiveState.StartTyping(typing, user);
      }
    }

    /** `stopTyping`: the user leaves the typing list (only while a conversation is open). */
    method TypingStopped(user: Id)
      requires Valid()
      modifies this`typing
      ensures Valid()
      ensures typing == if activeChat.Some? then LiveState.StopTyping(old(typing), user) else old(typing)
      ensures activeChat.Some? ==> user !in typing
    {
      if activeChat.Some? {
        LiveState.TypingKeepsNoDuplicates(typing, user);
        typing := LiveState.StopTyping(typing, user);
      }
    }

    /** `reactMessage`: one more reaction at the end of that message's list (only while a conversation is open). */
    method Reacted(messageId: Id, reaction: string)
      requires Valid()
      modifies this`reactions
      ensures Valid()
      ensures reactions == if activeChat.Some? then LiveState.Append(old(reactions), messageId, reaction) else old(reactions)
    {
      if activeChat.Some? {
        reactions := LiveState.Append(reactions, messageId, reaction);
      }
    }

    /** `readMessage`: one more reader at the end of that message's list, repeats included (only while a conversation is open). */
    method MessageRead(messageId: Id, reader: Id)
      requires Valid()
      modifies this`readBy
      ensures Valid()
      ensures readBy == if activeChat.Some? then LiveState.Append(old(readBy), messageId, reader) else old(readBy)
    {
      if activeChat.Some? {
        readBy := LiveState.Append(readBy, messageId, reader);
      }
    }

    // ----- the composer -----

    /**
     * `handleSend`: emits the content to the open conversation's room and never touches the
     * message list; when the open conversation is missing from the list, the looked-up one is
     * prepended if the lookup produced one. Returns the emission and the lookup issued.
     */
    method Send(content: string, fetched: Fetch<Option<Conversation>>) returns (emitted: Option<GroupActions.Emission>, lookup: Option<GroupActions.Lookup>)
      requires Valid()
      modifies this`chats
      ensures Valid()
      ensures emitted == GroupActions.SendEmission(connected, activeChat, content)
      ensures lookup.Some? <==> emitted.Some? && !HasId(old(chats), activeChat.value.id)
      ensures lookup.Some? ==> lookup.value == GroupActions.SendLookup(activeChat.value, userId)
      ensures var conv := GroupActions.Resolution(fetched);
        chats == if lookup.Some? && conv.Some? then Directory.PrependChat(old(chats), conv.value) else old(chats)
    {
      emitted := GroupActions.SendEmission(connected, activeChat, content);
      lookup := None;
      if emitted.Some? && !HasId(chats, activeChat.value.id) {
        lookup := Some(GroupActions.SendLookup(activeChat.value, userId));
        var conv := GroupActions.Resolution(fetched);
        if conv.Some? {
          chats := Directory.PrependChat(chats, conv.value);
        }
      }
    }

    /** `handleTyping`: what a change of the composer's input emits; the page state is left as it is. */
    method InputChanged(value: Option<string>) returns (emitted: Option<GroupActions.Emission>)
      ensures emitted.Some? <==> connected && activeChat.Some?
      ensures emitted.Some? ==> emitted.value.roomId == activeChat.value.id
      ensures emitted.Some? ==> (emitted.value.TypingStart? <==> value.Some? && JsText.HasContent(value.value))
      ensures emitted.Some? ==> (emitted.value.TypingStop? <==> !(value.Some? && JsText.HasContent(value.value)))
    {
      emitted := GroupActions.TypingEmission(connected, activeChat, value);
      if emitted.Some? {
        GroupActions.TypingStartIff(connected, activeChat, value);
      }
    }

    // ----- group management -----

    /** A membership mutation on the open group: a success of both requests replaces it with the refetched group. */
    method Mutate(op: GroupActions.MemberOp, mutation: Response<()>, refetch: Response<Conversation>) returns (alert: Option<string>)
      requires Valid()
      modifies this`activeChat
      ensures Valid()
      ensures var out := GroupActions.Mutate(old(activeChat), op, mutation, refetch);
        && activeChat == (if out.Replaced? then Some(out.group) else old(activeChat))
        && alert == (if out.Alert? then Some(out.message) else None)
    {
      var out := GroupActions.Mutate(activeChat, op, mutation, refetch);
      alert := None;
      match out
      case Replaced(g) => activeChat := Some(g);
      case Alert(m) => alert := Some(m);
      case NoOp =>
    }

    /** Deleting the open group: after a confirmed success it is closed and every entry with its id leaves the list. */
    method DeleteGroup(confirmed: bool, response: Response<()>) returns (alert: Option<string>)
      requires Valid()
      modifies this`activeChat, this`chats
      ensures Valid()
      ensures var out := GroupActions.Delete(old(activeChat), confirmed, response);
        && (out.Deleted? ==> activeChat == None && chats == Directory.WithoutId(old(chats), out.id))
        && (!out.Deleted? ==> activeChat == old(activeChat) && chats == old(chats))
        && alert == (if out.DeleteAlert? then Some(out.message) else None)
      ensures old(activeChat).Some? && confirmed && response.Ok? ==> !HasId(chats, old(activeChat).value.id)
      ensures Seqs.Subsequence(chats, old(chats))
      ensures ChatOrder.Descending(old(chats)) ==> ChatOrder.Descending(chats)
    {
      var out := GroupActions.Delete(activeChat, confirmed, response);
      alert := None;
      match out
      case Deleted(id) =>
        Directory.WithoutIdKeepsOrder(chats, id);
        activeChat := None;
        chats := Directory.WithoutId(chats, id);
      case DeleteAlert(m) =>
        Seqs.SubsequenceRefl(chats);
        alert := Some(m);
      case Untouched =>
        Seqs.SubsequenceRefl(chats);
    }

    /** Typing into the group-name field. */
    method EditGroupName(name: string)
      requires Valid()
      modifies this`newGroupName
      ensures Valid()
      ensures newGroupName == name
    {
      newGroupName := name;
    }

    /** Ticking a user's box appends the id; unticking drops every copy of it. */
    method ToggleMember(user: Id, checked: bool)
      requires Valid()
      modifies this`selectedGroupMembers
      ensures Valid()
      ensures checked ==> selectedGroupMembers == old(selectedGroupMembers) + [user]
      ensures !checked ==> selectedGroupMembers == Seqs.Filter(old(selectedGroupMembers), (id: Id) => id != user)
      ensures !checked ==> user !in selectedGroupMembers
      ensures !checked ==> Seqs.Subsequence(selectedGroupMembers, old(selectedGroupMembers))
    {
      Seqs.FilterIsSubsequence(selectedGroupMembers, (id: Id) => id != user);
      if checked {
        selectedGroupMembers := selectedGroupMembers + [user];
      } else {
        selectedGroupMembers := Seqs.Filter(selectedGroupMembers, (id: Id) => id != user);
      }
    }

    /**
     * The Create button: with a submitted request that succeeds, the new group is prepended and
     * the form is reset; a refusal or a failure alerts and keeps the form.
     */
    method CreateGroup(response: Response<Conversation>) returns (decision: GroupActions.CreateDecision, alert: Option<string>)
      requires Valid()
      modifies this`chats, this`newGroupName, this`selectedGroupMembers
      ensures Valid()
      ensures decision == GroupActions.CreateGroup(userId, old(newGroupName), old(selectedGroupMembers))
      ensures decision.Submit? && response.Ok? ==>
        && chats == Directory.PrependChat(old(chats), response.body)
        && newGroupName == "" && selectedGroupMembers == [] && alert == None
      ensures !(decision.Submit? && response.Ok?) ==>
        chats == old(chats) && newGroupName == old(newGroupName) && selectedGroupMembers == old(selectedGroupMembers)
      ensures decision.Rejected? ==> alert == Some(GroupActions.TooFewMembers)
      ensures decision.Submit? && !response.Ok? ==> alert == Some(GroupActions.FailureText(response, "Failed to create group"))
      ensures decision.Disabled? ==> alert == None
    {
      decision := GroupActions.CreateGroup(userId, newGroupName, selectedGroupMembers);
      alert := None;
      match decision
      case Disabled =>
      case Rejected(m) => alert := Some(m);
      case Submit(_, _) =>
        if response.Ok? {
          chats := Directory.PrependChat(chats, response.body);
          newGroupName := "";
          selectedGroupMembers := [];
        } else {
          alert := Some(GroupActions.FailureText(response, "Failed to create group"));
        }
    }

    // ----- derived views -----

    /** The conversation list split into the viewer's groups (global first) and the others. */
    method Views() returns (mine: seq<Conversation>, others: seq<Conversation>)
      ensures mine == Directory.MyGroups(chats, userId) && others == Directory.OtherGroups(chats, userId)
      ensures forall c :: c in others ==> c !in mine
    {
      mine := Directory.MyGroups(chats, userId);
      others := Directory.OtherGroups(chats, userId);
      forall c | c in others ensures c !in mine {
        Directory.GroupViewsDisjoint(chats, userId, c);
      }
    }
  }

  /**
   * Sending adds nothing to the message list: with a fresh session that opened a conversation,
   * a send followed by the server's echo leaves exactly one copy of the message.
   */
  method SendThenEcho(userId: Id, conv: Conversation, msg: Message) returns (count: nat)
    ensures count == 1
  {
    var s := new ChatSession(userId, true);
    s.SelectConversation(conv);
    var emitted, lookup := s.Send(msg.content, Failed("offline"));
    assert s.messages == [];
    var _ := s.MessageReceived(msg, Failed("offline"));
    count := |s.messages|;
  }

  /**
   * The create prepend does not look for the id: when the new group reached the list first,
   * through a group directory load that already lists it, it is listed twice.
   */
  method DuplicateAfterCreate(userId: Id, global: Conversation, conv: Conversation, other: Id) returns (copies: nat)
    requires conv.id != global.id
    ensures copies == 2
  {
    var s := new ChatSession(userId, true);
    s.GroupDirectoryLoaded(global, PageData(Some([conv]), Some(1)));
    var listed := s.chats;
    ListedOnce(global, conv);
    s.EditGroupName("team");
    s.ToggleMember(other, true);
    var decision, _ := s.CreateGroup(Ok(conv));
    assert decision.Submit?;
    assert s.chats == [conv] + listed;
    copies := CountId(s.chats, conv.id);
    assert copies == 2 by {
      Directory.CountIdAppend([conv], listed, conv.id);
      Directory.CountIdAppend([], [conv], conv.id);
    }
  }

  /** A group page holding only `conv` lists it once beside a global chat with another id. */
  lemma ListedOnce(global: Conversation, conv: Conversation)
    requires conv.id != global.id
    ensures CountId(Directory.MergeDirectory(global, [conv], []), conv.id) == 1
  {
    var all := [global] + Directory.WithoutId([conv], global.id) + [];
    Directory.MergeDirectorySpec(global, [conv], []);
    Directory.MergedIdCount(global, [conv], [], conv);
    Seqs.CountPermutation(Directory.MergeDirectory(global, [conv], []), all, (c: Conversation) => c.id == conv.id);
  }

  /**
   * Responses are not tagged with the navigation they belong to: when the response for
   * conversation `a` resolves after `b` was navigated to and loaded, `a` is open again.
   */
  method LateResponseWins(userId: Id, a: Conversation, b: Conversation) returns (open: Option<Conversation>)
    ensures open == Some(a)
  {
    var s := new ChatSession(userId, true);
    s.Navigate(GroupRoute(a.id));
    s.Navigate(GroupRoute(b.id));
    s.NavigationResolved(Fetched(b));
    s.NavigationResolved(Fetched(a));
    open := s.activeChat;
  }
}
