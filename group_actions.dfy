/**
 * The decisions inside the chat page's event handlers, with every request abstracted to the
 * result it delivers: what the membership mutations and the delete leave behind, what the
 * composer emits on the live channel, which conversation a lookup fetches when a message
 * arrives for (or is sent in) a conversation missing from the list, and the create-group rule.
 */
module GroupActions {
  import opened ChatTypes
  import JsText
  import Directory

  // ----- membership mutations -----

  datatype MemberOp = AddMember | RemoveMember | KickMember | PromoteAdmin | DemoteAdmin

  /** The error each mutation throws on a non-success status. */
  function FailureMessage(op: MemberOp): string {
    match op
    case AddMember => "Failed to add member"
    case RemoveMember => "Failed to remove member"
    case KickMember => "Failed to remove member"
    case PromoteAdmin => "Failed to promote admin"
    case DemoteAdmin => "Failed to demote admin"
  }

  const RefetchFailure := "Failed to fetch updated group"

  /** What a handler leaves: nothing, the refetched group as the open conversation, or an alert. */
  datatype Outcome = NoOp | Replaced(group: Conversation) | Alert(message: string)

  /** The message an alert shows for a request that failed. */
  function FailureText<T>(r: Response<T>, notOk: string): (text: string)
    requires !r.Ok?
    ensures r.NotOk? ==> text == notOk
    ensures r.Thrown? ==> text == r.message
  {
    if r.NotOk? then notOk else r.message
  }

  /**
   * A mutation on the open conversation: post, and on success refetch the group and make it the
   * open conversation. The refetch is only issued once the mutation succeeded.
   */
  function Mutate(active: Option<Conversation>, op: MemberOp, mutation: Response<()>, refetch: Response<Conversation>): (r: Outcome)
    ensures active.None? ==> r == NoOp
    ensures active.Some? && !mutation.Ok? ==> r == Alert(FailureText(mutation, FailureMessage(op)))
    ensures active.Some? && mutation.Ok? && !refetch.Ok? ==> r == Alert(FailureText(refetch, RefetchFailure))
    ensures active.Some? && mutation.Ok? && refetch.Ok? ==> r == Replaced(refetch.body)
  {
    if active.None? then NoOp
    else if !mutation.Ok? then Alert(FailureText(mutation, FailureMessage(op)))
    else if !refetch.Ok? then Alert(FailureText(refetch, RefetchFailure))
    else Replaced(refetch.body)
  }

  /** The open conversation is replaced exactly when both requests succeed, and then by the refetched group. */
  lemma MutateReplacesIff(active: Option<Conversation>, op: MemberOp, mutation: Response<()>, refetch: Response<Conversation>)
    ensures Mutate(active, op, mutation, refetch).Replaced?
      <==> active.Some? && mutation.Ok? && refetch.Ok?
    ensures Mutate(active, op, mutation, refetch).Replaced? ==> Mutate(active, op, mutation, refetch).group == refetch.body
  {
  }

  /** A failed mutation makes the refetch irrelevant: the outcome is the same whatever it would have returned. */
  lemma FailedMutationIgnoresRefetch(active: Option<Conversation>, op: MemberOp, mutation: Response<()>, a: Response<Conversation>, b: Response<Conversation>)
    requires !mutation.Ok?
    ensures Mutate(active, op, mutation, a) == Mutate(active, op, mutation, b)
  {
  }

  /** Every non-success status alerts with a message naming the failed step; remove and kick share theirs. */
  lemma FailureMessagesDistinguishSteps(op: MemberOp, other: MemberOp)
    ensures FailureMessage(op) != RefetchFailure
    ensures FailureMessage(op) == FailureMessage(other) <==> op == other || {op, other} == {RemoveMember, KickMember}
  {
  }

  /** What a delete leaves: nothing, or the deleted id (close it and drop it from the list), or an alert. */
  datatype DeleteOutcome = Untouched | Deleted(id: Id) | DeleteAlert(message: string)

  /** Deleting the open group: only after confirmation, and only a success removes anything. */
  function Delete(active: Option<Conversation>, confirmed: bool, response: Response<()>): (r: DeleteOutcome)
    ensures r.Deleted? <==> active.Some? && confirmed && response.Ok?
    ensures r.Deleted? ==> r.id == active.value.id
    ensures r.DeleteAlert? <==> active.Some? && confirmed && !response.Ok?
    ensures r.DeleteAlert? ==> r.message == FailureText(response, "Failed to delete group")
  {
    if active.None? || !confirmed then Untouched
    else if response.Ok? then Deleted(active.value.id)
    else DeleteAlert(FailureText(response, "Failed to delete group"))
  }

  // ----- live-channel emissions -----

  /** The events the composer sends on the live channel, each addressed to the open conversation's room. */
  datatype Emission = SendMessage(roomId: Id, content: string) | TypingStart(roomId: Id) | TypingStop(roomId: Id)

  /** `handleSend`: nothing without a socket or an open conversation; otherwise the content, unchanged. */
  function SendEmission(connected: bool, active: Option<Conversation>, content: string): (r: Option<Emission>)
    ensures r.Some? <==> connected && active.Some?
    ensures r.Some? ==> r.value == SendMessage(active.value.id, content)
  {
    if !connected || active.None? then None else Some(SendMessage(active.value.id, content))
  }

  /**
   * `handleTyping`: nothing without a socket or an open conversation; otherwise a typing start
   * when the input has something other than whitespace, else a typing stop. A missing value is
   * `None`.
   */
  function TypingEmission(connected: bool, active: Option<Conversation>, value: Option<string>): (r: Option<Emission>)
    ensures r.Some? <==> connected && active.Some?
    ensures r.Some? ==> r.value.roomId == active.value.id && !r.value.SendMessage?
  {
    if !connected || active.None? then None
    else if value.Some? && |JsText.Trim(value.value)| > 0 then Some(TypingStart(active.value.id))
    else Some(TypingStop(active.value.id))
  }

  /** A start is emitted exactly for an input with a non-whitespace character; blank, empty or missing input stops. */
  lemma TypingStartIff(connected: bool, active: Option<Conversation>, value: Option<string>)
    requires connected && active.Some?
    ensures TypingEmission(connected, active, value) == Some(TypingStart(active.value.id))
      <==> value.Some? && JsText.HasContent(value.value)
  {
    if value.Some? {
      JsText.TrimNonEmpty(value.value);
    }
  }

  /** Only the trimmed input decides: padding a value with whitespace emits the same event. */
  lemma TypingIgnoresPadding(connected: bool, active: Option<Conversation>, value: string)
    ensures TypingEmission(connected, active, Some(value)) == TypingEmission(connected, active, Some(JsText.Trim(value)))
  {
    JsText.TrimIdempotent(value);
  }

  // ----- resolving a conversation missing from the list -----

  /** The request that fetches a conversation: a group by id, or the private chat with a user (whose id may be missing). */
  datatype Lookup = GroupById(id: Id) | PrivateWith(other: Option<Id>)

  /**
   * For a received message: group messages fetch their group; private ones the chat with whoever
   * is not the viewer. `msg.isGroup || msg.group` is falsy for an empty group reference, as for a
   * missing one.
   */
  function ReceiveLookup(msg: Message, userId: Id): (r: Lookup)
    ensures r.GroupById? <==> msg.isGroup || (msg.group.Some? && msg.group.value != "")
    ensures r.GroupById? ==> r.id == msg.chat
    ensures r.PrivateWith? && msg.senderId != userId ==> r.other == Some(msg.senderId)
    ensures r.PrivateWith? && msg.senderId == userId ==> r.other == msg.receiver
  {
    if msg.isGroup || (msg.group.Some? && msg.group.value != "") then GroupById(msg.chat)
    else PrivateWith(if msg.senderId == userId then msg.receiver else Some(msg.senderId))
  }

  /** For a sent message: the open group by id, or the private chat with the open chat's other member. */
  function SendLookup(active: Conversation, userId: Id): (r: Lookup)
    ensures r.GroupById? <==> active.isGroup
    ensures r.GroupById? ==> r.id == active.id
    ensures r.PrivateWith? && r.other.Some? ==> r.other.value != userId
    ensures r.PrivateWith? && r.other.Some? && active.members.Some? ==>
      exists m :: m in active.members.value && m.id == r.other.value
    ensures !active.isGroup && active.members.None? ==> r == PrivateWith(None)
    ensures !active.isGroup && active.members.Some? ==>
      r == PrivateWith(match Directory.FirstOther(active.members.value, userId)
                       case Some(m) => Some(m.id)
                       case None => None)
  {
    if active.isGroup then GroupById(active.id)
    else
      var other := Directory.GetOtherUser(Some(active), userId);
      PrivateWith(if other.Some? then Some(other.value.id) else None)
  }

  /** A private lookup never targets the viewer, whether the viewer sent or received the message. */
  lemma ReceiveLookupNeverSelf(msg: Message, userId: Id)
    requires msg.receiver.Some? ==> msg.receiver.value != userId
    ensures var r := ReceiveLookup(msg, userId);
      r.PrivateWith? && r.other.Some? ==> r.other.value != userId
  {
  }

  /**
   * `if (conv && conv._id)`: the fetched body is used only when it parsed to a conversation with a
   * non-empty id; a failed request, a non-conversation body or an empty id is dropped.
   */
  function Resolution(fetched: Fetch<Option<Conversation>>): (r: Option<Conversation>)
    ensures r.Some? <==> fetched.Fetched? && fetched.data.Some? && fetched.data.value.id != ""
    ensures r.Some? ==> r.value == fetched.data.value
  {
    if fetched.Fetched? && fetched.data.Some? && fetched.data.value.id != "" then fetched.data else None
  }

  // ----- creating a group -----

  const GlobalChatName := "global chat"
  const TooFewMembers := "Please select at least 2 members to create a group."

  /** The Create button: disabled, an alert, or a request with the trimmed name and the member ids. */
  datatype CreateDecision = Disabled | Rejected(message: string) | Submit(name: string, members: seq<Id>)

  function CreateGroup(userId: Id, name: string, selected: seq<Id>): (r: CreateDecision)
    ensures r == Disabled <==> |JsText.Trim(name)| == 0
    ensures r.Rejected? ==> r.message == TooFewMembers && selected == []
    ensures r.Submit? ==> r.name == JsText.Trim(name) && r.members == [userId] + selected
  {
    var trimmed := JsText.Trim(name);
    var members := [userId] + selected;
    if |trimmed| == 0 then Disabled
    else if |members| < 2 && JsText.Lower(trimmed) != GlobalChatName then Rejected(TooFewMembers)
    else Submit(trimmed, members)
  }

  /** The button is disabled exactly when the name is blank. */
  lemma CreateDisabledIff(userId: Id, name: string, selected: seq<Id>)
    ensures CreateGroup(userId, name, selected) == Disabled <==> !JsText.HasContent(name)
  {
    JsText.TrimNonEmpty(name);
  }

  /** With a name, creating is refused exactly when no other member is selected and the name is not "global chat" in any letter case. */
  lemma CreateRejectedIff(userId: Id, name: string, selected: seq<Id>)
    requires JsText.HasContent(name)
    ensures CreateGroup(userId, name, selected).Rejected?
      <==> selected == [] && JsText.Lower(JsText.Trim(name)) != GlobalChatName
  {
    JsText.TrimNonEmpty(name);
  }

  /**
   * A submitted request carries the trimmed, non-blank name and the creator first, then the
   * selection; it has at least two members unless it creates the global chat.
   */
  lemma CreateSubmitSpec(userId: Id, name: string, selected: seq<Id>)
    requires CreateGroup(userId, name, selected).Submit?
    ensures var d := CreateGroup(userId, name, selected);
      && d.name == JsText.Trim(name) && |d.name| > 0
      && d.members[0] == userId && d.members[1..] == selected
      && (|d.members| >= 2 || JsText.Lower(d.name) == GlobalChatName)
  {
  }

  /** Surrounding whitespace never changes the decision. */
  lemma CreateIgnoresPadding(userId: Id, name: string, selected: seq<Id>)
    ensures CreateGroup(userId, JsText.Trim(name), selected) == CreateGroup(userId, name, selected)
  {
    JsText.TrimIdempotent(name);
  }
}
