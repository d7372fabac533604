# Chat client state model

This project models, in Dafny, the state logic of a React chat client. The main part is the chat page (`src/pages/Chat.jsx`), which holds these values:

- the conversation list (the "directory"), with private chats, groups and the global chat;
- the open conversation and its page of messages;
- the sidebar user and group pages;
- the live lists of who is typing, message reactions and read receipts;
- the group-creation form.

The model also covers three small components:

- the read-receipt tick (`ReadReceipt.jsx`);
- the message pager (`Pagination.jsx`);
- the group management panel (`GroupAdminPanel.jsx`).

Structure:

- Pure updaters become functions over sequences and maps. Examples: the `setX(prev => …)` callbacks, the activity sort and the derived group views.
- The page's mutable state becomes the class `ChatPage.ChatSession`. Each handler, each effect resolution and each live-channel listener is a method on it.
- Every request a handler awaits is a parameter carrying the result it delivered.
  - `Response` is used where the code checks `res.ok`: success with a body, a non-success status, or a thrown error.
  - `Fetch` is used where it does not: a parsed body of the expected shape, or a rejection. A parsed error body is not modelled (see "## Left out").

| module | file | contents |
|---|---|---|
| `Seqs` | seqs.dfy | `filter` and its laws, including that it keeps the order of what it keeps |
| `JsText` | js_text.dfy | `String.prototype.trim` and an ASCII `toLowerCase` |
| `ChatTypes` | chat_types.dfy | users, conversations, messages, request results, `data.pages \|\| 1` |
| `ChatOrder` | chat_order.dfy | `sortChats`: the stable sort by descending activity, and its uniqueness |
| `Directory` | directory.dfy | upsert, merge, prepend, delete, `myGroups`/`otherGroups`, `getOtherUser` |
| `Presence` | presence.dfy | the `userOnline`/`userOffline` rewrites |
| `LiveState` | live_state.dfy | the typing list and the append-only reaction/read ledgers |
| `ReadReceipt` | read_receipt.dfy | the tick classifier, plus a corrected variant |
| `Pagination` | pagination.dfy | the message pager, plus a corrected variant |
| `SidebarPaging` | sidebar_paging.dfy | the sidebar Prev/Next clamps |
| `GroupAdmin` | admin_panel.dfy | which management controls are offered to whom |
| `GroupActions` | group_actions.dfy | handler decisions: mutations, delete, emissions, lookups, create-group rule |
| `ChatPage` | chat_session.dfy | the page state as a class, and three scenarios |

In several places the design intent and the code disagree. The model follows the code:

- The conversation list has no uniqueness guarantee. Only the navigation upsert looks for the id. The prepends after a live message (`src/pages/Chat.jsx:239`), after a send (`:289`) and after a group is created (`:843`) are unconditional (`Directory.PrependDuplicates`, `ChatPage.DuplicateAfterCreate`). Uniqueness is proved only where the code earns it (`Directory.UpsertChatKeepsIdsUnique`, `Directory.MergeDirectoryUniqueIds`).
- In-flight responses are not tagged with the navigation they belong to. A late response wins (`ChatPage.LateResponseWins`).
- The typing list, reactions and read receipts are not cleared when another conversation opens.
- Presence events do not touch the open conversation.
- Membership mutations do not update the conversation list.
- `otherGroups` does not look at `isGroup`.

## Model

| member | source | states |
|---|---|---|
| `ChatTypes.PagesOrOne` | src/pages/Chat.jsx:181 | a missing or zero page count reads as exactly 1, and a present non-zero count is kept |
| `ChatTypes.ItemsOrEmpty` | src/pages/Chat.jsx:180 | a missing list reads as the empty list, and a present one is taken unchanged |
| `Seqs.FilterIsSubsequence` | src/pages/Chat.jsx:480 | a filter only deletes: what it keeps stays in the input's order |
| `JsText.TrimNonEmpty` | src/pages/Chat.jsx:296 | the trimmed input is non-empty iff the input has a character outside the JavaScript whitespace and line-terminator set |
| `JsText.Trim` | src/pages/Chat.jsx:296 | the result is the slice of the input that starts after its leading whitespace, everything after it is whitespace, and when non-empty it starts and ends with a character that is not whitespace |
| `JsText.TrimIdempotent` | src/pages/Chat.jsx:825 | trimming twice is trimming once |
| `JsText.Lower` | src/pages/Chat.jsx:442 | same length; each ASCII capital becomes its small letter and every other character is kept |
| `ChatOrder.SortChats` | src/pages/Chat.jsx:40-45 | the result is ordered by non-increasing activity key (`ChatOrder.ActivityKeySpec`) and is a permutation of the input |
| `ChatOrder.ActivityKeySpec` | src/pages/Chat.jsx:42-43 | the activity key is the last message's time when present and non-zero, else the update time when so, else the creation time when so, else 0; `\|\|` passes over a 0 |
| `ChatOrder.SortChatsStable` | src/pages/Chat.jsx:40-45 | entries with equal activity keep their input order |
| `ChatOrder.SortChatsIsTheStableSort` | src/pages/Chat.jsx:40-45 | any stable descending ordering of the input equals `SortChats`, so the engine's sort algorithm does not matter |
| `ChatOrder.SortChatsSorted` | src/pages/Chat.jsx:158-164 | an already ordered list is returned unchanged |
| `Directory.UpsertedReplaceSpec` | src/pages/Chat.jsx:55-56 | when the id is present, every entry with it becomes the fetched conversation, their number is kept and every other conversation keeps its multiplicity |
| `Directory.ReplaceById` | src/pages/Chat.jsx:56 | same length; each entry with the id becomes the fetched conversation and every other entry stays in place |
| `Directory.Upserted` | src/pages/Chat.jsx:55-56 | the list keeps its length when the id is listed and grows by one when not |
| `Directory.UpsertChat` | src/pages/Chat.jsx:54-57 | the upserted and sorted list keeps its length when the id is listed and grows by one when not |
| `Directory.UpsertedPrependSpec` | src/pages/Chat.jsx:55-56 | when the id is absent, the fetched conversation is added once and every other conversation keeps its multiplicity |
| `Directory.UpsertChatSpec` | src/pages/Chat.jsx:54-57 | after the upsert the list is sorted and contains the fetched conversation; its length is unchanged if the id was present and one more if not; every other conversation keeps its multiplicity |
| `Directory.UpsertChatKeepsIdsUnique` | src/pages/Chat.jsx:68-71 | an upsert into a list with unique ids leaves the ids unique |
| `Directory.UpsertChatIdempotent` | src/pages/Chat.jsx:54-57 | upserting the same conversation twice is upserting it once |
| `Directory.PrependChat` | src/pages/Chat.jsx:239 | the conversation comes first and the old list follows unchanged; its id occurs once more than before |
| `Directory.PrependDuplicates` | src/pages/Chat.jsx:289 | prepending a conversation whose id is already listed leaves two entries with that id |
| `Directory.WithoutId` | src/pages/Chat.jsx:480 | no entry has the id, and the kept entries are exactly those of the input with another id |
| `Directory.WithoutIdKeepsOrder` | src/pages/Chat.jsx:480 | the kept conversations stay in list order, so a list sorted by activity stays sorted |
| `Directory.MergeDirectorySpec` | src/pages/Chat.jsx:478-493 | the merged list is sorted and is a permutation of global + groups without the global id + privates; the global id occurs once plus its occurrences among the private chats |
| `Directory.MergeDirectory` | src/pages/Chat.jsx:478-493 | the merged list is ordered by descending activity and is a permutation of global + groups without the global id + privates |
| `Directory.MergeDirectoryGlobalOnce` | src/pages/Chat.jsx:480-484 | when the private chats do not carry the global id, the global chat occurs exactly once |
| `Directory.MergeDirectoryUniqueIds` | src/pages/Chat.jsx:478-484 | unique ids in each source, with no id shared between groups and private chats and the global id not among the private chats, give unique ids in the merged list |
| `Directory.DeleteSpec` | src/pages/Chat.jsx:435 | after the delete no entry has the deleted id, every other conversation keeps its multiplicity, the rest keeps its order, and a sorted list stays sorted |
| `Directory.GlobalGroup` | src/pages/Chat.jsx:442 | none iff no conversation is named "global" in any ASCII letter case; otherwise the first such conversation |
| `Directory.MyGroupsSpec` | src/pages/Chat.jsx:443-447 | when a global conversation exists it comes first and its id occurs once; every entry is from the list and (after the first) has the user as a member; every member conversation is included, except other entries sharing the global conversation's id |
| `Directory.MyGroups` | src/pages/Chat.jsx:442-447 | a global conversation, when one exists, comes first; without one, exactly the listed conversations that have the user as a member; every entry is from the list |
| `Directory.OtherGroups` | src/pages/Chat.jsx:449-454 | every entry is from the list, does not have the user as a member, is not named "global" or "global chat", and does not have the global conversation's id |
| `Directory.GroupViewsDisjoint` | src/pages/Chat.jsx:443-454 | no conversation is in both `myGroups` and `otherGroups` |
| `Directory.OtherGroupsComplete` | src/pages/Chat.jsx:449-454 | every listed non-member conversation that is neither global by name nor by id is in `otherGroups` |
| `Directory.ViewsKeepOrder` | src/pages/Chat.jsx:443-454 | `otherGroups` keeps the list's order, and so does `myGroups` after the global conversation it puts in front |
| `Directory.FirstOther` | src/pages/Chat.jsx:11 | none iff every member is the user; otherwise the first member that is not the user |
| `Directory.GetOtherUser` | src/pages/Chat.jsx:9-12 | none without a conversation or a member list; with a member list, the first member other than the user (`FirstOther`), which is none only when every member is the user |
| `Presence.RewriteUsers` | src/pages/Chat.jsx:191 | only records with the user's id change: online for `userOnline`; offline and the event's `lastSeen` for `userOffline`; id and name kept |
| `Presence.ApplyPresence` | src/pages/Chat.jsx:191-208 | one record's update: id and name kept; online iff the event is `userOnline`; `lastSeen` set from a `userOffline` event and kept by `userOnline` |
| `Presence.RewriteChats` | src/pages/Chat.jsx:192-200 | group chats and chats without a member list are unchanged; in the others only the member list is rewritten, by `RewriteUsers` |
| `Presence.RewriteUsersIdempotent` | src/pages/Chat.jsx:190-201 | a repeated presence event changes nothing more |
| `Presence.RewriteUsersLatestWins` | src/pages/Chat.jsx:202-213 | any event followed by `userOffline` equals that `userOffline` alone |
| `Presence.RewriteChatsIdempotent` | src/pages/Chat.jsx:202-213 | a repeated presence event changes no conversation further |
| `LiveState.StartTyping` | src/pages/Chat.jsx:243 | the user is listed afterwards, the old list is a prefix, and every other id keeps its count |
| `LiveState.StopTyping` | src/pages/Chat.jsx:246 | the user is not listed afterwards, every other id keeps its count, and the rest keeps its order |
| `LiveState.StartTypingTwice` | src/pages/Chat.jsx:243 | repeated starts keep one copy |
| `LiveState.StartThenStop` | src/pages/Chat.jsx:242-247 | start followed by stop equals stop alone |
| `LiveState.TypingKeepsNoDuplicates` | src/pages/Chat.jsx:242-247 | both events keep the typing list free of repeats |
| `LiveState.Append` | src/pages/Chat.jsx:249 | one entry more at the end of that message's list; every other message's list is unchanged |
| `LiveState.AppendAllLog` | src/pages/Chat.jsx:248-253 | after any sequence of events a message's list is its old list followed by every value carried for it, in order, repeats included |
| `ReadReceipt.Others` | src/components/ReadReceipt.jsx:7 | the entries other than the viewer's, each with its original count |
| `ReadReceipt.Receipt` | src/components/ReadReceipt.jsx:6-16 | a tick only with a member count of at least 2; double ticks iff the viewer is not the only one with entries; blue only when the others' entries number the members minus one |
| `ReadReceipt.NoTickIff` | src/components/ReadReceipt.jsx:6 | no tick iff the member count is missing or at most 1 |
| `ReadReceipt.BlueIff` | src/components/ReadReceipt.jsx:10-12 | blue iff the count of entries by others equals the member count minus one (with more than one member) |
| `ReadReceipt.GrayIff` | src/components/ReadReceipt.jsx:13-15 | gray double iff others have entries and their count is not the member count minus one |
| `ReadReceipt.SingleIff` | src/components/ReadReceipt.jsx:8-9 | single tick iff there are more than one member and every entry is the viewer's |
| `ReadReceipt.OwnEntriesIgnored` | src/components/ReadReceipt.jsx:7 | adding the viewer's own entry changes nothing |
| `ReadReceipt.OnlyCountMatters` | src/components/ReadReceipt.jsx:7-16 | two ledgers with as many entries by others give the same tick |
| `ReadReceipt.OrderIgnored` | src/components/ReadReceipt.jsx:7-16 | reordering the entries changes nothing |
| `ReadReceipt.RepeatedReaderTurnsBlue` | src/components/ReadReceipt.jsx:10 | one other reader read twice in a group of three: blue, although a member has not read |
| `ReadReceipt.RepeatedReaderStaysGray` | src/components/ReadReceipt.jsx:10-15 | everyone read, one of them twice: gray |
| `ReadReceipt.ReaderRepeatIgnored` | src/components/ReadReceipt.jsx:7-16 | under the corrected rule a repeated read entry changes nothing |
| `ReadReceipt.ReadersAgreeWithoutRepeats` | src/components/ReadReceipt.jsx:7-16 | without repeated entries the corrected rule and the written one agree |
| `ReadReceipt.ReceiptByReaders` | src/components/ReadReceipt.jsx:6-16 | the corrected rule: no tick iff the member count is missing or at most 1; otherwise blue iff the distinct readers other than the viewer number the members minus one, a single tick iff there are none, and gray otherwise |
| `ReadReceipt.ReadingNeverRegresses` | src/components/ReadReceipt.jsx:7-16 | under the corrected rule one more read never moves the tick backwards while the readers are members |
| `Pagination.Render` | src/components/Pagination.jsx:4-18 | hidden iff there is at most one page; otherwise it shows `page` and `pages` as given; Prev is disabled iff page is 1 and Next iff page equals pages |
| `Pagination.Click` | src/components/Pagination.jsx:9-17 | an enabled Prev requests page - 1 and an enabled Next requests page + 1; a disabled button or a hidden pager requests nothing |
| `Pagination.ClickStaysInRange` | src/components/Pagination.jsx:9-18 | from a page within 1..pages an enabled button requests a page within 1..pages |
| `Pagination.NextThenPrev` | src/components/Pagination.jsx:9-17 | Next then Prev returns to the page |
| `Pagination.PrevThenNext` | src/components/Pagination.jsx:9-17 | Prev then Next returns to the page |
| `Pagination.NextPastLastPage` | src/components/Pagination.jsx:18 | on page 5 of 2, Next is enabled and requests page 6 |
| `Pagination.RenderClamped` | src/components/Pagination.jsx:10-18 | the corrected pager: Prev disabled at or below 1, Next at or beyond the last page |
| `Pagination.ClampedNeverLeavesRange` | src/components/Pagination.jsx:9-18 | the corrected Next never requests past the last page, and the corrected Prev never requests a page below 1 |
| `Pagination.ClampedAgreesInRange` | src/components/Pagination.jsx:4-18 | within range the corrected pager is the written one |
| `SidebarPaging.StepBack` | src/pages/Chat.jsx:559 | the result is at least 1, and is page - 1 above page 1 |
| `SidebarPaging.Click` | src/pages/Chat.jsx:556-566 | Prev acts iff the page is above 1 and Next iff it is below the last; an enabled click moves exactly one page, so the `Math.max`/`Math.min` clamps never change the result |
| `SidebarPaging.StepForward` | src/pages/Chat.jsx:565 | the result is at most the page count, and is page + 1 below it |
| `SidebarPaging.ClickBounds` | src/pages/Chat.jsx:556-566 | from page 1 up a click never goes below 1; Next never passes the last page; from within range a click stays in range |
| `SidebarPaging.PrevApproachesRange` | src/pages/Chat.jsx:593-604 | past the last page Next is disabled and Prev moves one page back |
| `SidebarPaging.NextThenPrev` | src/pages/Chat.jsx:719-730 | Next then Prev returns to the page |
| `SidebarPaging.AgreesWithClampedPager` | src/pages/Chat.jsx:758-769 | when there is more than one page the sidebar controls behave as the corrected message pager |
| `GroupAdmin.Rows` | src/components/GroupAdminPanel.jsx:23-35 | one row per member, in member order |
| `GroupAdmin.IsAdmin` | src/components/GroupAdminPanel.jsx:5 | the viewer is an admin iff their id occurs in the group's admin list |
| `GroupAdmin.Row` | src/components/GroupAdminPanel.jsx:24-34 | the member's id and name; the badge iff the member is an admin; Remove iff the viewer is an admin and the row is not the viewer's; then Demote for admins and Promote for the others, and neither without Remove |
| `GroupAdmin.RenderPanel` | src/components/GroupAdminPanel.jsx:5-40 | add-member and delete are offered iff the viewer is in `admins`; the badge is shown iff the member is in `admins`; Remove is offered iff the viewer is an admin and the member is not the viewer |
| `GroupAdmin.ExactlyOneRoleAction` | src/components/GroupAdminPanel.jsx:27-34 | a row with Remove has exactly one of Promote or Demote (Demote iff the member is an admin); a row without Remove has neither |
| `GroupAdmin.NonAdminSeesNoControls` | src/components/GroupAdminPanel.jsx:10-40 | a viewer outside `admins` is offered no control |
| `GroupAdmin.NoActionOnSelf` | src/components/GroupAdminPanel.jsx:27 | the viewer's own row offers no action |
| `GroupAdmin.PromoteDemoteFlip` | src/components/GroupAdminPanel.jsx:26-34 | once the member is added to `admins` the row offers Demote; once removed from it, Promote |
| `GroupActions.Mutate` | src/pages/Chat.jsx:306-327 | nothing without an open conversation; a failed mutation alerts with its own message (or the thrown error); a failed refetch alerts with the refetch message (or the thrown error); two successes replace the open conversation with the refetched group |
| `GroupActions.FailureText` | src/pages/Chat.jsx:433-437 | the fixed alert for a non-success status, and the error's own message when the request threw |
| `GroupActions.MutateReplacesIff` | src/pages/Chat.jsx:306-421 | the open conversation is replaced iff one is open and both the mutation and the refetch succeed, and then by the refetched group |
| `GroupActions.FailedMutationIgnoresRefetch` | src/pages/Chat.jsx:317-319 | after a failed mutation the refetch result is irrelevant |
| `GroupActions.FailureMessagesDistinguishSteps` | src/pages/Chat.jsx:341-365 | no mutation's message is the refetch message; two mutations share a message iff they are remove and kick |
| `GroupActions.Delete` | src/pages/Chat.jsx:423-439 | deleted iff a conversation is open, the user confirmed and the request succeeded, and then it is the open conversation's id; an alert iff confirmed and the request failed, with "Failed to delete group" for a non-success status and the error's message when the request threw |
| `GroupActions.SendEmission` | src/pages/Chat.jsx:269-272 | an emission iff a socket and an open conversation exist; it carries the room id and the content unchanged |
| `GroupActions.TypingEmission` | src/pages/Chat.jsx:294-301 | an emission iff a socket and an open conversation exist; it is a typing signal to the open room |
| `GroupActions.TypingStartIff` | src/pages/Chat.jsx:296-299 | a typing start iff the input has a non-whitespace character; otherwise a stop |
| `GroupActions.TypingIgnoresPadding` | src/pages/Chat.jsx:296 | surrounding whitespace does not change the emission |
| `GroupActions.ReceiveLookup` | src/pages/Chat.jsx:228-236 | group messages (flagged, or carrying a non-empty group reference) fetch their group by the message's chat id; private ones fetch the chat with the sender, or with the receiver when the viewer sent it |
| `GroupActions.ReceiveLookupNeverSelf` | src/pages/Chat.jsx:234 | a private lookup never targets the viewer when the receiver is not the viewer |
| `GroupActions.SendLookup` | src/pages/Chat.jsx:277-286 | a group fetches itself; a private chat fetches the chat with its first member other than the viewer (`FirstOther`), and with no id when there is no member list or no such member |
| `GroupActions.Resolution` | src/pages/Chat.jsx:238-239 | a looked-up conversation is used iff it arrived, parsed as a conversation and has a non-empty id |
| `GroupActions.CreateDisabledIff` | src/pages/Chat.jsx:825 | Create is disabled iff the name is blank |
| `GroupActions.CreateGroup` | src/pages/Chat.jsx:825-831 | disabled iff the trimmed name is empty; a rejection carries the too-few-members alert and happens only with nobody selected; a submission carries the trimmed name and the creator followed by the selection |
| `GroupActions.CreateRejectedIff` | src/pages/Chat.jsx:827-831 | with a name, creation is refused iff no member is selected and the trimmed name is not "global chat" in any ASCII letter case |
| `GroupActions.CreateSubmitSpec` | src/pages/Chat.jsx:827-839 | a request carries the trimmed non-blank name and the creator followed by the selection; it has at least two members unless it is the global chat |
| `GroupActions.CreateIgnoresPadding` | src/pages/Chat.jsx:825-839 | surrounding whitespace in the name does not change the decision |
| `ChatPage.ChatSession.constructor` | src/pages/Chat.jsx:20-139 | every slot starts at its initial value |
| `ChatPage.ChatSession.Navigate` | src/pages/Chat.jsx:37-39 | a route change clears the messages and marks them loading; without a route nothing is open |
| `ChatPage.ChatSession.NavigationResolved` | src/pages/Chat.jsx:51-60 | the fetched conversation is opened and upserted, and the list stays sorted; a failure closes the conversation |
| `ChatPage.ChatSession.SelectConversation` | src/pages/Chat.jsx:922-928 | a picked conversation becomes the open one |
| `ChatPage.ChatSession.CloseConversation` | src/pages/Chat.jsx:458-460 | nothing is open afterwards |
| `ChatPage.ChatSession.DirectoryLoaded` | src/pages/Chat.jsx:478-494 | the list is the merge of global, groups and private chats, and the page count is the payload's or 1 |
| `ChatPage.ChatSession.GroupDirectoryLoaded` | src/pages/Chat.jsx:154-166 | the list is the merge of global and groups only |
| `ChatPage.ChatSession.RequestMessages` | src/pages/Chat.jsx:172-177 | with a conversation open, loading is marked and that conversation's current page is requested; otherwise nothing happens |
| `ChatPage.ChatSession.MessagesLoaded` | src/pages/Chat.jsx:179-183 | the page replaces the messages; the page count is updated and loading ends |
| `ChatPage.ChatSession.MessagePagerClick` | src/pages/Chat.jsx:981 | the page counter moves as the rendered pager requests (Prev off only on page 1, Next off only on the last page exactly) and stays at or above 1; from below the last page Next does not pass it; from beyond it, a page kept from a longer conversation, Next moves one page further |
| `ChatPage.ChatSession.SidebarUsersLoaded` | src/pages/Chat.jsx:95-109 | success sets the users and the page count; failure empties the list, resets the count to 1 and alerts with the error |
| `ChatPage.ChatSession.SidebarGroupsLoaded` | src/pages/Chat.jsx:116-134 | success sets the groups and the page count; failure changes nothing |
| `ChatPage.ChatSession.SidebarUserPagerClick` | src/pages/Chat.jsx:556-566 | the user page moves by the sidebar clamps and stays at or above 1 |
| `ChatPage.ChatSession.SidebarGroupPagerClick` | src/pages/Chat.jsx:593-604 | the group page moves by the sidebar clamps and stays at or above 1 |
| `ChatPage.ChatSession.PresenceChanged` | src/pages/Chat.jsx:190-213 | the sidebar users and the list are rewritten by the presence functions, with their lengths kept |
| `ChatPage.ChatSession.MessageReceived` | src/pages/Chat.jsx:221-240 | with a conversation open the message is appended (one more message); an unlisted conversation is looked up and prepended if resolved |
| `ChatPage.ChatSession.TypingStarted` | src/pages/Chat.jsx:242-244 | the typing list gains the user once, and stays free of repeats |
| `ChatPage.ChatSession.TypingStopped` | src/pages/Chat.jsx:245-247 | the user leaves the typing list |
| `ChatPage.ChatSession.Reacted` | src/pages/Chat.jsx:248-250 | the reaction is appended to that message's list |
| `ChatPage.ChatSession.MessageRead` | src/pages/Chat.jsx:251-253 | the reader is appended to that message's list |
| `ChatPage.ChatSession.Send` | src/pages/Chat.jsx:269-291 | emits as `SendEmission` says and never changes the messages; an unlisted open conversation is looked up and prepended if resolved |
| `ChatPage.ChatSession.InputChanged` | src/pages/Chat.jsx:294-301 | with a socket and an open conversation, a typing start iff the input has content, else a stop; no state changes |
| `ChatPage.ChatSession.Mutate` | src/pages/Chat.jsx:306-421 | the open conversation becomes the refetched group on success; otherwise an alert or nothing |
| `ChatPage.ChatSession.DeleteGroup` | src/pages/Chat.jsx:423-439 | after a confirmed successful delete nothing is open and no entry with the id remains; otherwise the state is kept; the list keeps its order, so a sorted list stays sorted |
| `ChatPage.ChatSession.EditGroupName` | src/pages/Chat.jsx:797 | the form holds the typed name |
| `ChatPage.ChatSession.ToggleMember` | src/pages/Chat.jsx:808-813 | ticking appends the id; unticking removes every copy and keeps the other ids in order |
| `ChatPage.ChatSession.CreateGroup` | src/pages/Chat.jsx:823-851 | a successful submitted request prepends the group and resets the form; a refusal or failure alerts and keeps everything |
| `ChatPage.ChatSession.Views` | src/pages/Chat.jsx:441-454 | the two group views of the current list, with no conversation in both |
| `ChatPage.SendThenEcho` | src/pages/Chat.jsx:222 | a send followed by the server's echo leaves exactly one copy of the message |
| `ChatPage.DuplicateAfterCreate` | src/pages/Chat.jsx:843 | a created group already listed through a group directory load ends up listed twice |
| `ChatPage.LateResponseWins` | src/pages/Chat.jsx:52-58 | a late response for an earlier route reopens that conversation |

## Left out

- Requests, JSON parsing, URLs, headers and the stored token are not modelled. Each awaited request is a parameter holding its result.
- The socket's connect, login and disconnect lifecycle is not modelled. Neither are `joinRoom`/`leaveRoom`, or the re-registration of listeners when the effect's dependencies change (src/pages/Chat.jsx:215-266). The room listeners act only while a conversation is open; the presence listeners act always.
- The ordering of concurrent effect resolutions is left to the caller. Examples: the two directory loads, and overlapping navigations. Each resolution is a separate method.
- ChatPage.ChatSession.NavigationResolved: a non-success response is not modelled. The code does not check the status: it parses the error body, opens it and lists it, and since that body has no id it is prepended (src/pages/Chat.jsx:51-58). The model takes a conversation or a rejection only.
- ChatTypes.User: one `online` field stands for both the sidebar users' `online` flag and a conversation member's `isOnline` flag (src/pages/Chat.jsx:190-213). The two flags are not told apart.
- ChatPage.ChatSession.MessageReceived: looks up the conversation in the current list. The code checks the list captured when the listener was registered.
- ChatPage.ChatSession.Send: same as `MessageReceived`: it uses the current list where the code uses the captured one.
- ChatPage.ChatSession.DeleteGroup: the code filters the captured list, not the latest one. The model filters the current list.
- JsText.Lower: lowercases ASCII letters only. `toLowerCase` also maps other Unicode capitals, but the names compared here ("global", "global chat") are ASCII.
- ChatOrder.SortChats: timestamps are integers. Date strings, unparseable dates and the NaN comparator are not modelled.
- The render-time `lastMessage` backfill (src/pages/Chat.jsx:875-886) is not modelled. It is a fetch issued while rendering.
- Date and locale formatting (`formatLastSeen`, `toLocaleString`) is not modelled.
- The UI-only flags `showSidebar`, `showCreateGroup` and `showAdmin` are not modelled. Neither are the panel's `newMember` input or markup and styling.
- The sidebar's hiding of the current user (src/pages/Chat.jsx:526-529) is rendering and is not modelled.
- The conversation-list page counter is always 1, because it is never changed in the code. It is not a field.
- `alert` is returned as a message. `window.confirm` is a boolean parameter.
- The kick-member mutation is modelled among the mutations, but no control in the panel calls it.
- The read receipt's member count is taken as given. `ChatWindow.jsx` computes it, and is not part of this model.
- Other files are not part of this model: the authentication and socket contexts, the login page, routing, and the presentation components.

## Findings

| source | as written | input that shows it | evidently intended | confidence | as-written member | corrected member |
|---|---|---|---|---|---|---|
| src/components/Pagination.jsx:18 | Next is disabled only when `page === pages`. The message page counter is not reset when another conversation opens (src/pages/Chat.jsx:80, 981). | page 5 kept from a five-page conversation, in a conversation of 2 pages: Next is enabled and requests page 6 | disable Next at `page >= pages` and Prev at `page <= 1`, as the sidebar controls do (src/pages/Chat.jsx:558, 564) | medium, not executed | `Pagination.NextPastLastPage` | `Pagination.ClampedNeverLeavesRange` |
| src/components/ReadReceipt.jsx:7-10 | counts read entries, while the read ledger appends every read event, repeats included (src/pages/Chat.jsx:252) | entries ["a", "a"], 3 members, viewer "me": blue although the third member has not read | count distinct readers | medium, not executed | `ReadReceipt.RepeatedReaderTurnsBlue` | `ReadReceipt.ReaderRepeatIgnored` |

The page itself keeps the pager as written: `ChatPage.ChatSession.MessagePagerClick` moves the counter as `Pagination.Render` allows, so a counter kept from a longer conversation still moves past the last page. The corrected pager is the rule the sidebar controls already follow (`SidebarPaging.AgreesWithClampedPager`).
