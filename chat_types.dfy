/**
 * The records the chat page keeps in its state, as the REST API and the live channel deliver them.
 * Optional JSON fields are `Option`s; timestamps are integers.
 */
module ChatTypes {
  import Seqs

  datatype Option<+T> = None | Some(value: T)

  /** A MongoDB `_id`, or the `id` of the logged-in user. */
  type Id = string

  type Timestamp = int

  /**
   * A user record: an entry of the sidebar user list or a member of a conversation.
   * `online` stands for the sidebar's `online` flag and for a member's `isOnline` flag alike.
   */
  datatype User = User(id: Id, username: string, online: bool, lastSeen: Option<Timestamp>)

  /** The `lastMessage` snapshot of a conversation; only its `createdAt` takes part in the logic. */
  datatype MessageSnapshot = MessageSnapshot(createdAt: Option<Timestamp>)

  /** A group or private conversation as fetched from the API. */
  datatype Conversation = Conversation(
    id: Id,
    name: Option<string>,
    isGroup: bool,
    members: Option<seq<User>>,
    admins: seq<Id>,
    lastMessage: Option<MessageSnapshot>,
    updatedAt: Option<Timestamp>,
    createdAt: Option<Timestamp>)

  /**
   * A message pushed by the live channel. `chat` is the owning conversation's id, `receiver` the
   * counterpart of a private message, `group` the group reference some payloads carry.
   */
  datatype Message = Message(
    id: Id, chat: Id, senderId: Id, receiver: Option<Id>, isGroup: bool, group: Option<Id>, content: string)

  /** A request whose handler checks `res.ok`: success with a body, a non-success status, or a thrown error. */
  datatype Response<T> = Ok(body: T) | NotOk | Thrown(message: string)

  /** A request whose handler does not check `res.ok`: a parsed body, or a rejected promise. */
  datatype Fetch<T> = Fetched(data: T) | Failed(message: string)

  /** A paginated payload `{ <items>, pages }` whose fields may be missing. */
  datatype PageData<T> = PageData(items: Option<seq<T>>, pages: Option<nat>)

  /** `data.pages || 1`: a missing or zero page count reads as one page. */
  function PagesOrOne(pages: Option<nat>): (n: nat)
    ensures n >= 1
    ensures pages.Some? && pages.value > 0 ==> n == pages.value
    ensures pages.None? || pages.value == 0 ==> n == 1
  {
    if pages.Some? && pages.value != 0 then pages.value else 1
  }

  /** `data.items || []`. */
  function ItemsOrEmpty<T>(items: Option<seq<T>>): (r: seq<T>)
    ensures items.Some? ==> r == items.value
    ensures items.None? ==> r == []
  {
    if items.Some? then items.value else []
  }

  predicate HasId(chats: seq<Conversation>, id: Id) {
    exists i :: 0 <= i < |chats| && chats[i].id == id
  }

  /** How many entries of `chats` carry the id `id`. */
  function CountId(chats: seq<Conversation>, id: Id): nat {
    Seqs.Count(chats, (c: Conversation) => c.id == id)
  }
}
