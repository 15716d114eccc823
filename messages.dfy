/**
 * The message record the chat client keeps in a conversation's working set
 * (`localMessages`) and in the store (`messages[chatId]`).
 */
module Messages {
  import opened Wrappers
  import opened Seqs

  /** The `type` field; `image_grid` is both a server message kind and the display-only group. */
  datatype MessageType = Text | Image | ImageGrid | File | Contact

  /**
   * The `mediaUrl` field: absent, one URL, or (for a server `image_grid` message)
   * an array of URLs.
   */
  datatype Media = NoMedia | Url(url: string) | UrlList(urls: seq<string>)

  /** The denormalised `replyTo` copy: id, snippet and resolved sender label. */
  datatype ReplyRef = ReplyRef(id: string, text: string, senderName: string)

  /** Emoji symbol to the ids of the users who reacted with it; `undefined` is the empty map. */
  type Reactions = map<string, seq<string>>

  /** One chat entry. `timestamp` is the creation instant in milliseconds. */
  datatype Message = Message(
    id: string,
    clientId: Option<string>,
    text: string,
    senderId: string,
    kind: MessageType,
    mediaUrl: Media,
    timestamp: int,
    replyTo: Option<ReplyRef>,
    isForwarded: bool,
    isEdited: bool,
    reactions: Reactions)

  /** Prefix of a client-generated placeholder id (`temp-<token>`). */
  const TempPrefix: string := "temp-"

  /** Prefix of the synthetic id of a display-only image group (`grid-<first id>`). */
  const GridPrefix: string := "grid-"

  /** `m.id.toString().startsWith('temp-')` */
  predicate IsTemp(m: Message)
  {
    TempPrefix <= m.id
  }

  /** JavaScript truthiness of an optional string: present and non-empty. */
  predicate Truthy(o: Option<string>)
  {
    o.Some? && o.value != ""
  }

  function IdNotIn(ids: seq<string>): Message -> bool
  {
    (m: Message) => m.id !in ids
  }

  /**
   * `s.filter(m => !ids.includes(m.id))`: drops every message whose id is listed,
   * keeping the others in order. Used with the tombstone list and with the
   * ids picked for deletion.
   */
  function WithoutIds(s: seq<Message>, ids: seq<string>): (r: seq<Message>)
    ensures forall m :: m in r <==> m in s && m.id !in ids
  {
    Filter(s, IdNotIn(ids))
  }

  /** The ids of a list of messages, in order (`images.map(img => img.id)`). */
  function Ids(s: seq<Message>): (r: seq<string>)
    ensures |r| == |s|
    ensures forall k :: 0 <= k < |s| ==> r[k] == s[k].id
  {
    seq(|s|, k requires 0 <= k < |s| => s[k].id)
  }

  /** No two entries of the working set share an id. */
  predicate UniqueIds(s: seq<Message>)
  {
    forall i, j :: 0 <= i < j < |s| ==> s[i].id != s[j].id
  }

  /** No value occurs twice in a list of ids. */
  predicate NoDuplicates(s: seq<string>)
  {
    forall i, j :: 0 <= i < j < |s| ==> s[i] != s[j]
  }
}
