/**
 * The process-wide chat store (`useChatStore`): conversation list, per-chat
 * message lists, settings, starred messages, block list, multi-select state,
 * tombstones and the socket handle. Each action is a method that assigns the
 * fields the source's `set(...)` call names and no other.
 */
module ChatStore {
  import opened Wrappers
  import opened Seqs
  import opened Messages
  import Overlays

  datatype Peer = Peer(id: string, username: string, avatar: string, isOnline: bool)

  /** The conversation list's summary of the latest message. */
  datatype LastMessage = LastMessage(id: Option<string>, text: string, timestamp: int, read: bool, senderId: string)

  datatype Chat = Chat(
    id: string,
    participants: seq<string>,
    otherUser: Peer,
    lastMessage: Option<LastMessage>,
    updatedAt: Option<int>,
    unreadCounts: map<string, int>)

  /** Per-conversation flags; a flag never set is absent (`undefined`). */
  datatype Settings = Settings(isPinned: Option<bool>, isArchived: Option<bool>, isMuted: Option<bool>)

  datatype SettingKey = IsPinned | IsArchived | IsMuted

  datatype StarredEntry = StarredEntry(id: string, chatId: string, message: Message, starredAt: int)

  /** The live event channel, with what it was opened with. */
  datatype Connection = Connection(token: string, userId: string)

  /** `toggleMessageSelection`: remove every occurrence of `id` if present, else append it. */
  function ToggleSelection(s: seq<string>, id: string): seq<string>
  {
    if id in s then Without(s, id) else s + [id]
  }

  /** `addDeletedMessageId`: append `id` unless it is already a tombstone. */
  function AddTombstone(d: seq<string>, id: string): seq<string>
  {
    if id in d then d else d + [id]
  }

  /** `state.messages[chatId] || []` */
  function MessagesOf(m: map<string, seq<Message>>, chatId: string): seq<Message>
  {
    if chatId in m then m[chatId] else []
  }

  /** `state.chatSettings[chatId]`, with an unknown chat as all flags unset. */
  function SettingsOf(cs: map<string, Settings>, chatId: string): Settings
  {
    if chatId in cs then cs[chatId] else Settings(None, None, None)
  }

  function Setting(s: Settings, key: SettingKey): Option<bool>
  {
    match key
    case IsPinned => s.isPinned
    case IsArchived => s.isArchived
    case IsMuted => s.isMuted
  }

  /** `{ ...settings, [key]: value }`: reads back `value` for `key` and the old value for every other key. */
  function WithSetting(s: Settings, key: SettingKey, value: bool): (r: Settings)
    ensures Setting(r, key) == Some(value)
    ensures forall k :: k != key ==> Setting(r, k) == Setting(s, k)
  {
    match key
    case IsPinned => s.(isPinned := Some(value))
    case IsArchived => s.(isArchived := Some(value))
    case IsMuted => s.(isMuted := Some(value))
  }

  /** `chats.map(c => c.id === chatId ? f(c) : c)` */
  function MapChat(chats: seq<Chat>, chatId: string, f: Chat -> Chat): (r: seq<Chat>)
    ensures |r| == |chats|
    ensures forall i :: 0 <= i < |chats| ==> r[i] == if chats[i].id == chatId then f(chats[i]) else chats[i]
  {
    seq(|chats|, i requires 0 <= i < |chats| => if chats[i].id == chatId then f(chats[i]) else chats[i])
  }

  /** `{ ...c, lastMessage, updatedAt: lastMessage.timestamp }` */
  function WithLastMessage(lm: LastMessage): Chat -> Chat
  {
    (c: Chat) => c.(lastMessage := Some(lm), updatedAt := Some(lm.timestamp))
  }

  /** `{ ...c, lastMessage: undefined }` */
  function WithoutLastMessage(): Chat -> Chat
  {
    (c: Chat) => c.(lastMessage := None)
  }

  /** `{ ...c, unreadCounts: { ...c.unreadCounts, [userId]: 0 } }` */
  function WithReadBy(userId: string): Chat -> Chat
  {
    (c: Chat) => c.(unreadCounts := c.unreadCounts[userId := 0])
  }

  function StarredIdNot(id: string): StarredEntry -> bool
  {
    (e: StarredEntry) => e.id != id
  }

  /** `starredMessages.filter(m => m.id !== id)` */
  function Unstar(s: seq<StarredEntry>, id: string): (r: seq<StarredEntry>)
    ensures forall e :: e in r <==> e in s && e.id != id
  {
    Filter(s, StarredIdNot(id))
  }

  function HasChat(chats: seq<Chat>, chatId: string): bool
  {
    exists c :: c in chats && c.id == chatId
  }

  /** Removing an absent id after appending it gives back the list. */
  lemma ToggleSelectionTwice(s: seq<string>, id: string)
    requires id !in s
    ensures ToggleSelection(ToggleSelection(s, id), id) == s
  {
    assert id in s + [id];
    WithoutAppended(s, id);
  }

  /** The toggle flips `id`'s membership and leaves every other id's membership alone. */
  lemma ToggleSelectionFlips(s: seq<string>, id: string)
    ensures id in ToggleSelection(s, id) <==> id !in s
    ensures forall x :: x != id ==> (x in ToggleSelection(s, id) <==> x in s)
  {
  }

  lemma {:induction false} FilterKeepsNoDuplicates(s: seq<string>, p: string -> bool)
    requires NoDuplicates(s)
    ensures NoDuplicates(Filter(s, p))
    decreases |s|
  {
    if s != [] {
      var tail := Filter(s[1..], p);
      assert NoDuplicates(s[1..]) by {
        forall i, j | 0 <= i < j < |s| - 1 ensures s[1..][i] != s[1..][j] {
          assert s[1..][i] == s[i + 1] && s[1..][j] == s[j + 1];
        }
      }
      FilterKeepsNoDuplicates(s[1..], p);
      if p(s[0]) {
        forall i, j | 0 <= i < j < |tail| + 1 ensures ([s[0]] + tail)[i] != ([s[0]] + tail)[j] {
          assert ([s[0]] + tail)[j] == tail[j - 1];
          if i == 0 {
            assert tail[j - 1] in s[1..];
            var k :| 0 <= k < |s| - 1 && s[1..][k] == tail[j - 1];
            assert s[k + 1] == tail[j - 1];
          } else {
            assert ([s[0]] + tail)[i] == tail[i - 1];
          }
        }
      }
    }
  }

  /** Selection toggling never lists an id twice. */
  lemma ToggleSelectionKeepsNoDuplicates(s: seq<string>, id: string)
    requires NoDuplicates(s)
    ensures NoDuplicates(ToggleSelection(s, id))
  {
    if id in s {
      FilterKeepsNoDuplicates(s, NotEqual(id));
    }
  }

  /**
   * Adding a tombstone is idempotent, keeps the earlier tombstones in order,
   * records `id`, and never lists an id twice.
   */
  lemma AddTombstoneProperties(d: seq<string>, id: string)
    ensures AddTombstone(AddTombstone(d, id), id) == AddTombstone(d, id)
    ensures id in d ==> AddTombstone(d, id) == d
    ensures d <= AddTombstone(d, id) && id in AddTombstone(d, id)
    ensures forall x :: x in AddTombstone(d, id) <==> x in d || x == id
    ensures NoDuplicates(d) ==> NoDuplicates(AddTombstone(d, id))
  {
  }

  /** `markAsRead` zeroes the reader's count on that chat only, keeping the other readers' counts. */
  lemma MarkReadScope(chats: seq<Chat>, chatId: string, userId: string, i: nat)
    requires i < |chats|
    ensures var c := MapChat(chats, chatId, WithReadBy(userId))[i];
      && (chats[i].id != chatId ==> c == chats[i])
      && (chats[i].id == chatId ==>
            && c.unreadCounts[userId] == 0
            && c.unreadCounts.Keys == chats[i].unreadCounts.Keys + {userId}
            && (forall v :: v != userId && v in chats[i].unreadCounts ==> c.unreadCounts[v] == chats[i].unreadCounts[v])
            && c.(unreadCounts := chats[i].unreadCounts) == chats[i])
  {
  }

  class ChatStore {
    var socket: Option<Connection>
    var chats: seq<Chat>
    var messages: map<string, seq<Message>>
    var isConnected: bool
    var chatSettings: map<string, Settings>
    var starredMessages: seq<StarredEntry>
    var isSelectionMode: bool
    var selectedMessageIds: seq<string>
    var blockedUsers: seq<string>
    var deletedMessageIds: seq<string>

    /**
     * The store's invariant: neither the selection nor the tombstones list an
     * id twice, and the store is only marked connected while it holds a socket.
     */
    ghost predicate Valid()
      reads this
    {
      && NoDuplicates(selectedMessageIds)
      && NoDuplicates(deletedMessageIds)
      && (isConnected ==> socket.Some?)
    }

    /** The initial state passed to `create`. */
    constructor ()
      ensures Valid()
      ensures socket == None && chats == [] && messages == map[] && !isConnected
      ensures chatSettings == map[] && starredMessages == [] && !isSelectionMode
      ensures selectedMessageIds == [] && blockedUsers == [] && deletedMessageIds == []
    {
      socket := None;
      chats := [];
      messages := map[];
      isConnected := false;
      chatSettings := map[];
      starredMessages := [];
      isSelectionMode := false;
      selectedMessageIds := [];
      blockedUsers := [];
      deletedMessageIds := [];
    }

    /** `toggleSelectionMode(enabled)`: sets the mode and empties the selection. */
    method ToggleSelectionMode(enabled: bool)
      requires Valid()
      modifies this`isSelectionMode, this`selectedMessageIds
      ensures Valid()
      ensures isSelectionMode == enabled && selectedMessageIds == []
    {
      isSelectionMode := enabled;
      selectedMessageIds := [];
    }

    /** `toggleMessageSelection(id)` */
    method ToggleMessageSelection(id: string)
      requires Valid()
      modifies this`selectedMessageIds
      ensures Valid()
      ensures selectedMessageIds == ToggleSelection(old(selectedMessageIds), id)
    {
      ToggleSelectionKeepsNoDuplicates(selectedMessageIds, id);
      selectedMessageIds := ToggleSelection(selectedMessageIds, id);
    }

    /** `clearSelection()`: empties the selection and leaves selection mode. */
    method ClearSelection()
      requires Valid()
      modifies this`selectedMessageIds, this`isSelectionMode
      ensures Valid()
      ensures selectedMessageIds == [] && !isSelectionMode
    {
      selectedMessageIds := [];
      isSelectionMode := false;
    }

    /**
     * `connectSocket(token, userId)`: a no-op while a socket exists; otherwise
     * opens one. The store is marked connected only by the socket's `connect`
     * event.
     */
    method ConnectSocket(token: string, userId: string)
      requires Valid()
      modifies this`socket
      ensures Valid()
      ensures old(socket).Some? ==> socket == old(socket)
      ensures old(socket).None? ==> socket == Some(Connection(token, userId))
    {
      if socket.Some? {
        return;
      }
      socket := Some(Connection(token, userId));
    }

    /** The socket's `connect` event. */
    method OnConnect()
      requires Valid() && socket.Some?
      modifies this`isConnected
      ensures Valid() && isConnected
    {
      isConnected := true;
    }

    /** The socket's `disconnect` event. */
    method OnDisconnect()
      requires Valid()
      modifies this`isConnected
      ensures Valid() && !isConnected
    {
      isConnected := false;
    }

    /** `disconnectSocket()`: drops the socket and the connected flag. */
    method DisconnectSocket()
      requires Valid()
      modifies this`socket, this`isConnected
      ensures Valid()
      ensures socket == None && !isConnected
    {
      socket := None;
      isConnected := false;
    }

    /**
     * `chat_updated`: for a known chat, sets that chat's last message and
     * `updatedAt`; for an unknown one leaves the list as it is and asks for a
     * full refetch.
     */
    method OnChatUpdated(chatId: string, lastMessage: LastMessage) returns (refetch: bool)
      requires Valid()
      modifies this`chats
      ensures Valid()
      ensures refetch <==> !HasChat(old(chats), chatId)
      ensures chats == if refetch then old(chats) else MapChat(old(chats), chatId, WithLastMessage(lastMessage))
    {
      var k := 0;
      while k < |chats| && chats[k].id != chatId
        invariant 0 <= k <= |chats|
        invariant forall j :: 0 <= j < k ==> chats[j].id != chatId
      {
        k := k + 1;
      }
      refetch := k == |chats|;
      if !refetch {
        assert chats[k] in chats;
        chats := MapChat(chats, chatId, WithLastMessage(lastMessage));
      }
    }

    /** `message_deleted`: drops the entries with that id from that chat's list. */
    method OnMessageDeleted(chatId: string, messageId: string)
      requires Valid()
      modifies this`messages
      ensures Valid()
      ensures messages == old(messages)[chatId := WithoutIds(MessagesOf(old(messages), chatId), [messageId])]
    {
      messages := messages[chatId := WithoutIds(MessagesOf(messages, chatId), [messageId])];
    }

    /** `message_edited`: new text and `isEdited` on the entries with that id in that chat's list. */
    method OnMessageEdited(chatId: string, messageId: string, newText: string)
      requires Valid()
      modifies this`messages
      ensures Valid()
      ensures messages == old(messages)[chatId := Overlays.SaveEdit(MessagesOf(old(messages), chatId), messageId, newText)]
    {
      messages := messages[chatId := Overlays.SaveEdit(MessagesOf(messages, chatId), messageId, newText)];
    }

    /** `addMessage(chatId, message)`: appends one entry to that chat's list. */
    method AddMessage(chatId: string, message: Message)
      requires Valid()
      modifies this`messages
      ensures Valid()
      ensures messages == old(messages)[chatId := MessagesOf(old(messages), chatId) + [message]]
    {
      messages := messages[chatId := MessagesOf(messages, chatId) + [message]];
    }

    /** `clearChat(chatId)`, its optimistic part: empties the list and drops that chat's last message. */
    method ClearChat(chatId: string)
      requires Valid()
      modifies this`messages, this`chats
      ensures Valid()
      ensures messages == old(messages)[chatId := []]
      ensures chats == MapChat(old(chats), chatId, WithoutLastMessage())
    {
      messages := messages[chatId := []];
      chats := MapChat(chats, chatId, WithoutLastMessage());
    }

    /** `toggleChatSetting(chatId, setting, value)`, its optimistic part. */
    method ToggleChatSetting(chatId: string, key: SettingKey, value: bool)
      requires Valid()
      modifies this`chatSettings
      ensures Valid()
      ensures chatSettings == old(chatSettings)[chatId := WithSetting(SettingsOf(old(chatSettings), chatId), key, value)]
    {
      chatSettings := chatSettings[chatId := WithSetting(SettingsOf(chatSettings, chatId), key, value)];
    }

    /**
     * `starMessage`, after the server's answer: `starred: true` prepends an
     * entry stamped `now`, `starred: false` removes every entry with that id,
     * and a failed request (`None`) changes nothing.
     */
    method StarMessage(messageId: string, chatId: string, messageData: Message, starred: Option<bool>, now: int)
      requires Valid()
      modifies this`starredMessages
      ensures Valid()
      ensures starredMessages == match starred
        case None => old(starredMessages)
        case Some(true) => [StarredEntry(messageId, chatId, messageData, now)] + old(starredMessages)
        case Some(false) => Unstar(old(starredMessages), messageId)
    {
      if starred == Some(true) {
        starredMessages := [StarredEntry(messageId, chatId, messageData, now)] + starredMessages;
      } else if starred == Some(false) {
        starredMessages := Unstar(starredMessages, messageId);
      }
    }

    /** `blockUser(userId)`, its optimistic part: appends the user. */
    method BlockUser(userId: string)
      requires Valid()
      modifies this`blockedUsers
      ensures Valid()
      ensures blockedUsers == old(blockedUsers) + [userId]
    {
      blockedUsers := blockedUsers + [userId];
    }

    /** `unblockUser(userId)`, its optimistic part: removes every occurrence of the user. */
    method UnblockUser(userId: string)
      requires Valid()
      modifies this`blockedUsers
      ensures Valid()
      ensures blockedUsers == Without(old(blockedUsers), userId)
    {
      blockedUsers := Without(blockedUsers, userId);
    }

    /** `deleteMessageFromStore(messageId)`: removes every starred entry with that id. */
    method DeleteMessageFromStore(messageId: string)
      requires Valid()
      modifies this`starredMessages
      ensures Valid()
      ensures starredMessages == Unstar(old(starredMessages), messageId)
    {
      starredMessages := Unstar(starredMessages, messageId);
    }

    /**
     * `markAsRead(chatId)`, its optimistic part: without a signed-in user
     * nothing happens; otherwise that user's unread count on that chat is zero.
     */
    method MarkAsRead(chatId: string, user: Option<string>)
      requires Valid()
      modifies this`chats
      ensures Valid()
      ensures chats == match user
        case None => old(chats)
        case Some(u) => MapChat(old(chats), chatId, WithReadBy(u))
    {
      if user.None? {
        return;
      }
      chats := MapChat(chats, chatId, WithReadBy(user.value));
    }

    /** `addDeletedMessageId(id)` */
    method AddDeletedMessageId(id: string)
      requires Valid()
      modifies this`deletedMessageIds
      ensures Valid()
      ensures deletedMessageIds == AddTombstone(old(deletedMessageIds), id)
    {
      deletedMessageIds := AddTombstone(deletedMessageIds, id);
    }
  }
}
