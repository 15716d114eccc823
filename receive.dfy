/**
 * The push fast path `handleReceive` in ChatDetailView: a single confirmed
 * message arriving on the event channel is applied to the working set
 * directly, without a refetch.
 */
module Receive {
  import opened Wrappers
  import opened Messages

  /** `Array.prototype.findIndex`, as an optional index. */
  function FirstIndex(s: seq<Message>, p: Message -> bool): (r: Option<nat>)
    ensures r.Some? ==> r.value < |s| && p(s[r.value]) && forall k :: 0 <= k < r.value ==> !p(s[k])
    ensures r.None? ==> forall k :: 0 <= k < |s| ==> !p(s[k])
  {
    if s == [] then None
    else if p(s[0]) then Some(0)
    else match FirstIndex(s[1..], p)
      case None => None
      case Some(i) => Some(i + 1)
  }

  function HasId(id: string): Message -> bool
  {
    (m: Message) => m.id == id
  }

  /** `m.id.toString().startsWith('temp-') && m.text === text` */
  function TempWithText(text: string): Message -> bool
  {
    (m: Message) => IsTemp(m) && m.text == text
  }

  /** The event names a conversation other than the open one (`msg.chatId && msg.chatId !== chatId`). */
  predicate ForOtherChat(eventChat: Option<string>, openChat: string)
  {
    Truthy(eventChat) && eventChat.value != openChat
  }

  /**
   * The working set after `receive_message`: unchanged for another
   * conversation or a known id; else the entry whose id is the message's
   * `clientId` is replaced; else, for the user's own message, the first
   * placeholder with the same text is replaced; else the message is prepended.
   */
  function Receive(prev: seq<Message>, msg: Message, eventChat: Option<string>, openChat: string, me: Option<string>): seq<Message>
  {
    if ForOtherChat(eventChat, openChat) then prev
    else if FirstIndex(prev, HasId(msg.id)).Some? then prev
    else if Truthy(msg.clientId) && FirstIndex(prev, HasId(msg.clientId.value)).Some? then
      prev[FirstIndex(prev, HasId(msg.clientId.value)).value := msg]
    else if me == Some(msg.senderId) && FirstIndex(prev, TempWithText(msg.text)).Some? then
      prev[FirstIndex(prev, TempWithText(msg.text)).value := msg]
    else [msg] + prev
  }

  /** `findIndex`: the first index whose entry satisfies `p`, or -1. */
  method FindIndex(s: seq<Message>, p: Message -> bool) returns (i: int)
    ensures i == match FirstIndex(s, p) case None => -1 case Some(k) => k
  {
    i := 0;
    while i < |s|
      invariant 0 <= i <= |s|
      invariant forall k :: 0 <= k < i ==> !p(s[k])
    {
      if p(s[i]) {
        return;
      }
      i := i + 1;
    }
    i := -1;
  }

  /** `handleReceive(msg)` applied to the previous working set. */
  method HandleReceive(prev: seq<Message>, msg: Message, eventChat: Option<string>, openChat: string, me: Option<string>)
    returns (next: seq<Message>)
    ensures next == Receive(prev, msg, eventChat, openChat, me)
  {
    if ForOtherChat(eventChat, openChat) {
      return prev;
    }
    var known := FindIndex(prev, HasId(msg.id));
    if known != -1 {
      return prev;
    }
    if Truthy(msg.clientId) {
      var tempIndex := FindIndex(prev, HasId(msg.clientId.value));
      if tempIndex != -1 {
        return prev[tempIndex := msg];
      }
    }
    if me == Some(msg.senderId) {
      var tempIndex := FindIndex(prev, TempWithText(msg.text));
      if tempIndex != -1 {
        return prev[tempIndex := msg];
      }
    }
    return [msg] + prev;
  }

  /** An event for another conversation, or for an id already present, changes nothing. */
  lemma ReceiveIgnores(prev: seq<Message>, msg: Message, eventChat: Option<string>, openChat: string, me: Option<string>)
    requires ForOtherChat(eventChat, openChat) || msg.id in Ids(prev)
    ensures Receive(prev, msg, eventChat, openChat, me) == prev
  {
    if !ForOtherChat(eventChat, openChat) {
      var k :| 0 <= k < |prev| && Ids(prev)[k] == msg.id;
      assert HasId(msg.id)(prev[k]);
    }
  }

  /**
   * A new message whose `clientId` is the id of an entry replaces the first
   * such entry in place; every other entry and the length are unchanged.
   */
  lemma ReceiveByClientId(prev: seq<Message>, msg: Message, eventChat: Option<string>, openChat: string, me: Option<string>, k: nat)
    requires !ForOtherChat(eventChat, openChat) && msg.id !in Ids(prev)
    requires Truthy(msg.clientId)
    requires k < |prev| && prev[k].id == msg.clientId.value
    requires forall j :: 0 <= j < k ==> prev[j].id != msg.clientId.value
    ensures Receive(prev, msg, eventChat, openChat, me) == prev[k := msg]
    ensures |Receive(prev, msg, eventChat, openChat, me)| == |prev|
  {
    NotPresent(prev, msg.id);
  }

  /**
   * Without a `clientId` hit, the user's own message replaces the first
   * placeholder with the same text, in place.
   */
  lemma ReceiveOwnByText(prev: seq<Message>, msg: Message, eventChat: Option<string>, openChat: string, me: Option<string>, k: nat)
    requires !ForOtherChat(eventChat, openChat) && msg.id !in Ids(prev)
    requires !Truthy(msg.clientId) || msg.clientId.value !in Ids(prev)
    requires me == Some(msg.senderId)
    requires k < |prev| && IsTemp(prev[k]) && prev[k].text == msg.text
    requires forall j :: 0 <= j < k ==> !(IsTemp(prev[j]) && prev[j].text == msg.text)
    ensures Receive(prev, msg, eventChat, openChat, me) == prev[k := msg]
  {
    NotPresent(prev, msg.id);
    if Truthy(msg.clientId) {
      NotPresent(prev, msg.clientId.value);
    }
    assert TempWithText(msg.text)(prev[k]);
  }

  /** With no match of either kind the message is prepended: exactly one entry is added. */
  lemma ReceivePrepends(prev: seq<Message>, msg: Message, eventChat: Option<string>, openChat: string, me: Option<string>)
    requires !ForOtherChat(eventChat, openChat) && msg.id !in Ids(prev)
    requires !Truthy(msg.clientId) || msg.clientId.value !in Ids(prev)
    requires me != Some(msg.senderId) || forall m :: m in prev ==> !(IsTemp(m) && m.text == msg.text)
    ensures Receive(prev, msg, eventChat, openChat, me) == [msg] + prev
  {
    NotPresent(prev, msg.id);
    if Truthy(msg.clientId) {
      NotPresent(prev, msg.clientId.value);
    }
    if me == Some(msg.senderId) {
      forall k | 0 <= k < |prev| ensures !TempWithText(msg.text)(prev[k]) {
        assert prev[k] in prev;
      }
    }
  }

  lemma NotPresent(s: seq<Message>, id: string)
    requires id !in Ids(s)
    ensures FirstIndex(s, HasId(id)).None?
  {
    forall k | 0 <= k < |s| ensures !HasId(id)(s[k]) {
      assert Ids(s)[k] == s[k].id;
    }
  }

  lemma ReplaceKeepsIdsUnique(s: seq<Message>, k: nat, m: Message)
    requires UniqueIds(s) && k < |s|
    requires forall j :: 0 <= j < |s| ==> s[j].id != m.id
    ensures UniqueIds(s[k := m])
  {
  }

  lemma PrependKeepsIdsUnique(s: seq<Message>, m: Message)
    requires UniqueIds(s)
    requires forall j :: 0 <= j < |s| ==> s[j].id != m.id
    ensures UniqueIds([m] + s)
  {
    forall i, j | 0 <= i < j < |s| + 1 ensures ([m] + s)[i].id != ([m] + s)[j].id {
      assert ([m] + s)[j] == s[j - 1];
      if i > 0 {
        assert ([m] + s)[i] == s[i - 1];
      }
    }
  }

  /** The push path never gives two entries the same id. */
  lemma ReceiveKeepsIdsUnique(prev: seq<Message>, msg: Message, eventChat: Option<string>, openChat: string, me: Option<string>)
    requires UniqueIds(prev)
    ensures UniqueIds(Receive(prev, msg, eventChat, openChat, me))
  {
    if !ForOtherChat(eventChat, openChat) && FirstIndex(prev, HasId(msg.id)).None? {
      if Truthy(msg.clientId) && FirstIndex(prev, HasId(msg.clientId.value)).Some? {
        ReplaceKeepsIdsUnique(prev, FirstIndex(prev, HasId(msg.clientId.value)).value, msg);
      } else if me == Some(msg.senderId) && FirstIndex(prev, TempWithText(msg.text)).Some? {
        ReplaceKeepsIdsUnique(prev, FirstIndex(prev, TempWithText(msg.text)).value, msg);
      } else {
        PrependKeepsIdsUnique(prev, msg);
      }
    }
  }
}
