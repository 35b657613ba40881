/** The chat list in the sidebar: each entry's last message and typing flag, kept up
    to date by socket events. */
module ChatListView {

  import opened Wrappers
  import opened Schema
  import opened Wire

  /** One sidebar entry; `isTyping` is absent until a typing event sets it. */
  datatype ChatItem = ChatItem(id: Id, contactId: Id, contactName: Option<string>,
                               lastMessage: Option<MessageObject>, isTyping: Option<bool>)

  /** The receive-message payload as the sidebar's handler reads it: a `chatId` and a
      `messageData` property. */
  datatype Payload = Payload(chatId: Id, messageData: Option<MessageObject>)

  /** How the relay's message object reads under that shape: its `chatId` is there, but
      it is the message itself and has no `messageData` property. */
  function AsPayload(m: MessageObject): (p: Payload)
    ensures p.chatId == m.chatId && p.messageData == None
  {
    Payload(m.chatId, None)
  }

  /** A typing event applies to `c` when it is about `c`'s chat and the typist is not the current user. */
  predicate TypingApplies(c: ChatItem, chatId: Id, userId: Id, me: Option<Id>) {
    c.id == chatId && me != Some(userId)
  }

  /** receive-message: the matching entries take the payload's `messageData` as last
      message and stop showing typing; the others stay as they are. */
  function OnReceiveMessage(list: seq<ChatItem>, p: Payload): (r: seq<ChatItem>)
    ensures |r| == |list|
    ensures forall i :: 0 <= i < |r| ==>
      r[i].id == list[i].id && r[i].contactId == list[i].contactId && r[i].contactName == list[i].contactName
    ensures forall i :: 0 <= i < |r| && list[i].id != p.chatId ==> r[i] == list[i]
    ensures forall i :: 0 <= i < |r| && list[i].id == p.chatId ==>
      r[i].lastMessage == p.messageData && r[i].isTyping == Some(false)
  {
    seq(|list|, i requires 0 <= i < |list| =>
      if list[i].id == p.chatId then list[i].(lastMessage := p.messageData, isTyping := Some(false)) else list[i])
  }

  /** user-typing: the matching entry shows typing, unless the typist is the current user. */
  function OnUserTyping(list: seq<ChatItem>, chatId: Id, userId: Id, me: Option<Id>): (r: seq<ChatItem>)
    ensures |r| == |list|
    ensures forall i :: 0 <= i < |r| ==> r[i] == if TypingApplies(list[i], chatId, userId, me) then list[i].(isTyping := Some(true)) else list[i]
  {
    seq(|list|, i requires 0 <= i < |list| =>
      if list[i].id == chatId && me != Some(userId) then list[i].(isTyping := Some(true)) else list[i])
  }

  /** user-stopped-typing: the matching entry stops showing typing, under the same condition. */
  function OnUserStoppedTyping(list: seq<ChatItem>, chatId: Id, userId: Id, me: Option<Id>): (r: seq<ChatItem>)
    ensures |r| == |list|
    ensures forall i :: 0 <= i < |r| ==> r[i] == if TypingApplies(list[i], chatId, userId, me) then list[i].(isTyping := Some(false)) else list[i]
  {
    seq(|list|, i requires 0 <= i < |list| =>
      if list[i].id == chatId && me != Some(userId) then list[i].(isTyping := Some(false)) else list[i])
  }

  /** The current user's own typing events leave the list exactly as it was. */
  lemma OwnTypingLeavesListAlone(list: seq<ChatItem>, chatId: Id, me: Id)
    ensures OnUserTyping(list, chatId, me, Some(me)) == list
    ensures OnUserStoppedTyping(list, chatId, me, Some(me)) == list
  {
    assert forall i :: 0 <= i < |list| ==> !TypingApplies(list[i], chatId, me, Some(me));
  }

  /** A start and then a stop from the same other user: the chat shows no typing, and
      every other entry is untouched. */
  lemma StartThenStop(list: seq<ChatItem>, chatId: Id, userId: Id, me: Option<Id>)
    requires me != Some(userId)
    ensures var r := OnUserStoppedTyping(OnUserTyping(list, chatId, userId, me), chatId, userId, me);
      && |r| == |list|
      && (forall i :: 0 <= i < |r| && list[i].id == chatId ==> r[i] == list[i].(isTyping := Some(false)))
      && (forall i :: 0 <= i < |r| && list[i].id != chatId ==> r[i] == list[i])
  {
    var t := OnUserTyping(list, chatId, userId, me);
    assert forall i :: 0 <= i < |t| ==> t[i].id == list[i].id;
  }

  /** As written, the sidebar never shows the message the relay sends: the matching
      entry's last message becomes empty. */
  lemma LastMessageLost(list: seq<ChatItem>, m: MessageObject, i: nat)
    requires i < |list| && list[i].id == m.chatId
    ensures OnReceiveMessage(list, AsPayload(m))[i].lastMessage == None
  {
  }

  /** The reducer the sidebar evidently intends: the payload itself is the last message. */
  function OnReceiveMessageCorrected(list: seq<ChatItem>, m: MessageObject): (r: seq<ChatItem>)
    ensures |r| == |list|
    ensures forall i :: 0 <= i < |r| && list[i].id != m.chatId ==> r[i] == list[i]
    ensures forall i :: 0 <= i < |r| && list[i].id == m.chatId ==>
      r[i] == list[i].(lastMessage := Some(m), isTyping := Some(false))
  {
    OnReceiveMessage(list, Payload(m.chatId, Some(m)))
  }

  /** The corrected reducer applied to each message of `ms` in turn. */
  function ReceiveAll(list: seq<ChatItem>, ms: seq<MessageObject>): seq<ChatItem>
    decreases |ms|
  {
    if ms == [] then list else ReceiveAll(OnReceiveMessageCorrected(list, ms[0]), ms[1..])
  }

  /** The last message of chat `chatId` in `ms`, if any. */
  function LastFor(ms: seq<MessageObject>, chatId: Id): Option<MessageObject>
    decreases |ms|
  {
    if ms == [] then None
    else if ms[|ms| - 1].chatId == chatId then Some(ms[|ms| - 1])
    else LastFor(ms[..|ms| - 1], chatId)
  }

  /** With the corrected reducer, after a stream of messages every entry shows the last
      message of its chat among them, or keeps its own when none arrived. */
  lemma {:induction false} ReceiveAllShowsLatest(list: seq<ChatItem>, ms: seq<MessageObject>, i: nat)
    requires i < |list|
    ensures |ReceiveAll(list, ms)| == |list|
    ensures ReceiveAll(list, ms)[i].id == list[i].id
    ensures ReceiveAll(list, ms)[i].lastMessage ==
      (if LastFor(ms, list[i].id).Some? then LastFor(ms, list[i].id) else list[i].lastMessage)
    decreases |ms|
  {
    if ms != [] {
      var next := OnReceiveMessageCorrected(list, ms[0]);
      ReceiveAllShowsLatest(next, ms[1..], i);
      LastForCons(ms, list[i].id);
    }
  }

  lemma {:induction false} LastForCons(ms: seq<MessageObject>, chatId: Id)
    requires ms != []
    ensures LastFor(ms, chatId) ==
      if LastFor(ms[1..], chatId).Some? then LastFor(ms[1..], chatId)
      else if ms[0].chatId == chatId then Some(ms[0]) else None
    decreases |ms|
  {
    if |ms| > 1 {
      assert ms[1..][..|ms[1..]| - 1] == ms[..|ms| - 1][1..];
      assert ms[1..][|ms[1..]| - 1] == ms[|ms| - 1];
      if ms[|ms| - 1].chatId != chatId {
        LastForCons(ms[..|ms| - 1], chatId);
      }
    }
  }
}
