/** The open conversation on the client: the message list and typing indicator that
    socket events maintain, and the composer that sends a message. */
module ChatView {

  import opened Wrappers
  import opened Schema
  import opened Wire
  import opened JsString

  // Socket reducers ---------------------------------------------------------------

  /** receive-message: the payload is appended at the end. */
  function Appended(ms: seq<MessageObject>, m: MessageObject): (r: seq<MessageObject>)
    ensures |r| == |ms| + 1 && r[..|ms|] == ms && r[|ms|] == m
  {
    ms + [m]
  }

  /** The typing indicator after a user-typing event from `userId`, for current user `me`. */
  function AfterTyping(indicator: Option<Id>, userId: Id, me: Option<Id>): Option<Id> {
    if me != Some(userId) then Some(userId) else indicator
  }

  /** The typing indicator after a user-stopped-typing event from `userId`. */
  function AfterStoppedTyping(indicator: Option<Id>, userId: Id, me: Option<Id>): Option<Id> {
    if me != Some(userId) then None else indicator
  }

  /** The list and indicator after `ev`; other events leave both alone. */
  function Step(ms: seq<MessageObject>, indicator: Option<Id>, me: Option<Id>, ev: ServerEvent)
    : (r: (seq<MessageObject>, Option<Id>))
    ensures ev.ReceiveMessage? ==> r.0 == Appended(ms, ev.message) && r.1 == indicator
    ensures ev.ReceiveHistory? ==> r.0 == ev.history && r.1 == indicator
    ensures ev.UserTyping? ==> r.0 == ms && r.1 == AfterTyping(indicator, ev.userId, me)
    ensures ev.UserStoppedTyping? ==> r.0 == ms && r.1 == AfterStoppedTyping(indicator, ev.userId, me)
    ensures ev.Error? ==> r == (ms, indicator)
  {
    match ev
    case ReceiveMessage(m) => (Appended(ms, m), indicator)
    case ReceiveHistory(h) => (h, indicator)
    case UserTyping(u, _) => (ms, AfterTyping(indicator, u, me))
    case UserStoppedTyping(u, _) => (ms, AfterStoppedTyping(indicator, u, me))
    case Error(_) => (ms, indicator)
  }

  /** The state after the events `evs`, in order. */
  function Run(ms: seq<MessageObject>, indicator: Option<Id>, me: Option<Id>, evs: seq<ServerEvent>)
    : (seq<MessageObject>, Option<Id>)
    decreases |evs|
  {
    if evs == [] then (ms, indicator)
    else
      var s := Step(ms, indicator, me, evs[0]);
      Run(s.0, s.1, me, evs[1..])
  }

  /** The payloads of the receive-message events among `evs`, in order. */
  function Received(evs: seq<ServerEvent>): seq<MessageObject> {
    if evs == [] then []
    else (if evs[0].ReceiveMessage? then [evs[0].message] else []) + Received(evs[1..])
  }

  /** After a history the list is that history followed by every message received since,
      in arrival order, whatever was shown before. */
  lemma {:induction false} HistoryThenMessages(ms: seq<MessageObject>, indicator: Option<Id>, me: Option<Id>,
                                               h: seq<MessageObject>, evs: seq<ServerEvent>)
    requires forall e :: e in evs ==> !e.ReceiveHistory?
    ensures Run(ms, indicator, me, [ReceiveHistory(h)] + evs).0 == h + Received(evs)
  {
    assert ([ReceiveHistory(h)] + evs)[1..] == evs;
    RunWithoutHistory(h, indicator, me, evs);
  }

  /** What one event that is not a history does to the list: it appends that event's payload, if any. */
  lemma StepWithoutHistory(ms: seq<MessageObject>, indicator: Option<Id>, me: Option<Id>, ev: ServerEvent)
    requires !ev.ReceiveHistory?
    ensures Step(ms, indicator, me, ev).0 == ms + Received([ev])
  {
    assert [ev][1..] == [];
  }

  lemma {:induction false} RunWithoutHistory(ms: seq<MessageObject>, indicator: Option<Id>, me: Option<Id>, evs: seq<ServerEvent>)
    requires forall e :: e in evs ==> !e.ReceiveHistory?
    ensures Run(ms, indicator, me, evs).0 == ms + Received(evs)
    decreases |evs|
  {
    if evs != [] {
      var s := Step(ms, indicator, me, evs[0]);
      var rest := evs[1..];
      assert evs[0] in evs;
      StepWithoutHistory(ms, indicator, me, evs[0]);
      RunWithoutHistory(s.0, s.1, me, rest);
      assert [evs[0]][1..] == [];
      assert Received(evs) == Received([evs[0]]) + Received(rest);
    }
  }

  /** Typing events of the current user never move the indicator, and neither does
      anything but a typing event. */
  lemma {:induction false} OwnTypingIgnored(ms: seq<MessageObject>, indicator: Option<Id>, me: Id, evs: seq<ServerEvent>)
    requires forall i :: 0 <= i < |evs| ==> (evs[i].UserTyping? || evs[i].UserStoppedTyping?) ==> evs[i].userId == me
    ensures Run(ms, indicator, Some(me), evs).1 == indicator
    decreases |evs|
  {
    if evs != [] {
      var s := Step(ms, indicator, Some(me), evs[0]);
      assert s.1 == indicator;
      OwnTypingIgnored(s.0, s.1, me, evs[1..]);
    }
  }

  /** Whoever the indicator shows was either shown before or sent a typing start:
      the indicator is never set to the current user by an event. */
  lemma {:induction false} IndicatorShowsATypist(ms: seq<MessageObject>, indicator: Option<Id>, me: Option<Id>, evs: seq<ServerEvent>)
    ensures var shown := Run(ms, indicator, me, evs).1;
      shown == None || shown == indicator ||
      (me != shown && exists i :: 0 <= i < |evs| && evs[i].UserTyping? && evs[i].userId == shown.value)
    decreases |evs|
  {
    if evs != [] {
      var s := Step(ms, indicator, me, evs[0]);
      IndicatorShowsATypist(s.0, s.1, me, evs[1..]);
      var shown := Run(ms, indicator, me, evs).1;
      assert shown == Run(s.0, s.1, me, evs[1..]).1;
      if shown != None && shown != indicator {
        if shown == s.1 {
          assert evs[0].UserTyping? && evs[0].userId == shown.value;
        } else {
          var i :| 0 <= i < |evs[1..]| && evs[1..][i].UserTyping? && evs[1..][i].userId == shown.value;
          assert evs[i + 1] == evs[1..][i];
        }
      }
    }
  }

  // The composer ------------------------------------------------------------------

  /** The attachment types the composer sends as images. */
  predicate AllowedImage(mimeType: string) {
    mimeType == "image/jpeg" || mimeType == "image/png" || mimeType == "image/gif" || mimeType == "image/aivf"
  }

  /** The payload of send-message: the text and the user, and the file only when it is
      one of the allowed image types. */
  function Compose(text: string, userId: Id, file: Option<File>): (d: MessageData)
    ensures d.text == text && d.userId == userId
    ensures d.contentType == Image <==> file.Some? && AllowedImage(file.value.mimeType)
    ensures d.contentType == Image ==> d.file == file
    ensures d.contentType == Text ==> d.file == None
  {
    if file.Some? && AllowedImage(file.value.mimeType) then MessageData(text, userId, Image, file)
    else MessageData(text, userId, Text, None)
  }

  /** A non-image attachment is dropped without notice: the message goes as text. */
  lemma OtherFilesSentAsText(text: string, userId: Id, f: File)
    requires !AllowedImage(f.mimeType)
    ensures Compose(text, userId, Some(f)) == MessageData(text, userId, Text, None)
  {
  }

  class Composer {
    var text: string
    var file: Option<File>
    var isTyping: bool
    var messages: seq<MessageObject>
    /** Events this view has emitted on the socket, in order. */
    var emitted: seq<ClientEvent>

    constructor ()
      ensures text == "" && file == None && !isTyping && messages == [] && emitted == []
    {
      text, file, isTyping, messages, emitted := "", None, false, [], [];
    }

    /** The join effect: with a socket, a chat and a user, join-chat is emitted and the
        list is emptied until the history arrives. */
    method Join(socket: bool, chatId: Option<Id>, user: Option<Id>)
      modifies this
      ensures socket && Truthy(chatId) && user.Some? ==>
        emitted == old(emitted) + [JoinChat(chatId.value, user.value)] && messages == []
      ensures !(socket && Truthy(chatId) && user.Some?) ==> emitted == old(emitted) && messages == old(messages)
      ensures text == old(text) && file == old(file) && isTyping == old(isTyping)
    {
      if socket && Truthy(chatId) && user.Some? {
        emitted := emitted + [JoinChat(chatId.value, user.value)];
        messages := [];
      }
    }

    /** sendMessage: nothing without a user, a socket and a chat; otherwise the payload
        is built (text first, then the image if allowed), emitted, and the composer is
        cleared. The message list is not touched: the relay's echo adds it. */
    method SendMessage(socket: bool, chatId: Option<Id>, user: Option<Id>)
      modifies this
      ensures !(socket && Truthy(chatId) && user.Some?) ==>
        emitted == old(emitted) && text == old(text) && file == old(file) && isTyping == old(isTyping)
      ensures socket && Truthy(chatId) && user.Some? ==>
        && emitted == old(emitted) + [ClientEvent.SendMessage(chatId.value, user.value, Compose(old(text), user.value, old(file)))]
        && text == "" && file == None && !isTyping
      ensures messages == old(messages)
    {
      if !socket || !Truthy(chatId) || user.None? {
        return;
      }
      var data := MessageData(text, user.value, Text, None);
      if file.Some? && AllowedImage(file.value.mimeType) {
        data := data.(contentType := Image);
        data := data.(file := file);
      }
      emitted := emitted + [ClientEvent.SendMessage(chatId.value, user.value, data)];
      text := "";
      file := None;
      isTyping := false;
    }
  }
}
