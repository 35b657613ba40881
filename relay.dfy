/** The realtime relay: joins sockets to chat rooms, persists and fans out messages,
    and forwards typing indicators. Emitted events are appended to an outbox in the
    order the relay emits them. */
module Relay {

  import opened Wrappers
  import opened Schema
  import opened Seqs
  import opened Db
  import opened Wire
  import MessageService
  import ChatService

  const JoinFailed := "Failed to join chat."
  const SendFailed := "Failed to send message."

  /** Every element occurs at most once. */
  ghost predicate Distinct<T(!new)>(s: seq<T>) {
    forall x :: multiset(s)[x] <= 1
  }

  /** The members of room `chatId` other than `caller`, in the order of `conns`: the
      audience of `socket.to(chatId)`. socket.io walks a room in join order; the model
      fixes that order as connection order. */
  function RoomPeers(conns: seq<ConnId>, rooms: map<ConnId, set<Id>>, chatId: Id, caller: ConnId): (r: seq<ConnId>)
    ensures forall c :: c in r <==> c in conns && c != caller && c in rooms && chatId in rooms[c]
    ensures Distinct(conns) ==> Distinct(r)
  {
    Filter(conns, (c: ConnId) => c != caller && c in rooms && chatId in rooms[c])
  }

  /** One delivery of `ev` to each connection of `to`, in order. */
  function Broadcast(to: seq<ConnId>, ev: ServerEvent): (r: seq<Delivery>)
    ensures |r| == |to| && forall i :: 0 <= i < |to| ==> r[i] == Delivery(to[i], ev)
  {
    seq(|to|, i requires 0 <= i < |to| => Delivery(to[i], ev))
  }

  /** How many times `c` is sent `ev` in `ds`. */
  function Received(ds: seq<Delivery>, c: ConnId, ev: ServerEvent): nat {
    if ds == [] then 0
    else (if ds[0] == Delivery(c, ev) then 1 else 0) + Received(ds[1..], c, ev)
  }

  lemma {:induction false} ReceivedAppend(a: seq<Delivery>, b: seq<Delivery>, c: ConnId, ev: ServerEvent)
    ensures Received(a + b, c, ev) == Received(a, c, ev) + Received(b, c, ev)
  {
    if a != [] {
      assert (a + b)[1..] == a[1..] + b;
      ReceivedAppend(a[1..], b, c, ev);
    } else {
      assert a + b == b;
    }
  }

  lemma {:induction false} BroadcastCount(to: seq<ConnId>, ev: ServerEvent, c: ConnId)
    ensures Received(Broadcast(to, ev), c, ev) == multiset(to)[c]
  {
    if to != [] {
      assert to == [to[0]] + to[1..];
      assert Broadcast(to, ev)[1..] == Broadcast(to[1..], ev);
      BroadcastCount(to[1..], ev, c);
    }
  }

  /** The fan-out used for messages and typing indicators: every other member of the
      room, then the caller itself. */
  function FanOut(conns: seq<ConnId>, rooms: map<ConnId, set<Id>>, chatId: Id, caller: ConnId, ev: ServerEvent): seq<Delivery> {
    Broadcast(RoomPeers(conns, rooms, chatId, caller), ev) + [Delivery(caller, ev)]
  }

  /** Exactly the caller and the other members of the room receive the event, each exactly
      once; nobody outside the room receives it. */
  lemma FanOutExactlyOnce(conns: seq<ConnId>, rooms: map<ConnId, set<Id>>, chatId: Id, caller: ConnId, ev: ServerEvent, c: ConnId)
    requires Distinct(conns)
    ensures Received(FanOut(conns, rooms, chatId, caller, ev), c, ev) ==
      if c == caller || (c in conns && c in rooms && chatId in rooms[c]) then 1 else 0
  {
    var peers := RoomPeers(conns, rooms, chatId, caller);
    ReceivedAppend(Broadcast(peers, ev), [Delivery(caller, ev)], c, ev);
    BroadcastCount(peers, ev, c);
    assert [Delivery(caller, ev)][1..] == [];
    if c !in peers {
      assert multiset(peers)[c] == 0;
    }
  }

  /** Where blob storage puts a message's attachment: always the same name per chat. */
  function BlobPath(chatId: Id): string {
    chatId + "/blob.jpeg"
  }

  /** The id the relay reads off the driver's insert result: the result carries only a
      row count, so the property is undefined. */
  function ResultId(r: InsertResult): (id: Option<Id>)
    ensures id == None
  {
    None
  }

  /** Outcomes of the external calls one send-message makes: the blob upload (a URL,
      or None when it is rejected), the database's defaults for the new row, and whether
      each database call fails for reasons outside the model. */
  datatype SendOracle = SendOracle(put: (string, File) -> Option<string>,
                                   messageId: Id, insertedAt: Timestamp, insertUnavailable: bool,
                                   bumpedAt: Timestamp, bumpUnavailable: bool)

  datatype SendError = UploadFailed | Store(cause: ServiceError)

  /** The message the relay builds for `createNew`, given the upload's URL if any. */
  function Outgoing(chatId: Id, userId: Id, data: MessageData, url: Option<string>): MessageService.NewMessage {
    MessageService.NewMessage(chatId, userId, data.text, url, Some(0))
  }

  /** The URL the attachment gets, or None when there is no attachment. */
  function Upload(o: SendOracle, chatId: Id, data: MessageData): Option<string> {
    if data.file.Some? then o.put(BlobPath(chatId), data.file.value) else None
  }

  /** The two writes of a send: the message is inserted, then the chat's timestamp is
      bumped; the insert's result comes back when both succeed. */
  method Persist(db: Database, message: MessageService.NewMessage, o: SendOracle)
    returns (r: Result<InsertResult, ServiceError>)
    requires db.Valid()
    modifies db
    ensures db.Valid()
    ensures
      var insertErr := MessageService.InsertError(old(db.messages), old(db.chats), message, o.messageId);
      var inserted := !o.insertUnavailable && insertErr.None?;
      && db.users == old(db.users)
      && db.messages == (if inserted then old(db.messages) + [MessageService.Stored(message, o.messageId, o.insertedAt)]
                         else old(db.messages))
      && db.chats == (if inserted && !o.bumpUnavailable then ChatService.Touch(old(db.chats), message.chatId, o.bumpedAt)
                      else old(db.chats))
      && (r.Success? <==> inserted && !o.bumpUnavailable)
      && (r.Success? ==> r.value == InsertResult(1))
      && (o.insertUnavailable ==> r == Failure(Db(Unavailable)))
      && (!o.insertUnavailable && insertErr.Some? ==> r == Failure(Db(insertErr.value)))
      && (inserted && o.bumpUnavailable ==> r == Failure(Db(Unavailable)))
  {
    r := MessageService.CreateNew(db, message, o.messageId, o.insertedAt, o.insertUnavailable);
    if r.Success? {
      var bumped := ChatService.UpdateTimestamp(db, message.chatId, o.bumpedAt, o.bumpUnavailable);
      if bumped.Failure? {
        r := Failure(bumped.error);
      }
    }
  }

  class Relay {
    /** Connected sockets, in an order the model fixes as connection order (socket.io walks a room in join order). */
    var connections: seq<ConnId>
    /** The rooms each connected socket has joined. */
    var rooms: map<ConnId, set<Id>>
    /** Every event emitted so far, in emission order. */
    var outbox: seq<Delivery>
    const db: Database

    ghost predicate Valid()
      reads this, db
    {
      && db.Valid()
      && Distinct(connections)
      && (forall c :: c in rooms <==> c in connections)
    }

    constructor (db: Database)
      requires db.Valid()
      ensures Valid() && this.db == db
      ensures connections == [] && rooms == map[] && outbox == []
    {
      this.db := db;
      connections, rooms, outbox := [], map[], [];
    }

    /** A socket connects; handlers are attached to it but nothing is emitted. */
    method Connect(conn: ConnId)
      requires Valid() && conn !in rooms
      modifies this
      ensures Valid()
      ensures connections == old(connections) + [conn] && rooms == old(rooms)[conn := {}]
      ensures outbox == old(outbox)
    {
      assert multiset(connections)[conn] == 0;
      connections := connections + [conn];
      rooms := rooms[conn := {}];
    }

    /** A socket disconnects and leaves every room. The relay only logs it. */
    method Disconnect(conn: ConnId)
      requires Valid() && conn in rooms
      modifies this
      ensures Valid()
      ensures connections == Filter(old(connections), (c: ConnId) => c != conn) && rooms == old(rooms) - {conn}
      ensures outbox == old(outbox)
    {
      connections := Filter(connections, (c: ConnId) => c != conn);
      rooms := rooms - {conn};
    }

    /** The effect of join-chat: the socket is in the room before the history is read;
        then only the joiner gets the chat's stored messages, or an error. */
    twostate predicate JoinedChat(conn: ConnId, chatId: Id, historyFails: bool)
      reads this, db
      requires old(conn in rooms)
    {
      && connections == old(connections)
      && rooms == old(rooms)[conn := old(rooms)[conn] + {chatId}]
      && db.users == old(db.users) && db.chats == old(db.chats) && db.messages == old(db.messages)
      && outbox == old(outbox) + [Delivery(conn,
           if historyFails then Error(JoinFailed)
           else ReceiveHistory(FromRows(MessageService.GetAll(db.messages, chatId))))]
    }

    method JoinChat(conn: ConnId, chatId: Id, userId: Id, historyFails: bool)
      requires Valid() && conn in rooms
      modifies this
      ensures Valid()
      ensures JoinedChat(conn, chatId, historyFails)
    {
      rooms := rooms[conn := rooms[conn] + {chatId}];
      if historyFails {
        outbox := outbox + [Delivery(conn, Error(JoinFailed))];
      } else {
        var history := MessageService.GetAll(db.messages, chatId);
        outbox := outbox + [Delivery(conn, ReceiveHistory(FromRows(history)))];
      }
    }

    /** The effect of send-message. The attachment, if any, is uploaded first; then the
        message is inserted with status 0 and the chat's timestamp is bumped. When all
        of that succeeds, the message (with no creation time, and the insert result's id)
        goes to the other members of the room and then back to the sender; when any step
        fails, the steps already done stay done, the sender alone gets an error and the
        handler fails with the step's error. */
    twostate predicate SentMessage(conn: ConnId, chatId: Id, userId: Id, data: MessageData, o: SendOracle,
                                   new r: Result<MessageObject, SendError>)
      reads this, db
    {
      var url := Upload(o, chatId, data);
      var uploaded := data.file.None? || url.Some?;
      var message := Outgoing(chatId, userId, data, url);
      var insertErr := MessageService.InsertError(old(db.messages), old(db.chats), message, o.messageId);
      var inserted := uploaded && !o.insertUnavailable && insertErr.None?;
      var bumped := inserted && !o.bumpUnavailable;
      var sent := MessageObject(None, chatId, userId, data.text, url, 0, None);
      && connections == old(connections) && rooms == old(rooms)
      && db.users == old(db.users)
      && db.messages == (if inserted then old(db.messages) + [MessageService.Stored(message, o.messageId, o.insertedAt)]
                         else old(db.messages))
      && db.chats == (if bumped then ChatService.Touch(old(db.chats), chatId, o.bumpedAt) else old(db.chats))
      && (bumped ==>
            r == Success(sent)
            && outbox == old(outbox) + FanOut(old(connections), old(rooms), chatId, conn, ReceiveMessage(sent)))
      && (!bumped ==> r.Failure? && outbox == old(outbox) + [Delivery(conn, Error(SendFailed))])
      && (!uploaded ==> r == Failure(UploadFailed))
      && (uploaded && o.insertUnavailable ==> r == Failure(Store(Db(Unavailable))))
      && (uploaded && !o.insertUnavailable && insertErr.Some? ==> r == Failure(Store(Db(insertErr.value))))
      && (inserted && !bumped ==> r == Failure(Store(Db(Unavailable))))
    }

    method SendMessage(conn: ConnId, chatId: Id, userId: Id, data: MessageData, o: SendOracle)
      returns (r: Result<MessageObject, SendError>)
      requires Valid()
      modifies this, db
      ensures Valid()
      ensures SentMessage(conn, chatId, userId, data, o, r)
    {
      var url: Option<string> := None;
      if data.file.Some? {
        url := o.put(BlobPath(chatId), data.file.value);
        if url.None? {
          outbox := outbox + [Delivery(conn, Error(SendFailed))];
          return Failure(UploadFailed);
        }
      }
      var message := Outgoing(chatId, userId, data, url);
      var inserted := Persist(db, message, o);
      if inserted.Failure? {
        outbox := outbox + [Delivery(conn, Error(SendFailed))];
        return Failure(Store(inserted.error));
      }
      var sent := MessageObject(ResultId(inserted.value), chatId, userId, message.text, message.file, 0, None);
      // the room's copies first, then the sender's own
      outbox := outbox + FanOut(connections, rooms, chatId, conn, ReceiveMessage(sent));
      r := Success(sent);
    }

    /** The effect of start-typing and stop-typing: the indicator goes to the other
        members of the room and then to the caller; nothing else changes. */
    twostate predicate Signalled(conn: ConnId, chatId: Id, ev: ServerEvent)
      reads this, db
    {
      && connections == old(connections) && rooms == old(rooms)
      && db.users == old(db.users) && db.chats == old(db.chats) && db.messages == old(db.messages)
      && outbox == old(outbox) + FanOut(connections, rooms, chatId, conn, ev)
    }

    method StartTyping(conn: ConnId, chatId: Id, userId: Id)
      requires Valid()
      modifies this
      ensures Valid()
      ensures Signalled(conn, chatId, UserTyping(userId, chatId))
    {
      outbox := outbox + Broadcast(RoomPeers(connections, rooms, chatId, conn), UserTyping(userId, chatId));
      outbox := outbox + [Delivery(conn, UserTyping(userId, chatId))];
    }

    method StopTyping(conn: ConnId, chatId: Id, userId: Id)
      requires Valid()
      modifies this
      ensures Valid()
      ensures Signalled(conn, chatId, UserStoppedTyping(userId, chatId))
    {
      outbox := outbox + Broadcast(RoomPeers(connections, rooms, chatId, conn), UserStoppedTyping(userId, chatId));
      outbox := outbox + [Delivery(conn, UserStoppedTyping(userId, chatId))];
    }

    /** The wiring of a connected socket's handlers: each client event goes to its
        handler with the fields of its payload. Only send-message yields a value. */
    method Handle(conn: ConnId, ev: ClientEvent, historyFails: bool, o: SendOracle)
      returns (r: Option<Result<MessageObject, SendError>>)
      requires Valid() && conn in rooms
      modifies this, db
      ensures Valid()
      ensures ev.JoinChat? ==> r == None && JoinedChat(conn, ev.chatId, historyFails)
      ensures ev.SendMessage? ==> r.Some? && SentMessage(conn, ev.chatId, ev.userId, ev.messageData, o, r.value)
      ensures ev.StartTyping? ==> r == None && Signalled(conn, ev.chatId, UserTyping(ev.userId, ev.chatId))
      ensures ev.StopTyping? ==> r == None && Signalled(conn, ev.chatId, UserStoppedTyping(ev.userId, ev.chatId))
    {
      match ev {
        case JoinChat(chatId, userId) =>
          JoinChat(conn, chatId, userId, historyFails);
          r := None;
        case SendMessage(chatId, userId, data) =>
          var sent := SendMessage(conn, chatId, userId, data, o);
          r := Some(sent);
        case StartTyping(chatId, userId) =>
          StartTyping(conn, chatId, userId);
          r := None;
        case StopTyping(chatId, userId) =>
          StopTyping(conn, chatId, userId);
          r := None;
      }
    }
  }
}
