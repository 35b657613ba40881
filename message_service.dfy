/** The message log: `messageService` over the `messages` table. */
module MessageService {

  import opened Wrappers
  import opened Schema
  import opened Seqs
  import opened Db

  /** getAll: the chat's messages, in storage order (the query has no ORDER BY). */
  function GetAll(messages: seq<MessageRow>, chatId: Id): (r: seq<MessageRow>)
    ensures forall m :: m in r <==> m in messages && m.chatId == chatId
    ensures forall m :: multiset(r)[m] == if m.chatId == chatId then multiset(messages)[m] else 0
  {
    Filter(messages, (m: MessageRow) => m.chatId == chatId)
  }

  /** The first message of `ms` with the greatest creation time. */
  function Latest(ms: seq<MessageRow>): (r: Option<MessageRow>)
    ensures r.None? <==> ms == []
    ensures r.Some? ==> r.value in ms && forall m :: m in ms ==> m.createdAt <= r.value.createdAt
    decreases |ms|
  {
    if ms == [] then None
    else
      match Latest(ms[1..])
      case None => Some(ms[0])
      case Some(l) => if ms[0].createdAt >= l.createdAt then Some(ms[0]) else Some(l)
  }

  /** getLast: ORDER BY createdAt DESC LIMIT 1. Among messages created at the same
      instant the database may return any; the model returns the first stored. */
  function GetLast(messages: seq<MessageRow>, chatId: Id): (r: seq<MessageRow>)
    ensures |r| <= 1
    ensures r == [] <==> forall m :: m in messages ==> m.chatId != chatId
    ensures r != [] ==> r[0] in messages && r[0].chatId == chatId
    ensures r != [] ==> forall m :: m in messages && m.chatId == chatId ==> m.createdAt <= r[0].createdAt
  {
    match Latest(GetAll(messages, chatId))
    case None => []
    case Some(m) => [m]
  }

  /** The object handed to createNew: the columns the caller sets. */
  datatype NewMessage = NewMessage(chatId: Id, userId: Id, text: string, file: Option<string>, status: Option<int>)

  /** The row the database stores for `m`: a default status of 0 and a creation time of `now`. */
  function Stored(m: NewMessage, id: Id, now: Timestamp): MessageRow {
    MessageRow(id, m.chatId, m.userId, m.text, m.file, m.status.GetOr(0), now)
  }

  /** The constraint an INSERT of `message` under `id` violates, if any: the primary key
      first, then the reference to chats. */
  function InsertError(messages: seq<MessageRow>, chats: seq<ChatRow>, message: NewMessage, id: Id): (r: Option<PgError>)
    ensures r.None? <==> !HasMessageId(messages, id) && HasChatId(chats, message.chatId)
    ensures r == Some(UniqueViolation) <==> HasMessageId(messages, id)
    ensures !HasMessageId(messages, id) && !HasChatId(chats, message.chatId) ==> r == Some(ForeignKeyViolation)
  {
    if HasMessageId(messages, id) then Some(UniqueViolation)
    else if !HasChatId(chats, message.chatId) then Some(ForeignKeyViolation)
    else None
  }

  /** createNew: one INSERT without RETURNING. `id` is the UUID the database draws,
      `now` its clock, and `unavailable` a failure of the call itself. Driver errors
      are passed on unchanged. */
  method CreateNew(db: Database, message: NewMessage, id: Id, now: Timestamp, unavailable: bool)
    returns (r: Result<InsertResult, ServiceError>)
    requires db.Valid()
    modifies db
    ensures db.Valid()
    ensures db.users == old(db.users) && db.chats == old(db.chats)
    ensures r.Success? <==> !unavailable && InsertError(old(db.messages), old(db.chats), message, id).None?
    ensures r.Success? ==> r.value == InsertResult(1) && db.messages == old(db.messages) + [Stored(message, id, now)]
    ensures r.Failure? ==> db.messages == old(db.messages)
    ensures r.Failure? && unavailable ==> r.error == Db(Unavailable)
    ensures r.Failure? && !unavailable ==> r.error == Db(InsertError(old(db.messages), old(db.chats), message, id).value)
  {
    if unavailable {
      return Failure(Db(Unavailable));
    }
    var err := InsertError(db.messages, db.chats, message, id);
    if err.Some? {
      return Failure(Db(err.value));
    }
    var row := Stored(message, id, now);
    db.messages := db.messages + [row];
    assert db.messages[|db.messages| - 1] == row;
    r := Success(InsertResult(1));
  }
}
