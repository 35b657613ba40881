/** Row shapes and integrity constraints of the three tables (users, chats, messages). */
module Schema {

  import opened Wrappers

  /** UUIDs and text columns are strings; timestamps are instants on an integer clock. */
  type Id = string
  type Timestamp = int

  /** `users`: id primary key; username, email and password are nullable; email is unique. */
  datatype UserRow = UserRow(id: Id, username: Option<string>, email: Option<string>, password: Option<string>)

  /** `chats`: both participants are non-null references to users; (user1, user2) is unique. */
  datatype ChatRow = ChatRow(id: Id, user1: Id, user2: Id, createdAt: Timestamp, updatedAt: Timestamp)

  /** `messages`: chatId references a chat, file is nullable, status defaults to 0. */
  datatype MessageRow = MessageRow(id: Id, chatId: Id, userId: Id, text: string, file: Option<string>,
                                   status: int, createdAt: Timestamp)

  /** The storage errors the model produces: the three integrity violations and
      any failure of the database call outside the model (connection loss, timeouts). */
  datatype PgError = UniqueViolation | ForeignKeyViolation | NotNullViolation | Unavailable

  /** SQLSTATE carried by the driver's error object in `error.code`. */
  function Code(e: PgError): string {
    match e
    case UniqueViolation => "23505"
    case ForeignKeyViolation => "23503"
    case NotNullViolation => "23502"
    case Unavailable => "08006"
  }

  /** What a service rejects with: its own "Duplicate entry" error, or the driver's error unchanged. */
  datatype ServiceError = DuplicateEntry | Db(cause: PgError)

  /** The services' catch block (chats and users alike): SQLSTATE 23505 becomes "Duplicate entry", anything else is re-thrown. */
  function Translate(e: PgError): (r: ServiceError)
    ensures r == DuplicateEntry <==> e == UniqueViolation
    ensures r != DuplicateEntry ==> r == Db(e)
  {
    if Code(e) == "23505" then DuplicateEntry else Db(e)
  }

  /** The message of a service error. The `Db` texts only stand for the engine's and
      the driver's own: PostgreSQL's also name the table, the column and the constraint. */
  function ErrorMessage(e: ServiceError): string {
    match e
    case DuplicateEntry => "Duplicate entry"
    case Db(UniqueViolation) => "duplicate key value violates unique constraint"
    case Db(ForeignKeyViolation) => "insert or update violates foreign key constraint"
    case Db(NotNullViolation) => "null value violates not-null constraint"
    case Db(Unavailable) => "Connection terminated unexpectedly"
  }

  /** The driver's answer to an INSERT without RETURNING: a row count and no row. */
  datatype InsertResult = InsertResult(rowCount: nat)

  predicate HasUserId(users: seq<UserRow>, id: Id) {
    exists i | 0 <= i < |users| :: users[i].id == id
  }

  predicate HasChatId(chats: seq<ChatRow>, id: Id) {
    exists i | 0 <= i < |chats| :: chats[i].id == id
  }

  predicate HasPair(chats: seq<ChatRow>, user1: Id, user2: Id) {
    exists i | 0 <= i < |chats| :: chats[i].user1 == user1 && chats[i].user2 == user2
  }

  predicate HasEmail(users: seq<UserRow>, email: string) {
    exists i | 0 <= i < |users| :: users[i].email == Some(email)
  }

  predicate HasMessageId(messages: seq<MessageRow>, id: Id) {
    exists i | 0 <= i < |messages| :: messages[i].id == id
  }

  /** Primary key and the unique (nullable) email of `users`. */
  ghost predicate UsersValid(users: seq<UserRow>) {
    && (forall i, j :: 0 <= i < j < |users| ==> users[i].id != users[j].id)
    && (forall i, j :: 0 <= i < j < |users| && users[i].email.Some? ==> users[i].email != users[j].email)
  }

  /** Primary key, the unique ordered pair and the two foreign keys of `chats`. */
  ghost predicate ChatsValid(chats: seq<ChatRow>, users: seq<UserRow>) {
    && (forall i, j :: 0 <= i < j < |chats| ==> chats[i].id != chats[j].id)
    && (forall i, j :: 0 <= i < j < |chats| ==>
          chats[i].user1 != chats[j].user1 || chats[i].user2 != chats[j].user2)
    && (forall i :: 0 <= i < |chats| ==> HasUserId(users, chats[i].user1) && HasUserId(users, chats[i].user2))
  }

  /** Primary key and the chat foreign key of `messages` (userId is not a reference). */
  ghost predicate MessagesValid(messages: seq<MessageRow>, chats: seq<ChatRow>) {
    && (forall i, j :: 0 <= i < j < |messages| ==> messages[i].id != messages[j].id)
    && (forall i :: 0 <= i < |messages| ==> HasChatId(chats, messages[i].chatId))
  }
}
