/** What travels over the realtime channel between the client and the relay. */
module Wire {

  import opened Wrappers
  import opened Schema

  /** A socket's transient id. */
  type ConnId = string

  /** A message as a client sees it (JSON): rows carry every column, the relay's
      live copy carries no creation time and whatever id the insert call returned. */
  datatype MessageObject = MessageObject(id: Option<Id>, chatId: Id, userId: Id, text: string,
                                         file: Option<string>, status: int, createdAt: Option<Timestamp>)

  function FromRow(m: MessageRow): MessageObject {
    MessageObject(Some(m.id), m.chatId, m.userId, m.text, m.file, m.status, Some(m.createdAt))
  }

  function FromRows(ms: seq<MessageRow>): (r: seq<MessageObject>)
    ensures |r| == |ms| && forall i :: 0 <= i < |ms| ==> r[i] == FromRow(ms[i])
  {
    seq(|ms|, i requires 0 <= i < |ms| => FromRow(ms[i]))
  }

  /** A browser File picked in the composer. */
  datatype File = File(mimeType: string, name: string, size: nat)

  datatype ContentType = Text | Image

  /** The `messageData` object the composer builds. */
  datatype MessageData = MessageData(text: string, userId: Id, contentType: ContentType, file: Option<File>)

  /** Client-to-server events. */
  datatype ClientEvent =
    | JoinChat(chatId: Id, userId: Id)
    | SendMessage(chatId: Id, userId: Id, messageData: MessageData)
    | StartTyping(chatId: Id, userId: Id)
    | StopTyping(chatId: Id, userId: Id)

  /** Server-to-client events. */
  datatype ServerEvent =
    | ReceiveHistory(history: seq<MessageObject>)
    | ReceiveMessage(message: MessageObject)
    | UserTyping(userId: Id, chatId: Id)
    | UserStoppedTyping(userId: Id, chatId: Id)
    | Error(reason: string)

  /** One event queued for one connection. */
  datatype Delivery = Delivery(to: ConnId, event: ServerEvent)
}
