/** The in-memory stand-in for the PostgreSQL database: three tables held in storage order. */
module Db {

  import opened Schema

  class Database {
    var users: seq<UserRow>
    var chats: seq<ChatRow>
    var messages: seq<MessageRow>

    /** Every integrity constraint declared by the schema holds. */
    ghost predicate Valid()
      reads this
    {
      UsersValid(users) && ChatsValid(chats, users) && MessagesValid(messages, chats)
    }

    constructor ()
      ensures Valid()
      ensures users == [] && chats == [] && messages == []
    {
      users, chats, messages := [], [], [];
    }
  }
}
