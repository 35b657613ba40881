/** The chats REST handlers: the requester's chat list with the other participant's
    name, and chat creation. */
module ChatsController {

  import opened Wrappers
  import opened Schema
  import opened Db
  import opened Envelope
  import opened JsString
  import ChatService
  import UserService

  /** One entry of the chat list as the client receives it. */
  datatype ChatEntry = ChatEntry(id: Id, contactId: Id, contactName: Option<string>, lastMessage: Option<MessageRow>)

  /** The participant of `chat` shown as the contact: `user2` when the requester is
      `user1`, otherwise `user1`. */
  function ContactOf(chat: ChatService.UserChat, me: Id): Id {
    if chat.user1 == me then chat.user2 else chat.user1
  }

  /** For a chat the requester takes part in, the contact is the other participant
      (the requester again in a chat with themself). */
  lemma ContactIsTheOther(chat: ChatService.UserChat, me: Id)
    requires chat.user1 == me || chat.user2 == me
    ensures {ContactOf(chat, me), me} == {chat.user1, chat.user2}
  {
  }

  /** The contact's lookup succeeds for every chat of the list. */
  ghost predicate ContactsFound(users: seq<UserRow>, chats: seq<ChatService.UserChat>, me: Id) {
    forall i :: 0 <= i < |chats| ==> HasUserId(users, ContactOf(chats[i], me))
  }

  /** The `username` of the user with id `id`, as `userService.getOne` finds it. */
  function ContactName(users: seq<UserRow>, id: Id): Option<string> {
    match UserService.GetOne(users, id)
    case Some(u) => u.username
    case None => None
  }

  /** The entry for `chat`. */
  function Entry(users: seq<UserRow>, chat: ChatService.UserChat, me: Id): ChatEntry {
    ChatEntry(chat.id, ContactOf(chat, me), ContactName(users, ContactOf(chat, me)), chat.lastMessage)
  }

  lemma ContactsFoundCons(users: seq<UserRow>, chats: seq<ChatService.UserChat>, me: Id)
    requires chats != []
    ensures ContactsFound(users, chats, me) <==>
      HasUserId(users, ContactOf(chats[0], me)) && ContactsFound(users, chats[1..], me)
  {
    if HasUserId(users, ContactOf(chats[0], me)) && ContactsFound(users, chats[1..], me) {
      forall i | 0 <= i < |chats| ensures HasUserId(users, ContactOf(chats[i], me)) {
        if i > 0 {
          assert chats[i] == chats[1..][i - 1];
        }
      }
    }
  }

  /** The `map` over the service's list: one entry per chat, in order, or None when
      any contact lookup misses (every miss rejects with the same error, so the order
      in which the concurrent lookups settle does not matter). */
  function Enrich(users: seq<UserRow>, chats: seq<ChatService.UserChat>, me: Id): (r: Option<seq<ChatEntry>>)
    ensures r.Some? <==> ContactsFound(users, chats, me)
    ensures r.Some? ==> |r.value| == |chats|
    ensures r.Some? ==> forall i :: 0 <= i < |chats| ==> r.value[i] == Entry(users, chats[i], me)
    decreases |chats|
  {
    if chats == [] then Some([])
    else if !HasUserId(users, ContactOf(chats[0], me)) then
      ContactsFoundCons(users, chats, me);
      None
    else
      match Enrich(users, chats[1..], me)
      case None =>
        ContactsFoundCons(users, chats, me);
        None
      case Some(rest) =>
        ContactsFoundCons(users, chats, me);
        PrependEntry(users, chats, me, rest);
        Some([Entry(users, chats[0], me)] + rest)
  }

  lemma PrependEntry(users: seq<UserRow>, chats: seq<ChatService.UserChat>, me: Id, rest: seq<ChatEntry>)
    requires chats != [] && |rest| == |chats| - 1
    requires forall i :: 0 <= i < |chats| - 1 ==> rest[i] == Entry(users, chats[1..][i], me)
    ensures forall i :: 0 <= i < |chats| ==> ([Entry(users, chats[0], me)] + rest)[i] == Entry(users, chats[i], me)
  {
    var r := [Entry(users, chats[0], me)] + rest;
    forall i | 0 <= i < |chats| ensures r[i] == Entry(users, chats[i], me) {
      if i > 0 {
        assert r[i] == rest[i - 1];
        assert chats[1..][i - 1] == chats[i];
      }
    }
  }

  const Forbidden := ApiError(403, "Forbidden")
  const ContactNotFound := ApiError(404, "Contact not found")

  /** getUserChats: a falsy requester id is refused before any lookup; otherwise the
      service's list with each chat's contact, or 404 as a whole when a contact is
      missing. */
  function GetUserChats(requester: Option<Id>, users: seq<UserRow>, chats: seq<ChatRow>, messages: seq<MessageRow>)
    : (c: Completion<seq<ChatEntry>>)
    ensures !Truthy(requester) ==> c == NextError(Forbidden)
    ensures Truthy(requester) ==>
      var list := ChatService.GetUserChats(chats, messages, requester.value);
      && (c.NextRequest? <==> ContactsFound(users, list, requester.value))
      && (c.NextError? ==> c == NextError(ContactNotFound))
      && (c.NextRequest? ==>
            && c.responseData.Some? && |c.responseData.value| == |list|
            && forall i :: 0 <= i < |list| ==>
                 var e := c.responseData.value[i];
                 && e.id == list[i].id && e.contactId == ContactOf(list[i], requester.value)
                 && e.lastMessage == list[i].lastMessage
                 && e.contactName == ContactName(users, e.contactId))
  {
    if !Truthy(requester) then NextError(Forbidden)
    else
      var list := ChatService.GetUserChats(chats, messages, requester.value);
      match Enrich(users, list, requester.value)
      case None => NextError(ContactNotFound)
      case Some(entries) => NextRequest(Some(entries))
  }

  /** With the foreign keys of the chats table in force, no contact is ever missing:
      a signed-in requester always gets their list. */
  lemma {:induction false} ValidStoreFindsEveryContact(users: seq<UserRow>, chats: seq<ChatRow>, messages: seq<MessageRow>, me: Id)
    requires ChatsValid(chats, users)
    requires me != ""
    ensures GetUserChats(Some(me), users, chats, messages).NextRequest?
  {
    var list := ChatService.GetUserChats(chats, messages, me);
    var top := ChatService.TopChats(chats, me);
    forall i | 0 <= i < |list| ensures HasUserId(users, ContactOf(list[i], me)) {
      assert top[i] in top;
      ListedUsersExist(users, chats, me, top[i]);
    }
    assert ContactsFound(users, list, me);
  }

  /** Both participants of a listed chat are stored users when every chat's are. */
  lemma ListedUsersExist(users: seq<UserRow>, chats: seq<ChatRow>, me: Id, h: ChatService.ChatHead)
    requires forall i :: 0 <= i < |chats| ==> HasUserId(users, chats[i].user1) && HasUserId(users, chats[i].user2)
    requires h in ChatService.TopChats(chats, me)
    ensures HasUserId(users, h.user1) && HasUserId(users, h.user2)
  {
    var c :| c in chats && ChatService.Involves(c, me) && ChatService.Head(c) == h;
    var j :| 0 <= j < |chats| && chats[j] == c;
    assert HasUserId(users, chats[j].user1) && HasUserId(users, chats[j].user2);
  }

  /** createNewChat: the requester becomes `user1` and the body's `contactId` becomes
      `user2`, with no check of either; the service's result or error is passed on. */
  method CreateNewChat(db: Database, requester: Option<Id>, contactId: Option<Id>, id: Id, now: Timestamp, unavailable: bool)
    returns (c: Completion<InsertResult>)
    requires db.Valid()
    modifies db
    ensures db.Valid()
    ensures db.users == old(db.users) && db.messages == old(db.messages)
    ensures c.NextRequest? <==> !unavailable && ChatService.InsertError(old(db.chats), old(db.users), id, requester, contactId).None?
    ensures c.NextRequest? ==>
      c.responseData == Some(InsertResult(1)) && db.chats == old(db.chats) + [ChatRow(id, requester.value, contactId.value, now, now)]
    ensures c.NextError? ==> db.chats == old(db.chats)
    ensures c.NextError? && unavailable ==> c.thrown == FromService(Db(Unavailable))
    ensures c.NextError? && !unavailable ==>
      c.thrown == FromService(Translate(ChatService.InsertError(old(db.chats), old(db.users), id, requester, contactId).value))
  {
    var r := ChatService.CreateNew(db, requester, contactId, id, now, unavailable);
    if r.Success? {
      c := NextRequest(Some(r.value));
    } else {
      c := NextError(FromService(r.error));
    }
  }
}
