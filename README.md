# Messaging app core, modelled in Dafny

This project models the core of a two-person messaging application. The core has five parts:

- **A realtime relay.** Sockets join chat rooms. A sent message is uploaded, persisted and fanned out to the room. Typing indicators are forwarded the same way.
- **A store.** Three tables (`users`, `chats`, `messages`) with their schema constraints, and the three service classes that query and write them.
- **REST decision logic.** The chat-list and chat-creation handlers, the login and signup ladders, and the response middleware that builds the JSON envelope.
- **Client reducers.** The open conversation (message list, typing indicator, composer), the sidebar chat list, and the tag selector.
- **Supporting definitions.** JavaScript truthiness, `trim` and `toLowerCase`, and PostgreSQL `LIKE`.

Modules and their files:

- `wrappers.dfy`: Option and Result.
- `seqs.dfy`: order-preserving filter and limit.
- `jsstring.dfy`: truthiness, `trim`, `toLowerCase`.
- `sql.dfy`: `LIKE`.
- `schema.dfy`: rows, constraints and driver errors.
- `db.dfy`: the database object.
- `message_service.dfy`, `chat_service.dfy`, `user_service.dfy`: the services.
- `wire.dfy`: socket payloads.
- `relay.dfy`: the relay.
- `envelope.dfy`: the response middleware.
- `chats_controller.dfy`, `auth_controller.dfy`: the REST handlers.
- `chat_view.dfy`, `chat_list_view.dfy`, `tag_group.dfy`: the client.

## How the model works

- **The relay.** The relay is a class. It holds:
  - the connected sockets, in an order the model fixes as connection order;
  - a map from each socket to the rooms it has joined;
  - an outbox, which records every emitted event as a (recipient, event) delivery in emission order;
  - the database.

  `socket.to(chatId)` is every other connected socket whose rooms contain `chatId`. socket.io walks a room's sockets in the order they joined it; the model fixes that order as connection order. `socket.emit` is the caller alone.
- **External calls.** The blob upload, the database's defaults (UUIDs, `now()`) and infrastructure failures are oracle parameters.
- **The store.** Each table is a sequence of rows in storage order.
- **Queries** are functions built from filter, sort and limit.
- **Inserts and updates** are methods. Each changes one table and leaves the others alone. Each reports the PostgreSQL error that a constraint raises:
  - unique violation, code 23505;
  - foreign key violation, code 23503;
  - not-null violation, code 23502.
- **Integrity.** `Database.Valid` holds every declared constraint. Every writer preserves it.
- **Foreign functions.** bcrypt `hash`/`compare` and JWT signing are function-valued parameters.
- **Handler results.** A REST handler's result is what it passes to `next`. `Envelope.Finish` shows the reply that results.

### Behaviour of the code worth knowing

- **Chat uniqueness is on the ordered pair.** The constraint `unique_user_pair` is declared on `(user1, user2)` (backend/src/db/schema/chats.ts:27-29). A chat (B, A) next to an existing (A, B) raises no violation (`ChatService.ReversedPairIsNoDuplicate`).
- **The user search lowers only the query.** The query is trimmed and lower-cased, and the stored username and email are compared with `like` as they are stored (backend/src/services/users.service.ts:64-73). PostgreSQL's `LIKE` is case-sensitive. See Findings.
- **A duplicate chat answers 500; a duplicate account email answers 400.** Both services re-throw SQLSTATE 23505 as a plain `Error("Duplicate entry")` (backend/src/services/chat.service.ts:82-83, backend/src/services/users.service.ts:105-106). That error has a stack and no `status`, so the response middleware picks 500 (backend/src/middlewares/response.middleware.ts:26; `Envelope.FinishServiceError`). Signup looks the email up first and refuses an existing one with 400 "User already exists" (backend/src/controllers/auth.controller.ts:66-69; `AuthController.Signup`). So an account reaches "Duplicate entry", and 500, only when the insert itself raises 23505. In the model that happens when the drawn id is taken. Two concurrent signups with the same email would also reach it, but the model runs requests one at a time (see "Transport" under "## Left out").
- **The relayed message's `id` is undefined.** The relay reads `id` off the insert's result (backend/src/socket/room.ts:52-54). The insert has no returning clause (backend/src/services/message.service.ts:64), so its result is a row count (`Relay.ResultId`). The relayed object is the one built at backend/src/socket/room.ts:39-48, so it has no `createdAt` either.
- **Signup forwards no data; login forwards the whole user row.** Signup calls `next(req)` without setting `responseData` (backend/src/controllers/auth.controller.ts:78). Login puts the user row, password hash included, in `responseData` (backend/src/controllers/auth.controller.ts:41-44).
- **The send callback never runs.** The composer passes a callback as the last argument of `send-message` (frontend/src/views/ChatView.tsx:118-121). The relay's listener takes only the payload (backend/src/socket/room.ts:112). The sender's own copy arrives through `socket.emit` (backend/src/socket/room.ts:60).
- **A failed send re-throws into a promise nobody awaits.** After a failed step the relay emits the error to the sender and re-throws (backend/src/socket/room.ts:63-66). The listener returns that rejected promise to socket.io, which does not await it (backend/src/socket/room.ts:112). The server installs no `unhandledRejection` handler (backend/src/server.ts:1-39). The model ends the handler with a `Failure` result; "## Left out" says what it does not capture.
- **There is no membership check on send or typing.** The handlers use the payload's `chatId` and `userId` as given (backend/src/socket/room.ts:35-104). `Relay.Relay.SendMessage` and the typing methods require only the class invariant.

## Model

| member | source | states |
|---|---|---|
| Wire.FromRows | backend/src/socket/room.ts:17-18 | the history sent to a joiner has one message object per stored row, in the same order, with every column |
| Sql.SubstringPattern | backend/src/services/users.service.ts:64-73 | for a wildcard-free term q, `s LIKE '%q%'` holds exactly when q occurs in s as a contiguous, case-sensitive substring |
| JsString.Trim | backend/src/services/users.service.ts:64 | the trimmed query is a slice of the input: everything removed at either end is ECMAScript whitespace, and the result neither starts nor ends with whitespace |
| JsString.ToLower | backend/src/services/users.service.ts:64 | same length; every character is lowered, only A-Z change |
| MessageService.GetAll | backend/src/services/message.service.ts:24-34 | the result holds exactly the messages of the chat, each as often as it is stored (a multiset equality); no order is imposed |
| MessageService.GetLast | backend/src/services/message.service.ts:42-54 | at most one row; empty iff the chat has no message; otherwise a message of that chat whose createdAt is at least every other message's in the chat |
| MessageService.InsertError | backend/src/db/schema/messages.ts:20-23 | an insert is refused iff the id is taken (unique violation) or the chat does not exist (foreign key violation) |
| MessageService.CreateNew | backend/src/services/message.service.ts:62-68 | on success exactly one row is appended, with status 0 unless given and createdAt = now, and the result is a row count of 1 with no id; on failure the table is unchanged and the driver's error is passed on unchanged; the other tables never change and every constraint still holds |
| ChatService.GetOne | backend/src/services/chat.service.ts:24-33 | returns a chat with that id from the table, or None exactly when no chat has it |
| ChatService.GetOneFindsTheChat | backend/src/services/chat.service.ts:24-33 | with unique ids, the lookup of a stored chat's id returns that chat |
| ChatService.SortNewestFirstCorrect | backend/src/services/chat.service.ts:52 | ORDER BY updatedAt DESC yields a permutation of its input that is non-increasing in updatedAt |
| ChatService.TopChats | backend/src/services/chat.service.ts:43-54 | min(20, n) chats for u's n chats, each at most as often as among the heads of u's chats (multiset inclusion), newest first, each the head of a stored chat in which u is user1 or user2 |
| ChatService.TopChatsComplete | backend/src/services/chat.service.ts:51-53 | if u has at most 20 chats all of them are returned (multiset equality); otherwise exactly 20, each at most as often as among u's chats, and every omitted chat of u is no newer than every returned one |
| ChatService.LastMessage | backend/src/services/chat.service.ts:58-61 | None iff the chat has no message, otherwise a newest message of that chat |
| ChatService.GetUserChats | backend/src/services/chat.service.ts:41-70 | one entry per top chat, in the same order, with the chat's columns and its latest message or null |
| Schema.Translate | backend/src/services/chat.service.ts:81-85 | a unique violation becomes "Duplicate entry"; every other driver error is passed on unchanged |
| ChatService.CreateNew | backend/src/services/chat.service.ts:78-87 | on success one row (id, user1, user2, now, now) is appended; a missing participant, a taken id or an existing ordered pair, or an unknown user is refused with the table unchanged (duplicates as "Duplicate entry"); the other tables never change and every constraint still holds |
| ChatService.ReversedPairIsNoDuplicate | backend/src/db/schema/chats.ts:27-29 | inserting (b, a) next to an existing (a, b) raises no constraint violation |
| ChatService.Touch | backend/src/services/chat.service.ts:98-101 | same rows in the same order; only updatedAt of the chat with that id becomes now; no other column or row changes |
| ChatService.UpdateTimestamp | backend/src/services/chat.service.ts:94-105 | on success the chats table is Touch of the old one (a missing id is not an error); on failure nothing changes; the other tables never change |
| UserService.GetOne | backend/src/services/users.service.ts:23-35 | returns a user with that id, or None exactly when there is none |
| UserService.GetOneByEmail | backend/src/services/users.service.ts:42-54 | returns a user whose email is e, or None exactly when no user has it |
| UserService.GetOneByEmailFindsTheUser | backend/src/db/schema/users.ts:18 | with unique emails, the lookup returns the one user holding the email |
| UserService.GetAll | backend/src/services/users.service.ts:87-93 | the whole table: every stored user exactly as often as it is stored (multiset equality), and no other |
| UserService.Normalise | backend/src/services/users.service.ts:64 | the normalised query has no upper-case letter and no whitespace at either end |
| UserService.SearchPattern | backend/src/services/users.service.ts:64 | the pattern is `%`, the normalised query, `%` |
| UserService.Matching | backend/src/services/users.service.ts:65-73 | the rows WHERE username LIKE p OR email LIKE p selects: exactly the stored users matching the pattern, each as often as it is stored, and no other row |
| UserService.GetUsersByQuery | backend/src/services/users.service.ts:62-81 | min(20, m) users for the m matching ones, each at most as often as it is stored (multiset inclusion), each matching the pattern in username or email |
| UserService.PatternIsTerm | backend/src/services/users.service.ts:64-73 | for a wildcard-free normalised query, a user matches the pattern iff its username or email contains the query as a case-sensitive substring |
| UserService.SearchFindsSubstrings | backend/src/services/users.service.ts:64-74 | for a wildcard-free term, the matching rows are exactly the users whose username or email contains the normalised query (as a multiset); every result is one of them; all of them are returned when at most 20 match, and exactly 20 otherwise |
| UserService.SearchMissesCapitalisedName | backend/src/services/users.service.ts:64-73 | a user named "Alice" is not found by the query "alice" |
| UserService.MatchingIgnoringCase | backend/src/services/users.service.ts:64-73 | corrected search: exactly the stored users whose lower-cased username or email matches the pattern, each as often as it is stored |
| UserService.GetUsersByQueryIgnoringCase | backend/src/services/users.service.ts:64-73 | corrected search: min(20, m) users for the m whose lower-cased username or email matches, each at most as often as it is stored |
| UserService.PatternIsTermIgnoringCase | backend/src/services/users.service.ts:64-73 | corrected search: for a wildcard-free normalised query, a user matches iff its lower-cased username or email contains the query |
| UserService.IgnoringCaseFindsSubstrings | backend/src/services/users.service.ts:62-81 | corrected search: the matching rows are exactly the users whose lower-cased username or email contains the normalised query (as a multiset); all of them are returned when at most 20 match, and exactly 20 otherwise |
| UserService.IgnoringCaseFindsCapitalisedName | backend/src/services/users.service.ts:68-74 | corrected search: "alice" finds the user named "Alice" |
| UserService.CreateNew | backend/src/services/users.service.ts:101-110 | on success one row is appended as given; a taken id or email is refused with "Duplicate entry" and nothing inserted; the other tables never change and every constraint still holds |
| Relay.RoomPeers | backend/src/socket/room.ts:57 | the audience of `socket.to(chatId)` is exactly the connected sockets that joined the chat other than the caller, in an order the model fixes as connection order, without repeats when the connections have none |
| Relay.Broadcast | backend/src/socket/room.ts:57 | one delivery of the event to each recipient, in order |
| Relay.FanOutExactlyOnce | backend/src/socket/room.ts:57-60 | the caller and every other member of the room receive the event exactly once; any other socket receives it zero times |
| Relay.ResultId | backend/src/socket/room.ts:54 | the id read off the insert result is always undefined |
| Relay.Persist | backend/src/socket/room.ts:52-53 | the message is inserted, then the chat's timestamp bumped only when the insert succeeded; each table ends as the steps that succeeded left it, and the error of the first failed step is returned |
| Relay.Relay.Connect | backend/src/socket/room.ts:110-115 | a new socket is registered with no rooms; nothing is emitted |
| Relay.Relay.Disconnect | backend/src/socket/room.ts:117-119 | the socket is dropped with its memberships; the store and the outbox are unchanged |
| Relay.Relay.JoinChat | backend/src/socket/room.ts:12-23 | the socket joins the room first and stays in it; then only the joiner gets the chat's stored messages, or, when the read fails, one error "Failed to join chat."; the store never changes |
| Relay.Relay.SendMessage | backend/src/socket/room.ts:35-68 | see "How the steps of a send are modelled" below |
| Relay.Relay.StartTyping | backend/src/socket/room.ts:79-87 | user-typing {userId, chatId} goes to the other room members and then to the caller; store and memberships unchanged |
| Relay.Relay.StopTyping | backend/src/socket/room.ts:96-104 | the same with user-stopped-typing |
| Relay.Relay.Handle | backend/src/socket/room.ts:110-115 | each client event reaches its handler with the fields of its payload, with that handler's effect |
| Envelope.ApiError | backend/src/utils/ApiError.ts:18-22 | an ApiError has a stack, its status and its message |
| Envelope.FromService | backend/src/services/users.service.ts:104-108 | a service's error has a stack and a message but no status |
| Envelope.Respond | backend/src/middlewares/response.middleware.ts:20-43 | success iff the first argument has no stack; status is error.status or 500 on error, req.responseStatus or 200 otherwise; message is req.message, else "Request failed" or "Request successfull"; data is req.responseData; error is the first argument's message; the HTTP status equals the envelope's |
| Envelope.ForwardedIsSuccess | backend/src/middlewares/response.middleware.ts:26-32 | next(req) always gives a success envelope, with req.message in its error field |
| Envelope.FinishForwarded | backend/src/middlewares/response.middleware.ts:26-31 | a handler that forwards its data answers 200 "Request successfull" with that data |
| Envelope.FinishApiError | backend/src/middlewares/response.middleware.ts:26-32 | an ApiError answers with its status, success false, "Request failed" and its message |
| Envelope.FinishServiceError | backend/src/middlewares/response.middleware.ts:26-32 | a service error answers 500 with its message |
| ChatsController.ContactIsTheOther | backend/src/controllers/chats.controller.ts:28 | in a chat of the requester the contact is the other participant |
| ChatsController.Enrich | backend/src/controllers/chats.controller.ts:27-38 | one entry per chat in order (id, contactId, the contact's username, lastMessage) when every contact exists; nothing at all when any is missing |
| ChatsController.GetUserChats | backend/src/controllers/chats.controller.ts:16-45 | a falsy requester id is refused with 403 "Forbidden" before any lookup; otherwise the entries have the service list's length and order, or the request fails as a whole with 404 "Contact not found" |
| ChatsController.ValidStoreFindsEveryContact | backend/src/controllers/chats.controller.ts:29-30 | with the chats table's foreign keys in force, the 404 never happens |
| ChatsController.CreateNewChat | backend/src/controllers/chats.controller.ts:58-76 | the requester is inserted as user1 and the body's contactId as user2, unchecked; the service's result or error is passed on |
| AuthController.Secret | backend/src/controllers/auth.controller.ts:38 | the signing secret is the configured one when non-empty, else "123" |
| AuthController.Login | backend/src/controllers/auth.controller.ts:18-49 | unknown email gives 404 "Cannot find an account for this email"; a null stored hash makes the comparison throw; a mismatch gives 401 "Invalid credentials" with no token; otherwise a token over {id, username: email} with the secret and "2d", and the user row |
| AuthController.LoginChecksTheOwner | backend/src/controllers/auth.controller.ts:24-44 | with unique emails, login is decided by the one user holding the email: 401 on a wrong password, otherwise 200 with that user and a token for their id and email |
| AuthController.Signup | backend/src/controllers/auth.controller.ts:62-82 | an existing email gives 400 "User already exists" and inserts nothing; otherwise the row (username, email, hash(password, 10)) is inserted and the request is forwarded with no data, or the service's error is passed on with nothing inserted |
| ChatView.Appended | frontend/src/views/ChatView.tsx:29-31 | receive-message adds exactly one element at the end and keeps every earlier one |
| ChatView.Step | frontend/src/views/ChatView.tsx:29-47 | what each socket event does to the message list and the typing indicator |
| ChatView.HistoryThenMessages | frontend/src/views/ChatView.tsx:29-35 | after a history the list is that history followed by every message received since, whatever was shown before |
| ChatView.RunWithoutHistory | frontend/src/views/ChatView.tsx:30 | without history events the list only grows at the end, by the received messages in order |
| ChatView.OwnTypingIgnored | frontend/src/views/ChatView.tsx:37-47 | typing events from the current user never move the indicator |
| ChatView.IndicatorShowsATypist | frontend/src/views/ChatView.tsx:37-41 | the indicator shows nobody, its initial value, or another user who sent a typing start |
| ChatView.Compose | frontend/src/views/ChatView.tsx:99-114 | the payload has the text and user; contentType image with the file exactly when the file is jpeg, png, gif or aivf, otherwise text and no file |
| ChatView.OtherFilesSentAsText | frontend/src/views/ChatView.tsx:107-114 | any other attachment is dropped and the message goes as text |
| ChatView.Composer.Join | frontend/src/views/ChatView.tsx:22-27 | with a socket, a chat and a user, join-chat is emitted and the list is emptied; otherwise nothing changes |
| ChatView.Composer.SendMessage | frontend/src/views/ChatView.tsx:97-125 | nothing is emitted or reset without a user, socket and chat; otherwise one send-message with the composed payload is emitted, and text becomes "", file undefined and isTyping false; the list is untouched |
| ChatListView.AsPayload | backend/src/socket/room.ts:39-54 | the relayed message read as the sidebar's payload has the chatId but no messageData |
| ChatListView.OnReceiveMessage | frontend/src/views/ChatListView.tsx:36-44 | length, order and every id are kept; only entries of the chat change, taking messageData as lastMessage and isTyping false |
| ChatListView.OnUserTyping | frontend/src/views/ChatListView.tsx:46-56 | length and order are kept; only the matching chat's entry, and only for another user, gets isTyping true |
| ChatListView.OnUserStoppedTyping | frontend/src/views/ChatListView.tsx:58-67 | the same with isTyping false |
| ChatListView.OwnTypingLeavesListAlone | frontend/src/views/ChatListView.tsx:51 | the current user's typing start or stop leaves the list exactly as it was |
| ChatListView.StartThenStop | frontend/src/views/ChatListView.tsx:46-67 | a start then a stop from another user leaves the chat not typing and every other entry untouched |
| ChatListView.LastMessageLost | frontend/src/views/ChatListView.tsx:36-40 | as written, a relayed message sets the matching entry's lastMessage to undefined |
| ChatListView.OnReceiveMessageCorrected | frontend/src/views/ChatListView.tsx:36-44 | corrected reducer: the payload itself becomes the chat's lastMessage; other entries untouched |
| ChatListView.ReceiveAllShowsLatest | frontend/src/views/ChatListView.tsx:37-43 | with the corrected reducer, after any stream of messages each entry shows the last message of its chat among them, or keeps its own |
| TagGroup.ModeOf | frontend/src/components/common/tags/TagGroup.tsx:18 | mode is single unless given |
| TagGroup.Toggle | frontend/src/components/common/tags/TagGroup.tsx:26-30 | a selected id is removed (every occurrence, the others in order); an unselected one is appended; no other id's membership changes |
| TagGroup.Click | frontend/src/components/common/tags/TagGroup.tsx:22-32 | single mode selects exactly the clicked id; multiple mode toggles it |
| TagGroup.ClickFlipsOnlyTheClicked | frontend/src/components/common/tags/TagGroup.tsx:41 | in multiple mode, a click flips the clicked tag's active state and no other tag's (in single mode, the default, a click always leaves exactly the clicked tag selected: `TagGroup.Click`) |
| TagGroup.TwoClicksRestore | frontend/src/components/common/tags/TagGroup.tsx:26-30 | in multiple mode, two clicks on an unselected id restore the original selection |
| TagGroup.TwoClicksOnSelected | frontend/src/components/common/tags/TagGroup.tsx:27-29 | in multiple mode, two clicks on a selected id leave the other ids in order and it once, at the end |

### How the steps of a send are modelled (`Relay.Relay.SendMessage`)

The steps run in this order:

1. An attachment, if present, is uploaded to `<chatId>/blob.jpeg`.
2. The message is inserted with the input's chatId, userId and text, status 0, and the upload's URL as `file` only when there is an attachment.
3. The chat's timestamp is bumped.

When all three succeed, every other member of the room and then the sender each receive one `receive-message` with the same message object.

When a step fails:

- the steps already done stay done: a failed bump leaves the message stored;
- no `receive-message` is emitted;
- the sender alone receives one error "Failed to send message.";
- the handler fails with that step's error.

## Left out

- **Transport.** The socket transport, room implementation, server bootstrap and routing are left out. Membership and delivery are modelled abstractly. Socket events and REST requests run to completion one at a time, with no interleaving across connections. The concurrent per-chat lookups are taken in sequence.
- **Authentication middleware.** The requester id is a parameter.
- **Read failures.** Query functions never fail. Infrastructure failure is modelled only on writes and on the relay's history read.
- **The SQL engine.** Queries follow what each statement means, not how the driver builds it. The error texts of `Schema.ErrorMessage` stand for PostgreSQL's and the driver's messages, which also name the table, column and constraint.
- **Metadata and logging.** Wall-clock time, request metadata (`_url`, `_method`, `_ip`, `_device`, `_timestamp`) and logging are not modelled.
- **Client effects and rendering.** The typing debounce timer, the effect that emits start-typing and stop-typing, and all rendering are not modelled.
- **Unrouted and pass-through controllers.** The messages controller (unrouted) and the user controller (pass-through) are not modelled.
- **Undefined request fields.** Request fields arriving as `undefined` (email or password missing from a login body, for example) are not modelled. The model takes them as strings.
- **Order of the history.** `getAll` has no `ORDER BY` (backend/src/services/message.service.ts:24-34), so PostgreSQL promises no order for the history sent to a joiner. `Relay.Relay.JoinChat` sends it in storage order. No proved property depends on that order.
- **Order of ties.** Rows with equal `updatedAt` are ordered as a stable insertion sort leaves them. PostgreSQL leaves that order unspecified.
- **Other database errors.** An id that is not a UUID makes PostgreSQL fail with an invalid-input error (SQLSTATE 22P02), which is not among the modelled errors. This covers a REST requester id, and the `chatId` or `userId` of a join-chat or send-message payload (backend/src/socket/room.ts:12-53). The model reaches the relay's failure branches only through its unavailability oracles and the insert's constraint errors.
- **Lost live id.** `Relay.ResultId` models the undefined id. A corrected relay that reads back the stored row is not modelled.
- JsString.ToLower: lowers only the ASCII letters A-Z. JavaScript's `toLowerCase` lowers every cased Unicode letter. The theorems about the search hold for this ASCII fragment.
- **Which 20 users.** `LIMIT 20` without `ORDER BY` leaves open which matching rows come back (backend/src/services/users.service.ts:74). `UserService.GetUsersByQuery` takes the first 20 in storage order.
- **Wildcards in the query.** The search does not escape `%` or `_` in the user's query, so they act as `LIKE` wildcards. `Sql.Like` models them. The substring theorems (`UserService.SearchFindsSubstrings` and its corrected twin) require a query free of them.
- **The rejected send promise.** The model treats the promise that a failed send rejects as unobserved. It does not model what Node.js does with an unhandled rejection: since version 15 it ends the process by default, dropping every connection.
- ChatService.SortNewestFirstCorrect: fixes one order among chats with equal `updatedAt`, where PostgreSQL promises none.

## Findings

| source | as written | input that shows it | evidently intended | confidence | as-written member | corrected member |
|---|---|---|---|---|---|---|
| backend/src/services/users.service.ts:64-73 | only the query is lower-cased; the stored username and email are compared with case-sensitive LIKE | a user named "Alice" searched for with "alice" is not found | a case-insensitive match, as the lower-casing of the query suggests | not executed | UserService.SearchMissesCapitalisedName | UserService.GetUsersByQueryIgnoringCase |
| frontend/src/views/ChatListView.tsx:36-40 | the sidebar reads `messageData` from the receive-message payload, but the relay sends the message object itself (backend/src/socket/room.ts:39-60), which has no such property | any message relayed to a chat shown in the sidebar | the received message becomes the chat's last message | not executed | ChatListView.LastMessageLost | ChatListView.OnReceiveMessageCorrected |
