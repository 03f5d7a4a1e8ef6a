# opentalk: conversation identifiers and login, modelled in Dafny

This project models two small pieces of the opentalk chat application.

- **Conversation identifiers and the chat controller** (static/js/app/app.js).
  `createConversationID` names the conversation ("inbox") among two or more
  users. It sorts their ids, joins them with `_` and puts `d_` in front for a
  direct (two-party) chat or `g_` for a group. Fewer than two ids throws
  `Invalid arguments`. `ChatroomCtrl` keeps the open conversation id.
  `startChattingWithFriend` opens the direct conversation with a friend and
  requests its history. `sendChatMessage` posts a message to the open
  conversation, unless none is open or the message is empty.
- **The login/registration rule** of `AuthHandler.post` (app/app.py). The
  users table is a map from user id to user name. A request without a user
  id fails. A known user is logged in. An unknown user with a name is created,
  then logged in. An unknown user without a name gets a 400 error.

Modules:

- `Wrappers` holds `Option` (JavaScript `null`, Python `None`) and `Result` (a
  value or a thrown error).
- `Lexicographic` holds the string order of JavaScript's comparator-less
  `Array.prototype.sort()`, proved to be a total order. The sort itself is
  a function proved to return a sorted permutation of its input, and that
  result is proved unique.
- `ConversationId` holds `CreateConversationId` and the lemmas about it.
- `Chatroom` holds the `ChatroomCtrl` class. Its `$http` calls are recorded
  as `Request` values appended to a `requests` field.
- `Auth` holds the `UserStore` class over the users map. Its `AuthPost`
  method models `AuthHandler.post` and returns the outcome and the session
  cookie it sets.

`createConversationID` takes a list of arguments and keeps duplicates, so
`(a, a)` gives `d_a_a`; `CreateShape` states this.

## Model

| member | source | states |
|---|---|---|
| Lexicographic.LexLeReflexive | static/js/app/app.js:77 | every id sorts at or before itself |
| Lexicographic.LexLeTotal | static/js/app/app.js:77 | any two ids are comparable in the sort order |
| Lexicographic.LexLeAntisymmetric | static/js/app/app.js:77 | ids that sort at or before each other are equal, so sorting leaves no tie to break |
| Lexicographic.LexLeTransitive | static/js/app/app.js:77 | the sort order is transitive |
| Lexicographic.SortedUnique | static/js/app/app.js:77 | two sorted arrangements of the same multiset of ids are the same sequence |
| Lexicographic.Insert | static/js/app/app.js:77 | inserting an id into a sorted list keeps it sorted and adds exactly that id |
| Lexicographic.Sort | static/js/app/app.js:77 | `userIDs.sort()` yields a sorted permutation of the ids |
| ConversationId.CreateConversationId | static/js/app/app.js:71-84 | fails exactly when fewer than two ids are given; otherwise the id starts with a one-letter tag and `_`, the tag is `d` exactly for two ids and `g` exactly for more |
| ConversationId.CreateShape | static/js/app/app.js:72-83 | for two or more ids the result is the tag followed by the ids in sorted order, each as often as supplied, joined by `_` |
| ConversationId.CreatePermutationInvariant | static/js/app/app.js:77 | any reordering of the arguments gives the same identifier, or the same error |
| ConversationId.CreateDirect | static/js/app/app.js:77-79 | two ids give `d_` + smaller + `_` + larger, the same for (A, B) and (B, A) |
| ConversationId.CreateGroupOfThree | static/js/app/app.js:77-83 | three ids give `g_` followed by all three in sorted order |
| ConversationId.JoinInjective | static/js/app/app.js:79-82 | joining ids that contain no `_` is injective |
| ConversationId.CreateCanonical | static/js/app/app.js:77-83 | for two or more ids without `_`, two calls give the same identifier if and only if they get the same multiset of ids |
| ConversationId.CreateCollidesOnSeparator | static/js/app/app.js:79 | ids containing `_` can collide: (`x_y`, `z`) and (`x`, `y_z`) both give `d_x_y_z` |
| ConversationId.CreateTooFewExample | static/js/app/app.js:73-74 | no ids or one id is the `Invalid arguments` error |
| ConversationId.CreateDirectExamples | static/js/app/app.js:77-79 | (`b`, `a`) and (`a`, `b`) both give `d_a_b`; (`a`, `a`) gives `d_a_a` |
| Chatroom.ChatroomCtrl.constructor | static/js/app/app.js:7-10 | the controller, whose session user may be absent, starts with no open conversation, having requested the friend list |
| Chatroom.ChatroomCtrl.StartChattingWithFriend | static/js/app/app.js:19-26 | with no logged-in user the handler throws and nothing changes; otherwise the open conversation becomes the two-party identifier of the current user and the friend, in either order; it is a `d_` id; one history request for it is issued |
| Chatroom.ChatroomCtrl.SendChatMessage | static/js/app/app.js:28-42 | no request when the conversation id is null or empty or the message is empty; otherwise exactly one POST to `/api/chats?inbox=<id>` with the message as its body |
| Chatroom.ChatroomCtrl.OpenIdIsNeverEmpty | static/js/app/app.js:29 | in a valid controller the open conversation id is null or non-empty |
| Auth.UserStore.constructor | app/app.py:129-130 | the users table starts with the rows already in the database file, which `create_all` keeps |
| Auth.UserStore.AuthPost | app/app.py:21-38 | a missing or empty `user_id` is an error with no change; a known user gets `ok` and the cookie with the store unchanged, and a supplied name is ignored; an unknown user with a name is added as exactly one entry, then gets `ok` and the cookie; an unknown user without a name gets the 400 error with no change and no cookie; the cookie is set exactly when the outcome is `ok`; if every stored id and name was non-empty before, it still is |

## Left out

- The realtime event-stream client, the event dispatcher, the notification enrichment and the parser from an identifier back to its participants do not appear in the modelled source files and are not part of this model.
- Lexicographic.LexLe: JavaScript compares strings by UTF-16 code units, while the model compares Dafny characters (Unicode scalar values). The two orders differ only between characters above U+FFFF and characters from U+E000 to U+FFFF.
- ConversationId.CreateConversationId: the arguments are modelled as strings. JavaScript would also accept `undefined` (sorted last and joined as an empty string) or numbers (sorted by their string form).
- Chatroom.ChatroomCtrl.StartChattingWithFriend: the session user is read once, when the controller is created, and is assumed not to change while the controller lives; a login in another view during that time is not modelled. A session user present but without an `id` is not modelled either.
- Chatroom.ChatroomCtrl.SendChatMessage: the message is modelled as a string, so "falsy" means empty. Other falsy JavaScript values (`null`, `undefined`) are not modelled.
- What the server answers to each recorded request is left out. This covers the friend list stored by `getFriendList`, the messages stored by `showConversation` and the logged answer in `sendChatMessage`: these are promise callbacks that update the UI or only log.
- `LoginCtrl`, the Angular module, route configuration and dependency injection, and static/js/system.config.js are UI wiring and configuration. Console logging is left out too.
- Auth.UserStore.AuthPost: `user_id` and `username` are modelled as optional strings. JSON numbers, booleans or objects in those fields are not modelled. Neither is the length limit of the users table columns, which SQLite does not enforce.
- The cookie is modelled as the plain user id. Signing by `set_secure_cookie` is left out, as are the status code the framework gives an uncaught exception and JSON encoding of the `ok` body.
- The other request handlers (`ApiHandler`, `FriendsHandler`, `ConversationHandler`), the rest of application setup (routes, static files, cookie secret), server start-up and the SQLAlchemy sessions and commits in app/db.py are framework I/O. The users table is modelled as a map. Concurrent requests are not modelled.
