# NP-Compete room hub in Dafny

This project models the room logic of NP-Compete, a site where users compete on
LeetCode problems in shared rooms, and proves properties of that model. It covers:

- **Room admission and membership on the server** (module `ServerRooms`):
  - the room validator;
  - the read paths that strip passwords;
  - room creation;
  - the member-list updates `addRoomMember` and `removeRoomMember`;
  - the admission check `verifyUserCanJoinRoom`, run when a WebSocket connection opens.
- **The connection hub** (module `ServerHub`, class `Hub`):
  - the set of open connections;
  - the connection, message, pong and close handlers;
  - fan-out to a room, with or without the sender;
  - classification of inbound messages;
  - the heartbeat reaper.
- **The Redis store** (module `RedisStore`, class `RedisCache`):
  - the set of room records;
  - the set of OAuth state nonces.
- **The earlier backend revisions**:
  - room endpoints (module `BackendRooms`);
  - fan-out that excludes the sender (module `BackendSockets`).
- **HTTP error replies** (module `Errors`).

Shared pieces:

- `Common`: `Option`, truthiness, `filter`, `sAdd`.
- `RoomTypes`: the room record and password stripping.
- `Messages`: the WebSocket message envelope.
- `Sockets`: connections, output effects and recipient lists.

Modelling choices:

- **Sockets and effects.** Each socket is a record with an identity, `roomId`, `username` and `isAlive`. Every `send`, `close`, `terminate` and `ping` the server performs is appended to an output log (`Hub.out`).
- **Atomic events.** Each `ws` event is one atomic method of `Hub`: connection, message, pong and close. A heartbeat tick is two passes: the synchronous run of the `forEach`, which pings the live connections, and then the suspended callbacks of the dead connections, which remove their members and terminate them (`Hub.PingPass`, `Hub.ReapPass`).
- **Unique uuids.** `crypto.randomUUID` is taken to return a uuid that no stored room carries (a precondition of `ServerRooms.CreateRoom`). With that, room creation and every member update keep the uuids of the store unique, and `Hub.Valid` carries that fact.
- **The room store.** The Redis set "rooms" is a duplicate-free sequence of records in `sMembers` order. Two records are the same set member exactly when they are equal values. `sAdd` of an equal record returns 0 and changes nothing.
- **Oracles are parameters**, because nothing here performs I/O:
  - argon2 `hash`/`verify` and `crypto.randomUUID`;
  - `JSON.parse`, reduced to the datatype `Parsed`;
  - the user table behind `getUserById`, a set of usernames (the function queries by username);
  - the LeetCode question fetch, reduced to `QuestionOutcome`.
- **Close and the client list.** When a connection closes, the `ws` library removes it from `clients` before the server's own close handler runs. For that reason userLeft goes to the members that remain.
- **Terminate and close are separate.** A reaped connection is terminated by the tick. Its removal from `clients` is a separate later `Close` step.

The model follows the code as written, where it behaves as follows:

- The comment at server/src/middlewares/rooms.ts:170 says the room is deleted when its *last* member leaves. The condition at line 171 deletes the room whenever it has *exactly one* member, whichever username is removed. `DoubleRemovalDeletesOccupiedRoom` shows the consequence: the reaper and the close handler together delete a room that still has a member.
- Reaping does not send userLeft. The tick only removes the member and terminates the socket; userLeft is sent only if a close event follows.
- Teardown is not idempotent. The reaper and the close handler each call `removeRoomMember`, so membership removal can happen twice for one connection. Duplicate members, which `push` allows, are all removed at once (`DuplicateMemberLeavesEmptyRoom`).
- `userSubmit` carries the code in its `message` field, not in `code`.

## Model

| member | source | states |
|---|---|---|
| Common.RemoveAll | backend/src/components/redis.ts:70 | `filter(member => member !== x)`: the result holds exactly the elements other than `x`, is no longer than the input, and is the input itself when `x` is absent |
| RoomTypes.Stripped | server/src/middlewares/rooms.ts:22 | `delete room.password`: the result has no password and differs from the record in nothing else |
| RoomTypes.StrippedOption | server/src/middlewares/rooms.ts:52-58 | a missing room stays missing; a found room comes back without its password and otherwise the same |
| Errors.InternalServerError | backend/src/utilities/errors.ts:3-9 | status 500; message "Internal Server Error", followed by ": " and the detail when a non-empty detail is given |
| Errors.BadRequestError | backend/src/utilities/errors.ts:11-18 | status 400; the same rule with prefix "Bad Request" |
| Errors.UnauthorizedError | backend/src/utilities/errors.ts:20-27 | status 401; the same rule with prefix "Unauthorized" |
| Errors.ComposeDetail | backend/src/utilities/errors.ts:4-7 | every message starts with its prefix, and reading the detail back gives the non-empty detail supplied, else none |
| Errors.EmptyDetailIsNoDetail | backend/src/utilities/errors.ts:3-27 | for each helper, an empty-string detail gives the same reply as no detail |
| Common.FirstIndex | backend/src/components/redis.ts:37-39 | the position of the first element with the key, every earlier one has another key, and `|s|` when none has it |
| RedisStore.FindRoom | backend/src/components/redis.ts:34-42 | the lookup is empty exactly when no record has the uuid; a found record is stored and has the uuid |
| Common.SetAdd | backend/src/components/redis.ts:30-32 | after `sAdd`, the members are the old ones plus the new one |
| RedisStore.FindUnique | backend/src/components/redis.ts:34-42 | with unique uuids, looking up a stored record's uuid yields that record |
| Common.SetAddShape | backend/src/components/redis.ts:30-32 | adding an identical record changes nothing; a new record is appended; a duplicate-free set stays duplicate-free |
| RedisStore.RemovedByUuidShape | backend/src/components/redis.ts:44-50 | no match leaves the store unchanged; a match removes exactly the first matching record and keeps the others in order |
| RedisStore.RemovedByUuidGone | backend/src/components/redis.ts:44-50 | with unique uuids, afterwards the store holds exactly the records with other uuids |
| RedisStore.UpdatedSpec | backend/src/components/redis.ts:52-56 | after `updateRoom(r)`: the old record for `r.uuid` is gone, `r` is appended, the lookup yields `r`, every other uuid's lookup is unchanged, and uuids stay unique |
| RedisStore.MemberAddedSpec | backend/src/components/redis.ts:58-65 | an unknown uuid changes nothing; otherwise the room's members gain the user id at the end, and other rooms are unchanged |
| RedisStore.MemberDroppedSpec | backend/src/components/redis.ts:67-74 | an unknown uuid changes nothing; otherwise every occurrence of the user id is filtered out and the room is kept even if empty; other rooms are unchanged |
| RedisStore.RedisCache.AddState | backend/src/components/redis.ts:12-14 | the nonce set gains the state; returns 1 exactly when it was new |
| RedisStore.RedisCache.HasState | backend/src/components/redis.ts:16-18 | true exactly when the state is in the nonce set |
| RedisStore.RedisCache.RemoveState | backend/src/components/redis.ts:20-22 | the nonce set loses the state and nothing else; returns 1 exactly when it was there |
| RedisStore.RedisCache.GetRooms | backend/src/components/redis.ts:24-28 | every stored record, in store order |
| RedisStore.RedisCache.AddRoom | backend/src/components/redis.ts:30-32 | set semantics: an identical record returns 0 and leaves the store unchanged, a new one returns 1 and is added |
| RedisStore.RedisCache.GetRoomByUuid | backend/src/components/redis.ts:34-42 | the loop returns the first record with the uuid, or none |
| RedisStore.RedisCache.RemoveRoomByUuid | backend/src/components/redis.ts:44-50 | removes the first record with the uuid; returns 0 when none matched, else 1; unique uuids stay unique |
| RedisStore.RedisCache.UpdateRoom | backend/src/components/redis.ts:52-56 | remove-by-uuid, then add; returns what the add returns; unique uuids stay unique |
| RedisStore.RedisCache.AddRoomMember | backend/src/components/redis.ts:58-65 | store becomes `MemberAdded`; returns 0 when the room is absent, and 1 when it is found in a store with unique uuids; unique uuids stay unique |
| RedisStore.RedisCache.RemoveRoomMember | backend/src/components/redis.ts:67-74 | store becomes `MemberDropped`; returns 0 when the room is absent, and 1 when it is found in a store with unique uuids; unique uuids stay unique |
| ServerRooms.ValidateInputtedRoom | server/src/middlewares/rooms.ts:244-259 | accepted exactly when the name has 1 to 20 characters, the size is 1 to 10, and a non-empty password has 6 to 20 characters |
| ServerRooms.GetRooms | server/src/middlewares/rooms.ts:17-27 | every stored room, in order, with its password deleted; no returned room has a password |
| ServerRooms.GetRoomByUuid | server/src/middlewares/rooms.ts:49-59 | the first room with the uuid, stripped of its password; none exactly when no room has the uuid |
| ServerRooms.CreateRoom | server/src/middlewares/rooms.ts:79-121 | an invalid body gets 400 and nothing is stored. A failed question fetch gets 400 and nothing is stored. Otherwise the stored record has the fresh uuid, owner = session username, no members, and the hash of a supplied password. A refused insert gets 500. A created room is returned without its password. With a fresh uuid, unique uuids stay unique |
| ServerRooms.NewRecord | server/src/middlewares/rooms.ts:87-93 | the record keeps name, size and question, takes the fresh uuid, owner = session username and no members; a non-empty password is replaced by its hash and any other is kept |
| ServerRooms.AddRoomMember | server/src/middlewares/rooms.ts:158-164 | pushes the username, duplicates allowed, and writes the room back; 0 and no change when the room is absent; unique uuids stay unique |
| ServerRooms.RemoveRoomMember | server/src/middlewares/rooms.ts:166-177 | store becomes `MemberRemoved`; 0 when the room is absent; unique uuids stay unique |
| ServerRooms.MemberRemovedSpec | server/src/middlewares/rooms.ts:166-177 | an unknown room is left alone. A room with exactly one member disappears, whichever username is passed. Otherwise every occurrence of the username is dropped, the remaining members keep their order, and the room is kept. Other rooms are unchanged |
| ServerRooms.DoubleRemovalDeletesOccupiedRoom | server/src/middlewares/rooms.ts:170-173 | with members [a, b], removing a leaves [b]; removing a again deletes the room although b is still in it |
| ServerRooms.DuplicateMemberLeavesEmptyRoom | server/src/middlewares/rooms.ts:162 | with members [a, a], removing a empties the list and keeps the room, and a second removal keeps it too |
| ServerRooms.Split | server/src/middlewares/rooms.ts:191 | `split("/")` yields at least one part, and no part contains the separator |
| ServerRooms.SplitJoin | server/src/middlewares/rooms.ts:191 | joining the parts with the separator gives back the URL |
| ServerRooms.SplitNoSeparator | server/src/middlewares/rooms.ts:191 | a string without the separator splits into itself alone |
| ServerRooms.SplitAtSeparator | server/src/middlewares/rooms.ts:191 | splitting `a/b`, where `a` has no separator, gives `a` followed by the parts of `b` |
| ServerRooms.UrlRoomUuidOfPath | server/src/middlewares/rooms.ts:191 | the room uuid of `/uuid` and of `/uuid/rest` is `uuid`; a URL without `/` has none |
| ServerRooms.AdmissionFailure | server/src/middlewares/rooms.ts:190-238 | the first failing check decides the error, in the order: already bound, no uuid, no room, password missing, password wrong, full (`members.length >= size`). Admission is allowed exactly when all checks pass |
| ServerRooms.VerifyUserCanJoinRoom | server/src/middlewares/rooms.ts:190-238 | true exactly when no check fails, and then nothing is sent. A refusal sends exactly one error, that of the first failing check, then closes the socket. Success implies the room exists, is not full, and a password room got a non-empty string header that the verifier accepted |
| ServerHub.Route | server/src/components/websocket.ts:109-154 | `code` goes to the room except the sender, carrying the payload's code and language. `userSubmit` goes to the whole room, with the code in `message`. Anything else is chat with the raw text to the whole room. The username is always the resolved one |
| ServerHub.TickClients | server/src/components/websocket.ts:10-21 | after a tick every connection is in place with `isAlive` cleared |
| ServerHub.UserMessageRecipients | server/src/components/websocket.ts:105-155 | an unknown user gets only "User not found" and nothing is broadcast. An empty stored name sends nothing. Otherwise a send reaches exactly the room's connections, leaving out the sender only for `code`, and it carries the classified message with the server-resolved username |
| ServerHub.PresenceRecipients | server/src/components/websocket.ts:91-103 | userJoined reaches exactly the room's connections other than the newcomer; userLeft reaches exactly the room's connections |
| ServerHub.TickPingsExactly | server/src/components/websocket.ts:11-19 | the synchronous pass of a tick pings exactly the live connections |
| ServerHub.TickTerminatesExactly | server/src/components/websocket.ts:12-16 | the resumed callbacks of a tick terminate exactly the dead connections |
| ServerHub.TickEffectsExactly | server/src/components/websocket.ts:10-21 | a tick terminates exactly the connections whose `isAlive` is false and pings exactly the live ones; it sends nothing else, and no ping follows a termination |
| ServerHub.SecondTickTerminates | server/src/components/websocket.ts:12-19 | a connection alive at a tick that never pongs is pinged and not terminated then, and is terminated and not pinged at the next tick |
| ServerHub.RemovedAtIsGone | server/src/components/websocket.ts:35-38 | after the closed connection is removed, no connection with its identity remains, and identities stay distinct |
| ServerHub.Hub.SendMessageToRoom | server/src/components/websocket.ts:58-68 | one send to each connection bound to the room, sender included, in client order |
| ServerHub.Hub.SendMessageToRoomExcept | server/src/components/websocket.ts:70-81 | the same sends, minus the one to the given socket |
| ServerHub.Hub.GetUsername | server/src/components/websocket.ts:157-168 | returns the resolved username; sends "User not found" to the connection exactly when the lookup fails |
| ServerHub.Hub.SendUserJoinEvent | server/src/components/websocket.ts:91-96 | appends userJoined to the room except the newcomer, or only the lookup error |
| ServerHub.Hub.SendUserLeftEvent | server/src/components/websocket.ts:98-103 | appends userLeft to the whole room, or only the lookup error |
| ServerHub.Hub.SendUserMessage | server/src/components/websocket.ts:105-155 | appends the classified message to its recipients, or only the lookup error |
| ServerHub.Hub.Connect | server/src/components/websocket.ts:23-32 | on refusal the connection stays unbound with `isAlive` false, gets one error and is closed, and the store is unchanged. On success it is bound to the URL's room with `isAlive` true and the session username, that username is appended to the room's members, and userJoined goes to the room except the newcomer |
| ServerHub.Hub.Register | server/src/components/websocket.ts:23 | a new connection joins `clients` at the end with a fresh identity, unbound and with `isAlive` false; identities stay distinct and below the next one |
| ServerHub.Hub.Admit | server/src/components/websocket.ts:26-32 | the newest connection is bound to the room with `isAlive` true and the session username, the rest of `clients` is untouched, the username is appended to the room's members, and userJoined goes to the room except the newcomer |
| ServerHub.Hub.Message | server/src/components/websocket.ts:41-43 | only an admitted connection's message is handled, as `sendUserMessage` on its own room |
| ServerHub.Hub.Pong | server/src/components/websocket.ts:46 | an admitted connection's `isAlive` is set to true; nothing else changes |
| ServerHub.Hub.Close | server/src/components/websocket.ts:35-38 | the connection leaves `clients`. An admitted one is removed from its room's members, and userLeft goes to the room's remaining connections. A connection already gone causes nothing, so a repeated close acts once |
| ServerHub.Hub.PingAt | server/src/components/websocket.ts:12-19 | the callback's synchronous part on one connection: a live one has `isAlive` cleared and is pinged; a dead one is left as it is and nothing is sent; the rest of the list is untouched |
| ServerHub.Hub.Reap | server/src/components/websocket.ts:14-15 | the resumed callback of a dead connection: an admitted one's member is removed from its room, then the connection is terminated; uuids stay unique |
| ServerHub.Hub.PingPass | server/src/components/websocket.ts:11-20 | the synchronous run of the `forEach`: every `isAlive` is cleared and the live connections are pinged in iteration order |
| ServerHub.Hub.ReapPass | server/src/components/websocket.ts:13-16 | the suspended callbacks resumed one after another in iteration order: each dead admitted connection's member is removed, and each dead connection is terminated |
| ServerHub.Hub.Tick | server/src/components/websocket.ts:10-21 | clears every `isAlive`; pings the live connections, then terminates the dead ones; removes each dead admitted connection's user from the store (one after another, see "Left out") |
| Sockets.SendError | server/src/components/websocket.ts:87-89 | one frame to that connection only: an error event carrying the text as its message and no other field |
| Sockets.Sends | server/src/components/websocket.ts:83-85 | one send per recipient, in order; a send of `m'` to `x` occurs exactly when `x` is a recipient and `m'` is the message |
| Sockets.RecipientsExactly | server/src/components/websocket.ts:63-80 | `x` is a recipient exactly when some connection with identity `x` is bound to the room and `x` is not the excluded one |
| Sockets.RecipientsOnce | server/src/components/websocket.ts:63-80 | with distinct identities each recipient is sent to exactly once |
| Sockets.RecipientsExcept | server/src/components/websocket.ts:70-81 | excluding a socket removes exactly that socket from the room's recipients |
| BackendSockets.SendMessageToRoom | backend/src/components/websocket.ts:3-14 | recipients are exactly the room's clients minus the sender, each once when identities are distinct. No send goes to the sender or outside the room. Every payload is forwarded unchanged |
| BackendRooms.ValidateRoom | backend/src/components/rooms.ts:73-88 | accepted exactly when the name has 1 to 20 characters, the size is 1 to 10, and a non-empty password has 6 to 20 characters |
| BackendRooms.ValidatorsAgree | backend/src/components/rooms.ts:73-88 | the backend validator and the server validator accept the same rooms |
| BackendRooms.Stripped | backend/src/components/rooms.ts:24 | no password, nothing else changed |
| BackendRooms.NewRecord | backend/src/components/rooms.ts:38-45 | the stored record keeps name and size, and takes the fresh uuid and owner = session userId. A truthy password is replaced by its hash; any other password is kept as it was |
| BackendRooms.RoomSet.Members | backend/src/components/rooms.ts:18 | `sMembers` returns the stored records |
| BackendRooms.RoomSet.Add | backend/src/components/rooms.ts:48-51 | set semantics; returns 1 exactly when the record was new |
| BackendRooms.GetRooms | backend/src/components/rooms.ts:17-29 | every stored room, in order, without its password |
| BackendRooms.GetRoom | backend/src/components/rooms.ts:62-71 | the first room with a matching uuid, password included; none exactly when no room matches |
| BackendRooms.CreateRoom | backend/src/components/rooms.ts:31-60 | an invalid body gets 400 and nothing is written. A valid one is stored as `NewRecord`. A refused insert gets 500, never 201. A created room carries the fresh uuid and session owner, without password |

## Left out

- OAuth flows, sessions and the upgrade handler that refuses a connection without a session username: these are network calls and session plumbing. The hub takes the session username as a parameter of `Connect`.
- argon2, `crypto.randomUUID`, `JSON.parse`/`JSON.stringify`, the ORM user lookup: foreign code, modelled as parameters. Record equality stands for equality of the JSON strings, so key order is not modelled.
- The LeetCode calls `getRoomQuestion`, `getSubmissionResult` and `handleSubmit`: HTTP I/O. The call site of `handleSubmit` is commented out. The outcome of `getRoomQuestion` is the `QuestionOutcome` parameter of `ServerRooms.CreateRoom`.
- `patchRoom` and the `getRoom` HTTP handler of server/src/middlewares/rooms.ts: route handlers outside the room hub. Their store operations (`getRoomByUuid`, `updateRoom`) are modelled.
- Express and `ws` wiring, `setInterval` timing, clearing the interval when the server closes, console logging, and the client pages: these are wiring, timing and UI.
- Concurrency: each handler is one atomic step. The await gaps are not modelled, for example between the admission check and `addRoomMember`, or between concurrent handlers. Under such interleavings the uniqueness of room uuids that the model keeps can fail.
- Whether `terminate` is followed by a close event: in the model such a close is a separate `Hub.Close` step, which may or may not be taken.
- String lengths count `char`s, not UTF-16 code units. Room sizes are integers, and a non-numeric `size` is not modelled.
- ServerRooms.CreateRoom: a failed question fetch whose message is empty is not caught by `if (error.message)`. The model then stores the room with no question, whereas the source would read the fields of the error object.
- ServerRooms.AddRoomMember: the return value is stated only for an absent room; when the room is found it is whatever `updateRoom` returns.
- RedisStore.RedisCache.AddRoomMember: the return value 1 is stated only for stores whose uuids are unique, which `Hub.Valid` maintains.
- BackendRooms.CreateRoom: the module imports `badRequest`, a name errors.ts does not export (it exports `badRequestError`). The model answers an invalid body with the reply of `badRequestError`, which is what the call evidently intends.
- ServerHub.Hub.Message and ServerHub.Hub.Pong: a connection that was refused never gets these handlers, so the model ignores its message and pong events.
- ServerHub.Hub.Tick: the order of pings before terminations is modelled, but the dead connections' removals are run one after another in iteration order. In the source each callback suspends in its own `removeRoomMember`, and the read-modify-write cycles of several dead connections in one room interleave. For a room with members [a, b] whose two connections are both dead, both callbacks can read [a, b] and write back [b] and [a] as two records with the same uuid, where the model deletes the room. The order of the terminations among themselves follows the Redis replies and is also taken as iteration order.
- ServerHub.Hub.Tick: for a dead connection that was never admitted, the source calls `removeRoomMember(undefined, undefined)`, which finds no room. The model skips the call, with the same effect.
