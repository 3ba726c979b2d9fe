# Chat server registry, in Dafny

This project models the chat registry of a small gRPC chat server. The server
keeps every chat in one in-memory map from chat id to chat. A chat holds its
id, a fixed list of participant user ids, and an append-only list of messages.
Three handlers act on the map:

- **Create** rejects a nil participant list ("UserIds is required") and an
  empty one ("UserIds must be not empty"). Otherwise it stores a new chat with
  no messages under a random id and returns that id. The chat is stored
  unconditionally, so if the random id is already in use, the existing chat is
  overwritten. The model reproduces this (`CreateOverwrites`).
- **Delete** rejects id 0 ("Id is required") and an id that is not in the map
  ("Chat not found"). Otherwise it removes that key.
- **SendMessage** checks its fields in a fixed order: chat id, sender id, text,
  createdAt. It then looks the chat up ("Chat not found") and scans the chat's
  participants for the sender ("FromUserId is not presented in chat user
  ids"). Only if every check passes does it append the message.

The server reports every rejection with the same status code,
InvalidArgument. The model gives each distinct error message its own value of
`ChatState.Reason`.

Layout:

- `chat_state.dfy`, module `ChatState`, holds the value types: `Message`,
  `Chat`, `Timestamp`, `Reason` and `Reply`. It has one pure function per
  handler (`CreateStep`, `DeleteStep`, `SendStep`). Each gives the handler's
  reply and the map it leaves behind. The module also holds the registry
  invariant `Valid` and the lemmas about the handlers.
- `chat_server.dfy`, module `ChatServer`, holds the registry as a class
  `SyncMap` with a `chats: map` field. The three handlers are methods that
  change that field. Each is proved to produce exactly the reply and the map
  its `ChatState` function gives, and to keep `Valid`. The participant scan is
  the method `UserPresentedInChat`, a loop with an early exit.

The random id from `rand.Int63()` is a parameter of `Create`. The request's
`createdAt` is a `Timestamp`, either `Missing` or `Present(instant)`.

## Model

| member | source | states |
|---|---|---|
| ChatState.CreateStep | cmd/grpc_server/main.go:48-73 | nil list → "UserIds is required"; empty list → "UserIds must be not empty"; in both cases the map is unchanged. Success exactly when the list is non-empty: it returns the given id; the id now maps to a chat with that id, exactly those user ids and no messages; the key set gains the id; every other key keeps its chat; an existing chat at that id is replaced |
| ChatState.DeleteStep | cmd/grpc_server/main.go:75-93 | id 0 → "Id is required"; an id not in the map → "Chat not found"; the map is unchanged on both. Success exactly when the id is non-zero and present: exactly that key is removed and every remaining chat is untouched |
| ChatState.SendFieldError | cmd/grpc_server/main.go:98-112 | the field checks run in the order chat id, sender id, text, createdAt: each reason is reported exactly when its field is the first one to fail, and no reason is reported exactly when all four are set |
| ChatState.SendStep | cmd/grpc_server/main.go:95-143 | a failing field check decides the reply; after those, "Chat not found" exactly when the id is absent, and "not presented" exactly when the chat exists but the sender is not a participant. Every rejection leaves the map unchanged. Success exactly when all checks pass: the key set, the chat's id and its user ids are unchanged; its log grows by one; the old log is a prefix of the new one; the new last message is (sender, text, createdAt); all other chats are unchanged |
| ChatState.CreatePreservesValid | cmd/grpc_server/main.go:59-68 | Create keeps the registry invariant: each chat sits under its own id, has a non-empty participant list, and holds only messages with text from participants |
| ChatState.DeletePreservesValid | cmd/grpc_server/main.go:85-90 | Delete keeps the registry invariant |
| ChatState.SendPreservesValid | cmd/grpc_server/main.go:119-138 | SendMessage keeps the registry invariant: an appended message always has a participant as sender and non-empty text |
| ChatState.CreateOverwrites | cmd/grpc_server/main.go:59-68 | Create under an id already in use succeeds, the number of chats stays the same, and the chat at that id has the new user ids and an empty log: the old chat and its messages are lost |
| ChatState.DeleteTwiceFails | cmd/grpc_server/main.go:85-90 | after a successful Delete the id is absent, and a second Delete of it fails with "Chat not found" and changes nothing |
| ChatState.SendAfterDeleteFails | cmd/grpc_server/main.go:114-117 | after a successful Delete, a message to that id with all fields set fails with "Chat not found" and changes nothing |
| ChatState.CreateThenDeleteRestores | cmd/grpc_server/main.go:68 | Create under an unused non-zero id followed by Delete of that id succeeds and gives back the original map |
| ChatState.FieldChecksPrecedeLookup | cmd/grpc_server/main.go:98-114 | when a field check of SendMessage fails, the reply is the same whatever the map holds: the checks come before any lookup |
| ChatState.ChatAtZeroUnreachable | cmd/grpc_server/main.go:60 | a chat stored under id 0 cannot be deleted or written to: Delete(0) and SendMessage to chat 0 are rejected without changing the map |
| ChatState.SendKeepsLogPrefixes | cmd/grpc_server/main.go:134-138 | after any SendMessage, accepted or not, every chat is still present, keeps its participants, and its old log is a prefix of its new log |
| ChatState.SendAllAppendsInOrder | cmd/grpc_server/main.go:134-138 | N accepted messages sent to one chat one after another end up as exactly those N messages, in that order, after the old log; the key set, the participants and all other chats are unchanged |
| ChatState.Session | cmd/grpc_server/main.go:48-143 | a full session: create chat {1,2}; post "hi" from 1 (the log is exactly that message); a post from 3 is rejected as not a member and the log is unchanged; delete; a further post gets "Chat not found" |
| ChatServer.SyncMap.constructor | cmd/grpc_server/main.go:44-46 | the registry starts with an empty map, which satisfies the invariant |
| ChatServer.SyncMap.Create | cmd/grpc_server/main.go:48-73 | the handler's reply and new map are exactly those `CreateStep` gives, and the invariant is kept |
| ChatServer.SyncMap.Delete | cmd/grpc_server/main.go:75-93 | the handler's reply and new map are exactly those `DeleteStep` gives, and the invariant is kept |
| ChatServer.SyncMap.SendMessage | cmd/grpc_server/main.go:95-143 | the handler's reply and new map are exactly those `SendStep` gives, and the invariant is kept |
| ChatServer.UserPresentedInChat | cmd/grpc_server/main.go:119-125 | the early-exit scan returns true exactly when the sender occurs in the participant list |

## Left out

- gRPC transport: the `server` type, request getters, `status.Error` wrapping, `main`, the TCP listener and service registration. These are I/O. Every status code is InvalidArgument, so a `Reason` value stands for the whole error.
- Locking: the `sync.RWMutex` is not modelled. Each handler is one atomic step. SendMessage reads the map and scans the participants before it takes the lock. A Delete can therefore run between the check and the append, and the append then goes to a chat that is no longer in the map. A Create that draws the same id can also run in between and replace the chat; the append then goes to the replaced chat, which is no longer in the map. Besides, the unlocked Go map read runs alongside the locked writes of Create and Delete, which is a data race; the Go runtime may stop the process with "concurrent map read and map write". A sequential model cannot express these races; `ChatServer.SyncMap.SendMessage` notes them in a comment.
- Pointers: the server stores `*Chat` and appends through the pointer. The model stores `Chat` values in the map and writes the updated chat back under its key. Each chat pointer is reachable from exactly one key, so a sequential run behaves the same.
- `rand.Int63()`: the id is a parameter of `Create`. Its range is the full int64 type, wider than the non-negative values `rand.Int63` yields.
- Timestamps: the source tests `req.GetCreatedAt().String() == ""` and stores `AsTime()`. Both are protobuf and time-library conversions. The model treats the test as "createdAt is present", which is what the error message "CreatedAt is required" intends, and keeps an opaque instant. The code computes something else. In the Go protobuf library, `String()` of a nil timestamp is `"<nil>"` and `String()` of the zero timestamp (the Unix epoch) is `""`. So a request without createdAt passes the check, and `AsTime()` of nil stores the epoch. A request whose createdAt is exactly the epoch is rejected with "CreatedAt is required". This reading of the library was not executed. `ChatState.SendFieldError` and `ChatState.SendStep` follow the intended presence check, not the code as written.
- Logging (`log.Printf`).
