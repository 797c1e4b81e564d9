# Room registry and broadcast engine of a WebSocket chat server, in Dafny

This project models the core of a small Go chat backend that exists in three near-identical variants: `server/`, `sample-server/` and `lilserver/`. Clients register a name, create rooms, and join a room over a WebSocket. Every line a member sends is then relayed to all current members of that room.

The model is functional. The whole observable state is one `Registry.Hub` value, made of three parts:

- `rooms`: the registry, mapping each room id to a `Room`, whose `members` map a member key to a connection id;
- `outboxes`: everything each connection has been sent, in order;
- `failing`: the connections whose writes fail.

Each region of the source guarded by `roomMutex` or a room's `Lock` is one pure transition on the hub:

- `Registry.CreateRoom` and `Registry.SetMembers` write the registry;
- `Membership.Announce`, which is `broadcastMessage`, appends to outboxes.

A handler is the sequence of its regions (`Membership.Join`, `Membership.RelayReads`, `Membership.Leave`). The relay loop `handleMessages` is a fold over the trace of messages that the connection reads successfully. The read error that ends the trace starts the deferred clean-up.

The core is written once and parameterised by a member key and a display name:

- In `server/` and `sample-server/` the key is the session's display name.
- In `lilserver/` the key is the caller's user id. The display name appears only inside the notices and chat lines.

One module per variant adds that variant's input checks and id generation: `ChatServer`, `SampleServer` and `LilServer`.

Broadcast iterates a Go map, so the order in which it visits members is unspecified. `Broadcast.Deliver` states the outcome independently of that order. A connection receives one copy per key it is stored under, or none if its writes fail. `Broadcast.BroadcastMessage` is the source's loop, picking keys in an arbitrary order, and it is proved to compute exactly `Deliver`. The "exactly once per member" facts hold when every connection sits under at most one key (`Broadcast.Injective`). That is the case when every join brings a freshly upgraded connection, which the lemmas take as their hypothesis.

Where a reader might expect otherwise, the model follows the code:

- **Joiner's own notice.** The code inserts the joiner before broadcasting its join notice, so the joiner receives its own "joined" line (`Transcripts.JoinNotifiesEveryMember`, `Scenarios.FirstJoin`).
- **Sender's own echo.** A sender receives its own chat lines (`Transcripts.RelayReadsInOrder`).
- **Leaver's own notice.** A leaving member does not receive its own "left" line (`Transcripts.LeaveNotifiesRemaining`).
- **Id collisions in `lilserver/`.** Room creation assumes a fresh id, but `lilserver/` stores its random id without checking. On a collision the existing room is replaced by an empty one (`LilServer.CreateRoom`).
- **Leave deletes by key.** Leaving deletes whatever connection is currently stored under the key. If a second connection has taken the key over, the first one's exit removes the second (`Scenarios.SameKeyTwice`).

## Model

| member | source | states |
|---|---|---|
| `Wire.ChatLineRecoversText` | server/main.go:198 | a `"<name>: <text>"` line determines its text once the sender's name is known |
| `Wire.OwnNoticesAreDistinct` | server/main.go:172-198 | a member's chat line never equals that member's own join or leave notice |
| `Wire.JoinedNotice` | server/main.go:172 | the join notice starts with the member's name, then a space, and has a fixed 17-character tail |
| `Wire.LeftNotice` | server/main.go:187 | the leave notice starts with the member's name, then a space, and has a fixed 15-character tail |
| `Wire.ChatLine` | server/main.go:198 | a chat line is the sender's name, then a colon and a space, then the text as read |
| `Decimal.NatToString` | server/main.go:132 | `%d` of a non-negative number is a non-empty digit string with no leading zero, longer than one digit exactly from 10 upward |
| `Decimal.ParseRendersBack` | server/main.go:132 | reading the decimal rendering back gives the number: the rendering has an inverse |
| `Decimal.RenderingIsInjective` | server/main.go:132 | distinct numbers render as distinct strings |
| `Ids.GenId` | lilserver/utils/utils.go:12-21 | the id has exactly 6 characters, each from `a-z0-9`, and position i is the charset character at the i-th draw |
| `Ids.GenIdLoop` | lilserver/utils/utils.go:14-19 | the source's fill-a-buffer loop produces the same id as `GenId` |
| `Ids.GenIdIsInjective` | lilserver/utils/utils.go:8-16 | different draws give different ids, because the charset has no repeated character |
| `Ids.GenIdIsOnto` | lilserver/utils/utils.go:8-19 | every 6-character string over the charset is the id of some valid draws |
| `Ids.CharsetIsDistinct` | lilserver/utils/utils.go:8 | no character occurs twice in the charset |
| `Broadcast.Deliver` | server/main.go:203-213 | a broadcast only appends, only the message, and leaves failing connections and non-members untouched |
| `Broadcast.SequentialPassSent` | server/main.go:207-212 | writing to the members key by key, in any listing of the keys, gives each connection one copy per key that stores it and nothing to a connection whose writes fail |
| `Broadcast.WriteInOrderSent` | server/main.go:207-212 | the same count for a pass over any repeat-free list of keys: one copy per listed key storing the connection |
| `Broadcast.DeliverOncePerMember` | server/main.go:207-212 | with one key per connection, every member that can be written to gets the message exactly once, even if other members' writes fail |
| `Broadcast.DeliverReachesMember` | server/main.go:207-208 | a stored connection that can be written to ends with the message |
| `Broadcast.BroadcastMessage` | sample-server/main.go:208-218 | visiting the member keys in any order, appending to each and only logging a failed write, yields exactly `Deliver` |
| `Registry.CreateRoom` | server/main.go:104-113 | the id maps to an empty room with that id, other rooms are unchanged, and the room count grows by one unless the id was taken |
| `Registry.SetMembers` | server/main.go:167-169 | a locked insert or delete replaces one room's member map and leaves everything else unchanged |
| `Registry.ListMembers` | server/main.go:216-236 | NotFound exactly for an unknown room; otherwise every member key once, and nothing else (lilserver/'s `listMembers` is the same code over user-id keys) |
| `Membership.Join` | server/main.go:150-172 | an unknown room gives NotFound and no new state; otherwise the key is set to the connection, overwriting, other rooms are unchanged, and the joiner's own outbox ends with the join notice |
| `Membership.Announce` | server/main.go:203-213 | a broadcast on the hub only appends to outboxes: registry and failing set unchanged, every outbox keeps its old contents as a prefix, non-members and failing connections get nothing |
| `Membership.RelayReads` | server/main.go:191-199 | relaying reads changes neither the registry nor the failing set |
| `Membership.Leave` | server/main.go:182-189 | the key is deleted, whichever connection it held and even if absent; other rooms are unchanged; the connection is closed |
| `Membership.Relay` | server/main.go:181-200 | after the read error the room has lost exactly the key, and the connection is closed |
| `Membership.Session` | server/main.go:150-178 | a full connection life leaves the room with its old members minus the key, even when the key was taken before the join |
| `Transcripts.JoinNotifiesEveryMember` | server/main.go:167-172 | with a fresh connection, every writable member, the joiner included, gets the join notice exactly once; a connection displaced from the key gets nothing |
| `Transcripts.RelayReadsInOrder` | server/main.go:191-199 | every writable member, the sender included, receives exactly the tagged lines in read order |
| `Transcripts.RelayReadsReachOnlyMembers` | server/main.go:207-212 | a non-member or failing connection receives nothing from a relay |
| `Transcripts.LeaveNotifiesRemaining` | server/main.go:182-188 | the leave notice goes once to each remaining member and never to the connection stored under the departing key |
| `Transcripts.RelayTranscript` | sample-server/main.go:185-204 | a member sees the sender's tagged lines in order, then the leave notice; the member under the leaving key sees its echoes and no leave notice |
| `Transcripts.InjectiveAfterInsert` | server/main.go:167-169 | inserting a freshly upgraded connection keeps one key per connection |
| `Transcripts.DisplacedConnIsGone` | server/main.go:168 | overwriting a key with a fresh connection leaves the old connection stored under no key |
| `RoomIds.RoomNameIsInjective` | server/main.go:132 | distinct numbers give distinct `room-N` ids |
| `RoomIds.RoomName` | server/main.go:132 | `room-%d`: the prefix is `room-` and the rest is a decimal string that parses back to the number |
| `RoomIds.NextRoomId` | sample-server/main.go:135-137 | the generated id carries the number of rooms plus one |
| `RoomIds.NextRoomIdIsFresh` | server/main.go:131-133 | when the ids are room-1 .. room-n, `room-(n+1)` is not in use |
| `RoomIds.CreateKeepsNumbering` | server/main.go:104-113 | creating under the generated id adds one room and keeps the ids room-1 .. room-n |
| `RoomIds.EmptyIsWellNumbered` | server/main.go:26 | the empty registry is numbered from one |
| `Sessions.Register` | server/main.go:51-83 | a named session keeps its name; otherwise success exactly when the body decodes to a non-empty name and the session saves; a bad body and an empty name are distinct refusals |
| `Sessions.RegisterIsIdempotent` | server/main.go:51-60 | after a successful registration every later one on that session answers with the same name |
| `ChatServer.CreateRoomHandler` | server/main.go:94-113 | an unnamed session is refused; otherwise the room `room-(n+1)`, with that id and no members, is added; other rooms, outboxes and failing connections are unchanged |
| `ChatServer.JoinRoomHandler` | server/main.go:136-178 | refusals in source order (unauthorized, not found, failed upgrade); otherwise the room ends without the name's key and the connection is closed |
| `ChatServer.Handle` | server/main.go:94-178 | one request either leaves the room ids as they are or adds exactly the generated id; closed connections stay closed |
| `ChatServer.Serve` | server/main.go:94-178 | over any sequence of requests, room ids are never removed, each request adds at most one, and closed connections stay closed |
| `ChatServer.HandleKeepsNumbering` | server/main.go:131-133 | any one request keeps the room ids room-1 .. room-n |
| `ChatServer.ServeKeepsNumbering` | server/main.go:104-113 | any sequence of requests keeps the room ids room-1 .. room-n |
| `ChatServer.RoomIdsStaySequential` | server/main.go:131-133 | from an empty server, after any requests, the ids are room-1 .. room-n and the next generated id is fresh |
| `SampleServer.RegisterUser` | sample-server/main.go:62-92 | a named session is answered unchanged; a bad or empty name is one refusal; a save failure stores nothing; success records the name under the session's (empty) id and nothing else |
| `SampleServer.RegisterAgreesWithServer` | sample-server/main.go:77-80 | this variant accepts exactly what server/ accepts, folding server/'s bad-body refusal into the invalid-name one |
| `SampleServer.CreateRoom` | sample-server/main.go:104-137 | an unnamed session is refused; otherwise the room `room-(n+1)`, with that id and no members, is added, and the user map and the failing connections are untouched |
| `SampleServer.JoinRoom` | sample-server/main.go:140-182 | same refusals as server/; otherwise the room ends without the name's key and the user map is untouched |
| `SampleServer.ListRegisteredUsers` | sample-server/main.go:221-233 | one entry per key of the user map: each name occurs as many times as there are ids it is stored under |
| `SampleServer.UsersHoldTheLastName` | sample-server/main.go:83-92 | every session has the cookie store's empty id, so the user map keeps at most one entry, and a new registration replaces it with the new name |
| `LilServer.RegisterUser` | lilserver/main.go:38-58 | refused exactly when the name is missing or empty; otherwise the id generated from the draws (6 characters over the charset) is returned with the name |
| `LilServer.CreateRoom` | lilserver/main.go:61-83 | refused exactly when the body is missing or has an empty user id or name; otherwise the id generated from the draws maps to an empty room with that id, replacing any room already there |
| `LilServer.Admit` | lilserver/main.go:93-126 | the three empty-parameter checks come before the room lookup; then NotFound, then the upgrade; on success the user id is set to the connection and the joiner ends with the join notice carrying the name |
| `LilServer.JoinRoom` | lilserver/main.go:93-181 | a full connection life leaves the room without the user id's key and closes the connection |
| `LilServer.SameNameDistinctUsers` | lilserver/main.go:121-157 | two user ids with one display name are two members: the room's keys gain exactly those user ids, each holding its own connection |
| `Scenarios.FirstJoin` | server/main.go:167-172 | the first member of a fresh room has heard exactly its own join notice |
| `Scenarios.SecondJoin` | sample-server/main.go:171-176 | a second member's join notice reaches both members once |
| `Scenarios.TwoJoins` | server/main.go:166-172 | after two joins, the first member has heard both notices and the second only its own |
| `Scenarios.OneReadInPair` | server/main.go:191-199 | one relayed line reaches the other member and the sender |
| `Scenarios.ImmediateLeaveInPair` | server/main.go:182-188 | when the first read fails, the other member hears the leave notice, the leaver hears nothing, and one member remains |
| `Scenarios.Takeover` | server/main.go:167-169 | a second connection under a taken key replaces the first, which hears nothing of that join |
| `Scenarios.DisplacedRelay` | server/main.go:182-199 | a displaced connection's reads still reach the new holder of its key but not itself, and its exit empties the key |
| `Scenarios.SameKeyTwice` | lilserver/main.go:161-169 | after two joins under one key, the first connection's read reaches only the second, and the first one's exit leaves the room with no members although the second never left |

## Left out

- HTTP plumbing is not modelled: routing (gorilla/mux, gin), status codes and JSON encoding of the responses. Each handler returns only its accept or refuse decision and the new state.
- The request body's JSON decoding is an `Option`, where `None` means decoding failed.
- The cookie session store is reduced to the stored name, an `Option<string>`. Left out are its secret key, the `store.Get` error, and a stored value that is not a string.
- The `registerUser` method check is not modelled, because the router admits only POST.
- The WebSocket upgrade is an optional connection id, where `None` means the upgrade failed and the handler returns without changing anything.
- `ReadMessage` becomes the trace of payloads that were read successfully. The model ignores message types.
- `WriteMessage` appends to an outbox unless the connection is in the failing set. Errors from `conn.Close` are not modelled.
- Goroutines and locks are not modelled: every locked region, and every handler, runs without interleaving.
- The data race in the id generator is outside this sequential model. `len(rooms)` is read without the lock (server/main.go:104, 132 and sample-server/main.go:114, 136), so two concurrent creates could draw the same id.
- A stale room pointer is outside the model too. When a `lilserver/` id collision replaces a room, relay loops still holding the old room keep broadcasting to it.
- The `failing` set changes only when a connection is closed. Failures that start mid-stream are modelled by running the next step on a hub with a different set.
- `math/rand` and its time-based seed are replaced by the six drawn indices, passed in as a parameter.
- The sample server's `session.ID` is the empty string for every session (`SampleServer.CookieSessionId`). The cookie store the server uses (sample-server/main.go:43) keeps sessions in the cookie and never assigns an id. The session library is not part of this model. As a result, every registration writes the same entry of `Users` (sample-server/main.go:91), and the user list holds at most the last name registered (`SampleServer.UsersHoldTheLastName`).
- Messages are Go byte slices (`[]byte`) in the source and character strings here. The core only concatenates and compares them, so no encoding is modelled.
- Logging is not modelled, and neither are the stubs `test`, `testPostHandler` and `goofy` or the `main` functions. The route at sample-server/main.go:251 names an unqualified `goofy`, which that file does not define.
- The frontend pages are not part of this model; they are UI and navigation only.
- `Membership.RelayReads`: its own contract states only that the registry and the failing set are unchanged. The order and content of what the members receive are stated by `Transcripts.RelayReadsInOrder` and `Transcripts.RelayReadsReachOnlyMembers`.
- `Broadcast.DeliverOncePerMember`, `Transcripts.JoinNotifiesEveryMember`, `Transcripts.RelayReadsInOrder`, `Transcripts.LeaveNotifiesRemaining` and `Transcripts.RelayTranscript` assume that each connection is stored under at most one key. The general case, several keys per connection, is covered only by `Broadcast.SequentialPassSent`, one copy per key.
- `Scenarios.TwoJoins`, `Scenarios.OneReadInPair` and `Scenarios.ImmediateLeaveInPair` state the two-member steps separately; no lemma chains the three into one run.
