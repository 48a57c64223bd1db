# A verified model of the TCP chat server

The server is a single thread that moves connections through an epoll loop. Clients
send requests as frames: a 7-byte header (version, type, response code, big-endian
32-bit length) followed by a payload of tag-length-value fields. Requests register an
account, log in, or send a chat message to everybody or to one user. This project
models the wire codec and the server in Dafny and proves what they guarantee for every
input, every way the kernel may cut up reads and writes, and every run.

## How it is organised

- `Bytes`, `Frames`, `Tlv`, `Payloads`: the wire format as functions, with the decoder
  of the server and the reader of the client.
- `Parsers`, `Builders`, `Transfer`: the loops of `src/protocol.cpp`, written as methods
  over payloads, buffers and sockets and proved against those functions.
- `Flags`, `Accounts`: the 8-bit connection flags, and a contract for the user table.
- `Server`: the server as a transition system. Each connection carries, beside its slot
  of the table, a trail of what happened to it (bytes received, requests served,
  messages enqueued, bytes written, and when it was authenticated); the trail is never
  read by a decision. `accepted` is the log of accepted world broadcasts.
- `Invariants`, `Preservation`, `Histories`, `Provenance`: what every event keeps, how
  trails grow, and where identities, log entries and answers come from.
- `Theorems`, `Requests`, `Events`, `Service`: the main results, over runs, for one
  request, for one event, and from a client's bytes to their effect. `Wire` spells out
  every message byte by byte and every parser field by field.
- `ConnectionTable`: the connection table as a class with the source's five parallel
  vectors, whose methods are proved to take exactly the steps of the transition system.
  `RunServer` starts it, feeds it any possible events, and ends in a reachable state, so
  every theorem about reachable states is about this code.

The main results, in short:

- World broadcasts reach each authenticated connection once and in one global order, from
  the request that logged it in to its removal (`SessionBroadcasts`, `SessionStarts`,
  `SessionEnds`, `MemberReceivesLog`, `NewBroadcastsInOrder`, `MembersAgree`).
- What a client reads is what was enqueued for it (`Delivered`, `ClientReceives`), and
  every event offers the socket all that waits (`EventWrites`).
- What is served depends only on the bytes sent, not on their chunking
  (`ChunkingIrrelevant`, `SameBytesSameRequests`) nor on the bytes behind a request
  (`FrameLocality`); each event takes what arrived (`EventReads`).
- Every request gets one answer in order, the one its handler gave in the state it was
  served in (`OneAnswerEach`).
- Nobody is authenticated without having sent the stored account's credentials
  (`IdentitiesSound`), and whoever connects, registers a free name and logs in is
  (`AccessGranted`). Nothing is broadcast but content from stored names (`LogIsGenuine`).
- Flags, buffers and epoll interest agree between events (`EventBoundary`); connections
  open (`ConnectionOpens`) and close (`EventCloses`) exactly when they should.
- A broadcast is parsed by its readers as coming from the sender's account, and a private
  one goes to the lowest slot logged in under the recipient's name (`WorldDelivered`,
  `P2pRouted`).

## Assumptions about the environment

- A read delivers any bytes, would block, reports end of file or fails; a write takes any
  number of bytes, would block or fails. One event carries any sequence of these.
- `accept` returns a descriptor it has never returned before: `remove_connection` does
  not close descriptors, so the kernel cannot hand one out again. Without this, stale
  buffers would be inherited, since neither `add_connection` nor `remove_connection`
  clears them. Whether epoll takes a new descriptor is an input.
- Changing the epoll interest of a registered descriptor succeeds; for one that is not
  registered it has no effect.
- The user table answers truthfully or reports failure, per request. Text is cut at its
  first NUL byte on its way into the database. Its initial rows are in order (`AccountsOk`).
- Hosts are little-endian; on a big-endian host the byte swaps vanish and the bytes on
  the wire are the same.

## Where the code departs from its documentation

- README.md:16 promises order-independent parsing. The parsers keep the promise
  (`ReorderingIgnored`), the server does not: it chooses the parser by the first byte of
  the payload. A rearranged world broadcast is treated like the original exactly when its
  tag still comes first or it has nothing to say; otherwise it is taken for a private
  message, if that tag comes first, or refused without effect (`OrderIndependenceExact`).
  A rearranged private message is treated like the original exactly when its tag still
  comes first, or when it is empty, or when it is addressed to its sender and no world
  tag comes first; with a world tag in front a non-empty one is broadcast to everybody
  (`PrivateOrderExact`). `MisplacedTagRefused` and `MisplacedTagDiverts` give inputs.
- test/integration/test_broadcast.cpp:113-161 expects a false sender name to be refused;
  the server replaces it by the account's name, and so does the model.
- A password that holds a NUL byte can be registered (`NulPasswordLost` gives one), but
  the table keeps only what stands before the NUL, so the credentials registered log in,
  in any later state, exactly when the password has no NUL (`RegisterThenLogin`), and no
  login whose password has one ever succeeds (`NulPasswordRefused`).

## Model

| member | source | states |
|---|---|---|
| Bytes.NetworkOrder | src/protocol.cpp:58-62 | Reversing the bytes of a number in host memory gives its big-endian form. |
| Bytes.BigEndian | src/protocol.cpp:113-115 | The four bytes written for a length are the ones that read back as it. |
| Bytes.LowerCut | src/db.cpp:66-76 | Lower-casing a name and cutting it at its first NUL commute. |
| Bytes.LowerExact | src/shared.cpp:84-88 | Two texts have the same lower-case form exactly when they are equal byte by byte up to the case of ASCII letters. |
| Bytes.KeyExact | src/db.cpp:66-76 | A lookup key matches a stored name exactly when that name equals, up to letter case, what an insert would store for the key's name. |
| Frames.HeadOfSerialized | src/protocol.cpp:102-133 | Parsing a header undoes the serialiser at the head of any buffer and finds where the rest starts. |
| Frames.HeadSerialized | src/protocol.cpp:122-133 | Conversely, a complete message in a buffer is exactly the bytes its parse serialises to. |
| Frames.Examine | src/server_utils.cpp:609-627 | A request is served only when all its bytes are there, so the 32-bit sum of header and length has not wrapped; a buffer that needs more holds less than 4103 bytes. |
| Frames.ExamineStable | src/server_utils.cpp:609-627 | A verdict on a buffer (serve, or close as too big) is not changed by bytes that arrive later. |
| Frames.DecodeSplit | src/server_utils.cpp:607-627 | Decoding a+b is decoding a and then what it left followed by b, unless an oversized header ended it; the 8-byte minimum included. |
| Frames.DecodeExtends | src/server_utils.cpp:696-707 | If a buffer is what remains of a stream after serving some requests, it stays so when both grow by the same bytes. |
| Frames.DecodeConserves | src/server_utils.cpp:607-659 | The requests decoded and the bytes left concatenate to the input; what is left is not servable and below 4103 bytes unless oversized. |
| Frames.DecodePipelined | src/server_utils.cpp:607-627 | Concatenated in-limit requests are all served, except a final one without payload, which waits for one more byte. |
| Frames.TakeAllOfPrefix | src/protocol.cpp:135-223 | Reading any prefix of a stream of messages yields a prefix of the messages, and all of them from the whole stream. |
| Transfer.ReadExactly | src/protocol.cpp:141-182 | The read loop obtains exactly the bytes asked for under any short reads, and otherwise stops only at end of file, a failure, or (for payloads) a signal. |
| Transfer.ReadOneMessage | src/protocol.cpp:135-223 | Returns 0 only with the first message of the stream and leaves exactly what follows it; unless the socket fails or a signal interrupts the reading of a payload, it succeeds if and only if such a message is there. |
| Transfer.ReadMessages | src/protocol.cpp:135-223 | On any socket, repeating it yields messages of the stream in order, and every one of them unless the socket fails or a signal cuts a payload short. |
| Transfer.WriteOneMessage | src/protocol.cpp:225-247 | Success means the whole message was sent once; failure leaves a proper prefix on a faulty socket. |
| Tlv.SplitExact | src/protocol.cpp:346-360 | A payload splits into fields just when it is their encoding, so it has at most one decomposition. |
| Tlv.SplitEncoded | src/protocol.cpp:713-727 | Fields at the front of a payload are recovered whatever follows them. |
| Tlv.LastOccurrence | src/protocol.cpp:362-387 | The value a parser keeps for a tag is the one at the tag's last position. |
| Tlv.BoundedMeans | src/protocol.cpp:363-378 | A limit on a tag applies to each of its occurrences. |
| Tlv.UnknownFieldIgnored | src/protocol.cpp:753-757 | A field under an unknown tag may be inserted at any field boundary without effect on what a parser sees. |
| Tlv.ReorderingIgnored | README.md:16 | Fields with distinct tags may come in any order. |
| Payloads.FieldsExact | src/protocol.cpp:340-394 | A parser accepts a payload if and only if it is an exact sequence of fields with every limited one short enough and every required tag present, and then reads those fields. |
| Payloads.ParsedInLimit | src/protocol.cpp:733-751 | Parsed names are at most 32 bytes and contents at most 255. |
| Payloads.EmptyPayloadRefused | src/protocol.cpp:758-762 | No parser accepts an empty payload. |
| Payloads.CredentialsRoundTrip | src/protocol.cpp:270-394 | A register or login request has version 1, the type it was built for and code 0, and parsing undoes building within limits. |
| Payloads.WorldRoundTrip | src/protocol.cpp:680-764 | A world broadcast has version 1, type 2 and code 0, and parsing undoes building within limits. |
| Payloads.P2pRoundTrip | src/protocol.cpp:840-935 | The same for private messages. |
| Payloads.AccountRoundTrip | src/protocol.cpp:396-464 | Parsing undoes building for register and login responses, with the big-endian user id, whatever id the client held before. |
| Payloads.WorldSize | src/protocol.cpp:693-699 | The exact payload size of a world notification, hence that the builder's size check never fails, and its first byte. |
| Payloads.P2pSize | src/protocol.cpp:860-866 | The same for private notifications. |
| Payloads.AccountSize | src/protocol.cpp:410-415 | The same for account responses. |
| Wire.CredentialBytes | src/protocol.cpp:270-338 | All bytes of a register or login request, header and payload. |
| Wire.AccountBytes | src/protocol.cpp:396-417 | All bytes of a successful response. |
| Wire.WorldBytes | src/protocol.cpp:635-705 | All bytes of a world broadcast. |
| Wire.P2pBytes | src/protocol.cpp:780-873 | All bytes of a private message. |
| Wire.StatusBytes | src/protocol.cpp:102-120 | A response without payload is a bare header. |
| Wire.CredentialsExact | src/protocol.cpp:340-394 | Which fields make acceptable credentials: tags 0 and 1 present, each occurrence at most 32 bytes, and the last of each counts. |
| Wire.WorldExact | src/protocol.cpp:707-764 | Which fields make a world broadcast: tags 4, 9 and 11 present, each sender at most 32 bytes, and the last of each counts. |
| Wire.P2pExact | src/protocol.cpp:875-935 | Which fields make a private message: tags 5, 9, 10 and 11 present, names at most 32 bytes, and the last of each counts. |
| Parsers.ReadField | src/protocol.cpp:713-727 | A step of any parser reads only inside the payload and either extends the fields found, all within their limits, or shows that no continuation accepts the payload. |
| Parsers.ParseCredentialRequest | src/protocol.cpp:340-394 | The register loop (and the identical login loop at 512-566) returns 0 exactly on acceptable payloads, with the last value of each tag, and MALFORMED otherwise. |
| Parsers.ParseWorldBroadcast | src/protocol.cpp:707-764 | The same for world broadcasts. |
| Parsers.ParseP2pBroadcast | src/protocol.cpp:875-935 | The same for private messages. |
| Parsers.ParseAccountResponse | src/protocol.cpp:419-464 | The same for account responses, with the code for a missing field that differs from the login parser at 587-629; an id of fewer than four bytes overwrites the front of the id held before. |
| Builders.WriteTlv | src/protocol.cpp:40-73 | Writes tag, length and value at the pointer, swapping 2- and 4-byte numbers on request, and touches nothing else. |
| Builders.BuildAccountResponse | src/protocol.cpp:396-417 | The register response builder (and the login one at 568-585) always succeeds with the specified message. |
| Builders.BuildWorldMessage | src/protocol.cpp:680-705 | The server's world builder always succeeds with the specified message. |
| Builders.BuildP2pMessage | src/protocol.cpp:840-873 | The server's private builder fails exactly when sender and recipient coincide. |
| Builders.BuildCredentialRequest | src/protocol.cpp:270-338 | The client's register builder (and the login one at 470-510) succeeds exactly within limits and writes the serialised message. |
| Builders.BuildWorldRequest | src/protocol.cpp:635-678 | The same for the client's world builder. |
| Builders.BuildP2pRequest | src/protocol.cpp:780-838 | The same for the client's private builder, which also refuses a message to oneself. |
| Builders.WriteMessage | src/protocol.cpp:102-120 | Appends exactly the serialised message to a buffer. |
| Builders.WorldBuildersAgree | src/protocol.cpp:635-705 | Client builder and server builder plus serialiser produce the same bytes. |
| Builders.P2pBuildersAgree | src/protocol.cpp:780-873 | The same for private messages. |
| Flags.Updates | src/shared.cpp:14-39 | What each mask assignment of the server does to the five flags. |
| Flags.MeaningInjective | include/shared.hpp:34-41 | A mask is determined by its five flags. |
| Flags.RestingMasks | include/shared.hpp:20-41 | The event-boundary condition leaves five masks. |
| Accounts.Lookup | src/db.cpp:66-93 | Finds nothing exactly when no row matches the key, and otherwise the data of a matching row. |
| Accounts.LookupExact | src/db.cpp:66-93 | A lookup of a name finds nothing exactly when no stored name equals it up to letter case, and otherwise the data of such a row. |
| Accounts.LookupFinds | src/db.cpp:66-93 | At most one row equals a name up to letter case, and the lookup returns it. |
| Accounts.FreeNameNotTaken | src/server_utils.cpp:319-347 | An insert after a failed lookup never meets the UNIQUE constraint. |
| Accounts.InsertKeeps | src/db.cpp:43-64 | Inserting a free, in-limit name succeeds and keeps names distinct up to letter case, defined byte by byte, and ids distinct. |
| Invariants.NotifyKeeps | src/server_utils.cpp:493-503 | A notification keeps a resting connection resting and its histories consistent. |
| Invariants.AnswerKeeps | src/server_utils.cpp:653-658 | Consuming a request and appending its answer keeps input, output, answer and order histories consistent. |
| Preservation.RegisterHandled | src/server_utils.cpp:309-356 | Registration keeps the account table in order and answers with a declared code. |
| Preservation.LoginHandled | src/server_utils.cpp:367-412 | Login leaves an authenticated slot with a stored account and keeps an existing membership. |
| Preservation.WorldHandled | src/server_utils.cpp:438-506 | A world broadcast keeps every other connection's invariant and extends the log by its own answer. |
| Preservation.P2pHandled | src/server_utils.cpp:507-586 | A private message keeps every connection's invariant and leaves the log alone. |
| Preservation.TryOneKeeps | src/server_utils.cpp:607-659 | Serving one request keeps the invariant of all connections. |
| Preservation.DrainKeeps | src/server_utils.cpp:707-708 | The request loop ends with nothing servable and asks for the close exactly on an oversized header. |
| Preservation.HandleReadKeeps | src/server_utils.cpp:661-718 | A read event keeps the invariant and starts writing when there is output. |
| Preservation.FlushKeeps | src/server_utils.cpp:720-745 | A write event keeps the invariant under any short writes. |
| Preservation.DispatchKeeps | src/server.cpp:111-123 | Read, write and close on one descriptor keep the invariant of the event loop. |
| Preservation.AddConnectionKeeps | src/server_utils.cpp:253-283 | Accepting a descriptor keeps it, though buffers are not cleared. |
| Preservation.ReachableOk | src/server.cpp:72-124 | The invariant holds in every reachable state. |
| Histories.RunGrew | src/server.cpp:72-124 | Over any events, trails, the log and the user table only grow, rows get consecutive ids, and sessions start once and end once. |
| Histories.EventIsolated | src/server.cpp:111-123 | An event on one descriptor changes no other connection except by appending notifications for an authenticated one. |
| Provenance.HandleIdentity | src/server_utils.cpp:391-403 | No request but a login changes who its sender is, and a login only to the stored account whose credentials it carries. |
| Provenance.RunExchanged | src/server.cpp:72-124 | Over any events, the requests and answers on a connection grow by exactly those its handlers produced. |
| Theorems.MemberReceivesLog | src/server_utils.cpp:436-505 | Between two moments at which a connection is authenticated it is sent exactly the world broadcasts accepted in between, once each, in order. |
| Theorems.SessionBroadcasts | src/server_utils.cpp:436-505 | In every reachable state a connection has been sent exactly the part of the log its session covers: none, all since its login, or all from its login to its removal; it has such an open session exactly while authenticated. |
| Theorems.SessionStarts | src/server_utils.cpp:398-403 | A connection becomes authenticated exactly by a login request answered with OK, and its session starts at the length the log has at that request. |
| Theorems.SessionEnds | src/server.cpp:111-123 | A session ends exactly with the removal of its connection, at the length the log has then; events on other descriptors leave it alone. |
| Theorems.NewBroadcastsInOrder | src/server_utils.cpp:481-505 | Over any stretch of a run a connection is sent exactly the log from its login (or the start of the stretch) to its removal (or the end of the stretch). |
| Theorems.MembersAgree | src/server_utils.cpp:481-505 | Of two authenticated connections, one has seen a suffix of the other's world broadcasts. |
| Theorems.Delivered | src/server_utils.cpp:720-745 | The bytes written are a prefix of the messages enqueued, read back as those messages, and complete when the buffer is empty. |
| Theorems.FlushExact | src/server_utils.cpp:724-744 | A write event moves exactly the bytes the socket took, oldest first, and returns to reading exactly when none are left. |
| Theorems.ClientReceives | src/protocol.cpp:135-223 | A client reading under any short reads, signals and failures obtains messages the server enqueued, in order, and all of them unless its socket failed or a signal cut a payload short. |
| Theorems.ChunkingIrrelevant | src/server_utils.cpp:661-708 | The requests served, the bytes held and whether the connection is open are the decoding of the bytes received. |
| Theorems.SameBytesSameRequests | src/server_utils.cpp:661-708 | Connections of any two runs that sent the same bytes were served the same requests and met the same fate. |
| Theorems.EventServes | src/server_utils.cpp:661-718 | One read event serves every complete request held and closes exactly on an oversized one. |
| Theorems.PipelineServed | src/server_utils.cpp:704-708 | Pipelined requests are all served in one event, but for a last one without payload. |
| Theorems.OneAnswerEach | src/server_utils.cpp:607-659 | On any connection of any run, every request got one answer, in order and of its kind, which is the response of its handler in the state it was served in; everything else sent is a notification. |
| Theorems.EventBoundary | src/server.cpp:111-123 | Between events a slot is unused or waits for exactly one thing; it waits to write iff it has output; epoll interest mirrors the flags; input is unservable and at most 4102 bytes. |
| Theorems.ResponsesSane | src/server_utils.cpp:469-475 | No enqueued message has an undeclared code (such as 255) or more than 327 bytes of payload. |
| Theorems.IdentitiesSound | src/server_utils.cpp:376-403 | Names stay distinct up to letter case, defined byte by byte, and a slot is authenticated only if that connection was served a login request with the credentials of the stored account it carries. |
| Theorems.LogIsGenuine | src/server_utils.cpp:438-505 | In every reachable state, every broadcast ever accepted parses as a content of 1 to 255 bytes from the name of a stored account. |
| Events.ConnectionOpens | src/server_utils.cpp:253-283 | A descriptor epoll takes becomes an active, unauthenticated slot that waits to read, with empty buffers, in a table that covers it; nothing else changes, and nothing at all if epoll refuses it. |
| Events.EventReads | src/server.cpp:111-115 | An event on a slot that waits to read takes exactly what arrived and serves every request complete in it; on any other slot it reads nothing. |
| Events.EventWrites | src/server.cpp:116-119 | In the same event the socket is offered all that waits, new answers included; what it takes is written, oldest first, and the slot returns to reading exactly when nothing is left. |
| Events.EventCloses | src/server.cpp:120-123 | An event removes its connection exactly on EPOLLERR, end of file, a failed read, an oversized request, or a failed write with output left; otherwise it stays open. |
| Service.RegisterServed | src/server_utils.cpp:309-356 | Serving a registration: when it succeeds, the row in the table afterwards, and the answer in each case. |
| Service.LoginServed | src/server_utils.cpp:367-412 | Serving a login: the account whose name equals it up to letter case and whose password it has is carried and told; otherwise nothing changes, with the code that says why. |
| Service.CredentialsArrive | src/protocol.cpp:270-338 | The bytes of a register or login builder, at the head of a buffer, are the next request, of the type and with the credentials the builder was given. |
| Service.WorldServed | src/protocol.cpp:635-678 | The bytes of the client's world builder, served, go to every authenticated connection under the sender's account name. |
| Service.P2pServed | src/protocol.cpp:780-838 | The bytes of the client's private builder, served, go to the lowest slot authenticated under the recipient's name and back. |
| Service.IdsInOrder | src/db.cpp:22-25 | On a fresh table, accounts are numbered from 1 in the order of registration, and the id told is that number modulo 2^32. |
| Service.IdsDistinct | src/db.cpp:22-25 | Accounts with row ids below 2^32 are told distinct ids. |
| Service.AccessGranted | src/server.cpp:72-124 | From any reachable state, whoever connects and sends a registration and a login, under a free name and with a password without NUL, is authenticated as that new account by one event, however the bytes are cut. |
| Service.SomebodyAuthenticated | src/server_utils.cpp:398-403 | There is a reachable state in which a slot is authenticated. |
| Requests.PeekIrrelevant | src/protocol.cpp:249-253 | The byte read after an empty request makes no difference; an authenticated empty chat request is always malformed. |
| Requests.FrameLocality | src/server_utils.cpp:607-659 | Response and effects of a request do not depend on the bytes behind it. |
| Requests.RefusedWithoutEffect | src/server_utils.cpp:607-659 | A refused request has no effect on accounts, identities, the log or other connections, and its answer is a bare header of the request's type. |
| Requests.RefusalCodes | src/server_utils.cpp:309-412 | Which response code a request gets, in terms of its fields, the requester and the names stored up to letter case. |
| Requests.ChatCodes | src/server_utils.cpp:423-595 | The codes a chat request can get; the code 255 of a failed builder is not among them, whatever the state. |
| Requests.WorldDelivered | src/server_utils.cpp:438-506 | An accepted broadcast goes once to every authenticated connection and no other, and is parsed as the sender's account name and the original content. |
| Requests.WorldAcceptedExactly | src/server_utils.cpp:426-454 | The exact condition under which the log of broadcasts grows. |
| Requests.FanOutConserved | src/server_utils.cpp:93-105 | The bytes enqueued by a broadcast are its size times the metrics' count of authenticated connections. |
| Requests.ActiveCounted | src/server_utils.cpp:93-105 | The metrics' count of connections is the number of active slots. |
| Requests.AuthCounted | src/server_utils.cpp:93-105 | The count of authenticated connections is the number of slots that are active and authenticated. |
| Requests.P2pRouted | src/server_utils.cpp:543-586 | A private message goes to the lowest slot other than the sender's that is authenticated under the recipient's name, and to its sender; it is parsed as sent and touches nobody else. |
| Requests.P2pUnroutable | src/server_utils.cpp:565-569 | When no other slot is authenticated under the recipient's name only the sender changes, with USER_NOT_FOUND. |
| Requests.CredentialsEvolve | src/server_utils.cpp:309-412 | Unknown fields and field order do not affect registration and login. |
| Requests.BroadcastsEvolve | src/server_utils.cpp:436-447 | For broadcasts this holds of everything after the first field. |
| Requests.OrderIndependenceExact | src/server_utils.cpp:436-447 | A rearranged world broadcast has the original's outcome exactly when its tag still comes first or it is empty; with a private tag first it is taken for a private message, with any other it is malformed without effect. |
| Requests.PrivateOrderExact | src/server_utils.cpp:436-595 | A rearranged private message has the original's outcome exactly when its tag still comes first, or it is empty, or it is addressed to its sender and no world tag comes first; with a world tag first a non-empty one is broadcast, with any third tag first it is malformed without effect. |
| Requests.MisplacedTagRefused | src/server_utils.cpp:587-592 | A concrete payload every parser accepts and the server refuses. |
| Requests.MisplacedTagDiverts | src/server_utils.cpp:436-447 | The same fields in two orders: one is broadcast to everybody, the other is sent to one user. |
| Requests.Registered | src/server_utils.cpp:319-355 | A registration succeeds exactly when nothing fails and no stored name equals it up to letter case; the row it adds, and the id modulo 2^32 and name its answer tells. |
| Requests.LoginDecided | src/server_utils.cpp:376-411 | The stored password logs in under any name equal to the stored one up to letter case; any other is refused without effect. |
| Requests.RegisterThenLogin | src/db.cpp:51-52 | Credentials successfully registered log in, in any later state, exactly when the password has no NUL byte. |
| Requests.NulPasswordLost | src/db.cpp:51-52 | A concrete registration that succeeds and whose credentials are then refused. |
| Requests.NulPasswordRefused | src/server_utils.cpp:391-396 | Whatever the state, a login whose password holds a NUL byte is refused. |
| Requests.AccountsLast | src/server_utils.cpp:376-411 | Over any run an account keeps its place, name, id and password, so the same credentials are decided the same way in every later state. |
| ConnectionTable.ConnectionManager.constructor | src/server_utils.cpp:49-71 | The initial table. |
| ConnectionTable.NextMask | src/server_utils.cpp:217-241 | The mask after a change of state. |
| ConnectionTable.ConnectionManager.SetConnectionState | src/server_utils.cpp:212-242 | Changes the flags and the epoll interest of one slot as specified and nothing else. |
| ConnectionTable.ConnectionManager.AddConnection | src/server_utils.cpp:253-283 | Grows all vectors together when needed and activates the slot. |
| ConnectionTable.ConnectionManager.RemoveConnection | src/server_utils.cpp:285-294 | Clears the flags and the registration of one slot. |
| ConnectionTable.ConnectionManager.RegisterUser | src/server_utils.cpp:309-356 | Takes the registration step. |
| ConnectionTable.ConnectionManager.LoginUser | src/server_utils.cpp:367-412 | Takes the login step. |
| ConnectionTable.ConnectionManager.WorldRequest | src/server_utils.cpp:438-506 | Takes the world broadcast step. |
| ConnectionTable.ConnectionManager.SendToOthers | src/server_utils.cpp:481-504 | The loop notifies exactly the authenticated slots other than the sender. |
| ConnectionTable.ConnectionManager.P2pRequest | src/server_utils.cpp:507-586 | Takes the private message step. |
| ConnectionTable.ConnectionManager.FindRecipient | src/server_utils.cpp:543-564 | The search returns the lowest slot other than the sender's whose flag is set and whose name is the recipient's, or -1 when there is none. |
| ConnectionTable.ConnectionManager.HandleBroadcast | src/server_utils.cpp:423-595 | Takes the step of a chat request. |
| ConnectionTable.ConnectionManager.TryOneRequest | src/server_utils.cpp:607-659 | Serves at most one request as specified, with the 32-bit sum of header and length. |
| ConnectionTable.ConnectionManager.ServeAll | src/server_utils.cpp:707-708 | The request loop terminates and serves what the specification serves. |
| ConnectionTable.ConnectionManager.HandleReadConnection | src/server_utils.cpp:661-718 | Takes the read step. |
| ConnectionTable.ConnectionManager.HandleWriteConnection | src/server_utils.cpp:720-745 | Takes the write step. |
| ConnectionTable.ConnectionManager.DispatchEvent | src/server.cpp:111-123 | Takes the step of one event. |
| ConnectionTable.ConnectionManager.EventLoop | src/server.cpp:72-124 | Takes the steps of any possible sequence of events. |
| ConnectionTable.ConnectionManager.CountConnections | src/server_utils.cpp:93-105 | Counts the active slots and the active authenticated ones. |
| ConnectionTable.RunServer | src/server.cpp:72-124 | From the initial table, any possible events lead to the state that running them specifies, which is reachable, with one of five masks per slot. |

## Left out

- Parsers.ParseAccountResponse: requires that no user id it comes to is longer than four bytes, because the source copies as many bytes as the field announces into a four-byte variable, and a longer one has no defined result.
- Preservation.ReachableOk: states are taken between events; the order in which epoll reports descriptors within one batch is any order, since each event is a step of its own.
- Sockets, epoll, `accept`, signals and SQLite themselves: only their outcomes enter, as inputs of steps; a failed `accept` or `epoll_wait`, which ends the process, is not a step.
- `insert` and `select` errors other than a refused call: a lookup that finds nothing is taken at its word.
- Calls to `write` that take no byte forever: the write loop of one event is given finitely many calls.
- The client program (shell, threads, shutdown pipe, printing): only its builders, parsers and transfers are modelled.
- Logging, memory metrics, the standard-input command line and prompts: no behaviour beyond text.
- The text of response codes (`get_response_message`): a table.
- Capacity reservation and copying of vectors: buffers are sequences.
- Benchmarks, the load tester and the build files.
