# Chat server: protocols, framing, hub, bus, commands and codec in Dafny

A model of the chat-go server and proofs about it. Concurrent parts are step systems whose runs are
arbitrary interleavings; code that changes data in place is imperative Dafny proved against
specification functions; the claims are about every run, every byte stream or every input.

| file | what it models |
|---|---|
| `Sessions.dfy` | TCP and WebSocket session goroutines, the two nested `sync.Once` guards, the close channel, the session manager's map and counter, the heartbeat ticker |
| `Activity.dfy` | what the labels of a run say about a session: its last activity, its frames, the reasons for its end |
| `Frames.dfy`, `FrameReader.dfy`, `Writers.dfy` | length-prefixed frames as a pure format; the chunked reader with its buffer pool and the read loop; concurrent senders and their two locks |
| `Subscriptions.dfy`, `Bans.dfy`, `Clients.dfy`, `Broadcasts.dfy` | the hub: handler table with in-place cancel, lazily cleaned ban list, outboxes and client registry, broadcasts beside concurrent departures |
| `Bus.dfy` | several nodes publishing to and consuming from one stream in one consumer group |
| `Text.dfy`, `Registry.dfy`, `Commands.dfy` | command table, line parsing, permission over the history of executed lines |
| `Utf8.dfy`, `Protobuf.dfy` | valid text; the envelope codec on the Protocol Buffers wire format |
| `Sums.dfy` | options and finite sums |

`dafny verify dfyconfig.toml` checks everything.

## Findings

Where the code does not do what its documentation or the obvious reading says, the code is modelled
and the exact law is proved.

- `OnSessionClose` runs twice for a TCP session whose watcher takes the close-channel branch, and
  `Remove` always decrements, so the session count ends one too low for each such session and for no
  other (`FinishedDrift`, `FinalDrift`); for every n some run of n TCP sessions ends with the count at
  minus n (`DriftingRun`). WebSocket counts are exact (`WsExact`).
- `Base.state` is never set to closed, so the guard of `SendEnvelope` never fires and only
  `SessionContext.closed` stops a sender. A `Send` passes exactly until the reader or the watcher has
  marked the context, and before that it meets a closed connection exactly when the cancel branch or the
  heartbeat watcher has closed it directly (`SendGuards`); both happen (`SendAfterCancel`,
  `SendAfterTimeout`).
- An idle TCP session is closed no later than last activity + timeout + interval exactly if the ticker
  started within the timeout. If the welcome message blocked or the heartbeat goroutine was scheduled
  later than that, the heartbeat watcher is still waiting for its first tick at that time, and the bound
  counts from the start of the ticker (`IdleBoundExactly`, `IdleIsClosed`, `LateTicker`).
- The heartbeat watcher does not listen to the close channel; after a close it still waits for its
  timeout, which is why the bound on the remaining steps counts ticks (`AfterClose`).
- `WriteFrame` accepts an empty payload and the reader rejects it, so everything from the first empty
  frame on is lost (`ReadBack`, `WholeFrames`).
- After a failed write the session stays usable. Up to the end of that write a reader sees only sent
  frames (`NoTornFrame`); past it the next frame can be read as the end of the broken one (`TornFrame`).
- A live ban can be deleted by an `IsBanned` call that read an older entry (`VanishesExactly`,
  `LostBan`); without that overlap the map is exact (`ApartIsExact`).
- Re-registering an unregistered client leaves a closed client in the registry
  (`ReRegisteredIsClosed`, `OpenExactly`). `/kick` of one's own name replies on a closed outbox
  (`KickReplyFails`, `KickHandler`).
- `SendToAll` panics at a client that is closed between its visit and its send, and at no other; `Emit`
  recovers, and the clients not yet visited never get the message (`PanicsExactly`, `MissedExactly`,
  `MissedBroadcast`).
- A direct message consumed from the stream is published again, so direct messages circulate forever:
  under every schedule of the nodes each three steps beyond a fixed number bring another publication, and
  the system drains exactly when every direct message was lost (`Circulation`, `DrainsExactly`,
  `NeverDrains`).
- `Register` also fails when a command repeats a key among its own name and aliases (`SucceedsExactly`).
  A call that fails on an alias leaves its name and the aliases before that one bound and the command
  unlisted (`RegisterExactly`, `FailureResidue`, `ResidueLeft`), for good (`FailedForever`).
- `Register` accepts an alias with a leading slash, but `Execute` and `Get` each trim one, so `/` and the
  alias does not find it unless the command also claims the alias without its slash
  (`AnyCasingResolves`, `SlashAlias`).
- A line run without a client panics exactly when its command is not notice and accepts its arguments,
  or is auth with one argument, even an illegal one; kick and ban take effect first (`ServerSide`).
- `/ban` with 0 minutes bans for ever (`BanHandler`).
- `ProtobufCodec` drops `From` and has no code for `nick` or `heartbeat` (`SurvivesExactly`), and its
  `Decode` reads once, so a short read loses fields silently at a field boundary and fails elsewhere
  (`AnyRead`).

## Model

| member | source | states |
|---|---|---|
| Sessions.StepKeeps | internal/transport/tcp.go:123-209 | one step of any goroutine keeps the session invariant: each Once is held exactly by the thread inside it, and flags, close counts and map presence follow from the program counters |
| Sessions.MoveBalance | internal/transport/session_manager.go:20-33 | every step moves the map, the counter and the in-flight or lost updates of its session by amounts that cancel |
| Sessions.Reachable | internal/transport/tcp.go:124-138 | every interleaving of any number of sessions, cancellation and clock advances stays within the invariant |
| Sessions.ClosedOnce | internal/transport/tcp.go:59-66 | connection and close channel are closed at most once, the channel not before the connection, and exactly once when all goroutines ended |
| Sessions.SendGuards | internal/transport/tcp.go:43-46 | the state guard of SendEnvelope never fires; a Send passes exactly while neither the reader nor the watcher is past marking the context, and then meets a closed connection exactly when the cancel branch or the heartbeat watcher closed it; none passes after the id is removed |
| Sessions.SendAfterCancel | internal/transport/session.go:80-85 | a run in which a Send passes both guards although the cancel branch has closed the connection |
| Sessions.SendAfterTimeout | internal/transport/tcp.go:159-165 | for every interval and timeout a run in which a Send passes both guards although the heartbeat watcher has closed the connection |
| Sessions.NoDeadlock | internal/transport/session.go:87-94 | a goroutine blocked on a Once always waits, through at most one more Once, for a goroutine that can move |
| Sessions.StepsExactly | internal/transport/tcp.go:141-209 | a goroutine can step exactly when it reads an open connection or fails to read, sees the closed channel or the cancelled context, has a due tick, finds its Once not running, or is anywhere else before its end |
| Sessions.CountLaw | internal/transport/session_manager.go:20-33 | with no add or remove half done the counter is the map size minus the removes that found nothing |
| Sessions.FinishedDrift | internal/transport/tcp.go:141-149 | a finished session is out of the map and missed exactly one remove if it is TCP with the close-channel branch, none otherwise |
| Sessions.WsExact | internal/transport/ws.go:169-173 | with WebSocket sessions only, the counter is exactly the map size |
| Sessions.FinalDrift | internal/transport/gateway.go:76-79 | when all sessions ended the map is empty and the counter is minus the number of TCP close-channel sessions |
| Sessions.DriftingRun | internal/transport/tcp.go:141-177 | for every n a run in which n TCP sessions open, fail to read and end leaves the map empty and the counter at minus n |
| Sessions.GoneIsClosed | internal/transport/gateway.go:76-79 | an id that was added and is missing has its context marked closed and its connection and channel closed |
| Sessions.GoneForever | internal/transport/session_manager.go:20-33 | an id once removed is never in the manager again, in any continuation |
| Sessions.IdleIsClosed | internal/transport/tcp.go:152-168 | past last activity (or the start of the ticker, if later than the timeout) plus timeout plus interval the connection is closed |
| Sessions.IdleGivesUp | internal/transport/tcp.go:159-165 | with ticks served when due but any delay in closing, past that time the heartbeat watcher has left its loop |
| Sessions.IdleBoundExactly | internal/transport/tcp.go:156-162 | last activity plus timeout plus interval bounds an idle session if the ticker started within the timeout; otherwise that moment comes before the first tick, until which the watcher only waits |
| Sessions.LateTicker | internal/transport/tcp.go:131-156 | for every interval, timeout, delay of the welcome message and lag of the heartbeat goroutine, a run whose idle session is open past last activity plus timeout plus interval exactly when delay and lag together exceed the timeout |
| Sessions.LivelyIsSpared | internal/transport/tcp.go:159-167 | a session whose activity is never older than the timeout is never closed by its heartbeat watcher, even with a store between its load and its comparison, however late its ticks come |
| Activity.NeverTimedOut | internal/transport/tcp.go:159-202 | a session whose frames are decoded no more than the timeout apart, from a moment before its watcher started, is never closed by the watcher; frames and times are read off the labels |
| Activity.ActiveIsDecoded | internal/transport/tcp.go:195-205 | in every run the last activity of a session is the time of its latest decoded frame, heartbeats included and undecodable ones not, or of its acceptance |
| Activity.LoopLedger | internal/transport/tcp.go:179-208 | in every run the frames read are those garbled, the heartbeats and those decoded, all of the latter are delivered but the one in hand, and the loop is left by the first failed read and nothing else |
| Activity.CloseCauses | internal/transport/tcp.go:141-177 | a session that is closed in any way had a failed read, was cancelled, or was given up by its heartbeat watcher; the close-channel branch is taken only after the channel is closed |
| Activity.StaysOpen | internal/transport/tcp.go:141-209 | a session stays open and registered as long as no read fails, the server is not cancelled, and frames are decoded no more than the timeout apart or the heartbeat is disabled |
| Activity.IdleSinceDecode | internal/transport/tcp.go:152-168 | if the ticker started in time, the connection is closed past the time of the latest decoded frame plus timeout plus interval |
| Sessions.ClosedSessionEnds | internal/transport/tcp.go:141-193 | after the connection is closed each goroutine step lowers a rank built from program counters and remaining ticks, and nothing raises it, in every run |
| Sessions.AfterClose | internal/transport/tcp.go:133-137 | after any close the goroutines of the session take at most Rank more steps in every run, however late ticks are served |
| Sessions.ClosedSessionMoves | internal/transport/tcp.go:141-193 | a closed session that has not ended can step, or only its heartbeat watcher is left waiting for a tick |
| Frames.BigEndianRoundTrip | internal/transport/frame.go:42-43 | reading the k big-endian bytes of a number below 256^k gives the number |
| Frames.BigEndianUnique | internal/transport/frame.go:85 | a byte string is the big-endian form of its value, so a header has one reading |
| Frames.HeaderBytes | internal/transport/frame.go:42-43 | the four header bytes by value, most significant first, and the limit 16777216 |
| Frames.RoundTrip | internal/transport/frame.go:35-109 | parsing written frames of 1 to 16 MiB followed by anything yields the payloads and then the parse of the rest |
| Frames.ReadBack | internal/transport/frame.go:39 | parsing written frames yields the payloads before the first empty one, all of them exactly when none is empty |
| Frames.ParseExact | internal/transport/frame.go:85-101 | the parsed frames, framed again, are the front of the stream and what follows starts no frame |
| Frames.ParsePrefix | internal/transport/frame.go:73-109 | more bytes never change the frames already parsed |
| Frames.DeliveredPrefix | internal/transport/tcp.go:179-208 | if the connection fails early the gateway saw a prefix of what the whole stream holds |
| Frames.DeliverAppend | internal/transport/tcp.go:197-207 | deliveries follow the order of the frames |
| Frames.DeliverOne | internal/transport/tcp.go:197-207 | a frame is delivered exactly when it decodes to an envelope that is no heartbeat |
| FrameReader.Conn.Read | internal/transport/frame.go:82 | one read moves some of the next pending bytes into the buffer and leaves the rest pending |
| FrameReader.ReadFull | internal/transport/frame.go:82-101 | fills the buffer with exactly the next n bytes however they are chunked, or fails when fewer come |
| FrameReader.FrameCodec.Get | internal/transport/frame.go:93 | takes the chosen pooled buffer out of the pool, or makes a new one, sharing no array with the pool |
| FrameReader.FrameCodec.Put | internal/transport/frame.go:67-68 | pools a buffer that is not pooled, keeping buffers and arrays distinct and capacities in 64 KiB to 16 MiB |
| FrameReader.FrameCodec.Discard | internal/transport/frame.go:24-30 | the pool may drop any buffer and stays valid |
| FrameReader.FrameCodec.DiscardAll | internal/transport/frame.go:24-30 | the pool may drop any sequence of buffers and stays valid |
| FrameReader.FrameCodec.Fetch | internal/transport/frame.go:92-98 | a buffer large enough for the frame: its own array if that fits, a new one otherwise |
| FrameReader.FrameCodec.Fill | internal/transport/frame.go:92-108 | the payload is read whole into the buffer taken, or that buffer goes back to the pool |
| FrameReader.FrameCodec.ReadInto | internal/transport/frame.go:73-109 | succeeds exactly when the pure parser finds a frame, with its payload and the right remaining stream |
| FrameReader.FrameCodec.ReadFrame | internal/transport/frame.go:57-70 | returns the payload in a new array that shares nothing with the pool, and puts back the buffer taken, so none is lost |
| FrameReader.ReadAll | internal/transport/frame.go:62-69 | all frames read from a stream still hold their payloads after all later reads, for every choice of pooled buffers and every loss of buffers before each read |
| FrameReader.ReadLoop | internal/transport/tcp.go:171-209 | for every stream and every chunking the gateway receives exactly the decoded, non-heartbeat frames of the pure parse in order |
| Writers.RunKeeps | internal/transport/frame.go:44-53 | in every interleaving the wire holds the completed frames in lock order plus the header of the one under way, unless a write failed |
| Writers.WholeFrames | internal/transport/tcp.go:43-56 | with no failed write a quiet wire is the concatenation of whole frames in lock order and reads back as those payloads up to the first empty one |
| Writers.CallsAccounted | internal/transport/tcp.go:43-56 | in every run the payloads of all calls, read off the labels, are those that got the codec lock, those waiting and those refused, each as often as passed in; without encoding failures only oversized ones are refused |
| Writers.AllSent | internal/transport/frame.go:35-54 | when all calls returned, nothing failed and every payload fits, the frames on the wire carry exactly the payloads passed in, and if none is empty the reader gets exactly those |
| Writers.NoTornFrame | internal/transport/frame.go:46-52 | in every run the wire up to the end of the first failed write is the beginning of the frames in lock order, so a reader sees only sent frames there, in order |
| Writers.TornFrame | internal/transport/frame.go:46-52 | for all payloads p and q a run in which the last byte of p is not written and q is: the first frame read is p with its last byte taken from the header of q |
| Writers.NoDeadlock | internal/transport/tcp.go:47-55 | the session lock and the codec lock never deadlock |
| Subscriptions.RunRefines | internal/chat/hub.go:41-66 | after any subscriptions and cancellations the table shows, per event type, the live subscriptions in order; keys exist exactly for nonempty lists; ids are unique and increasing |
| Subscriptions.TableRefines | internal/chat/hub.go:41-66 | after any calls on a new table each event type shows its live subscriptions in order, its key exists exactly when there are some, and ids increase |
| Subscriptions.LiveExactly | internal/chat/hub.go:41-66 | the live subscriptions are exactly those made and not cancelled since, read off the calls, with their event type and handler |
| Subscriptions.CancelIdempotent | internal/chat/hub.go:48-65 | calling a cancel closure again changes nothing |
| Subscriptions.HandlerTable.Subscribe | internal/chat/hub.go:41-46 | appending to a slice, in place or in a larger array, adds one entry to one key and changes no other |
| Subscriptions.HandlerTable.Cancel | internal/chat/hub.go:48-65 | the in-place filter removes only the cancelled id, keeps order, and drops an emptied key |
| Subscriptions.FilterInPlace | internal/chat/hub.go:52-57 | the front of the array becomes the entries with other ids, in order |
| Subscriptions.HandlerTable.Snapshot | internal/chat/hub.go:70-77 | a new array holding the entries of one event type |
| Subscriptions.Emit | internal/chat/hub.go:69-87 | starts one call per handler live at the snapshot, in order, whatever is subscribed or cancelled before the calls |
| Bans.BanUntil | internal/chat/hub.go:122-130 | a ban is live forever when d <= 0 and strictly before now + d otherwise |
| Bans.BanList.BanFor | internal/chat/hub.go:122-130 | writes that entry for the name and nothing else |
| Bans.BanList.IsBanned | internal/chat/hub.go:133-151 | answers from the entry and removes it exactly when it is expired |
| Bans.LazyIsExact | internal/chat/hub.go:122-151 | with a clock that never goes back every answer of a sequential run is what the log of all bans prescribes |
| Bans.AnswersExact | internal/chat/hub.go:122-151 | from an empty list every answer of every sequential run is what the log prescribes |
| Bans.VanishesExactly | internal/chat/hub.go:133-151 | a step makes a live ban vanish exactly when it is the delete of a call that read an older, expired entry of that name |
| Bans.LatestIsLastWrite | internal/chat/hub.go:122-130 | the ban a name has by the specification is the latest one written, live for its duration from its writing, read off the labels |
| Bans.ApartIsExact | internal/chat/hub.go:133-151 | if no ban is written while a call holds a temporary entry of that name, map and log agree in every interleaving |
| Bans.ApartFromStart | internal/chat/hub.go:133-151 | the same from an empty list with any number of concurrent callers |
| Bans.LostBan | internal/chat/hub.go:146-149 | a run in which a permanent ban is lost |
| Clients.Capacity | internal/chat/client.go:21-24 | the buffer always has room for at least one message |
| Clients.BoxStepConserves | internal/chat/client.go:34-42 | one step keeps the outbox law, and a message is dropped exactly when it is sent at full capacity |
| Clients.FillsUp | internal/chat/client.go:21-42 | a new outbox takes as many messages as asked for, 256 if that is not positive, and drops every later one |
| Clients.OutboxCalls | internal/chat/client.go:34-54 | what was sent is what the calls passed in, each receive takes one message, and the outbox is closed exactly after a close |
| Clients.OutboxConservation | internal/chat/client.go:34-54 | received plus buffered is exactly what was accepted in order, accepted is a subsequence of sent, and sent is accepted plus dropped |
| Clients.NewOutboxConserves | internal/chat/client.go:21-54 | the conservation law for every run of a new outbox of any requested size |
| Clients.DrainsAfterClose | internal/chat/client.go:45-54 | after close the buffered messages can all be received and nothing accepted is lost |
| Clients.Client.Send | internal/chat/client.go:34-42 | on an open outbox appends the message if there is room and drops it otherwise |
| Clients.GaugeLaw | internal/chat/hub.go:90-119 | in every run the gauge is the number of clients plus the registrations that overwrote a live id, and joins minus leaves is the gauge |
| Clients.GaugeFromEmpty | internal/chat/hub.go:90-119 | the gauge law for every run of a new hub |
| Clients.OpenExactly | internal/chat/hub.go:90-106 | registered clients stay open under a call exactly when it does not register a closed client |
| Clients.ReRegisteredIsClosed | internal/chat/hub.go:97-106 | register, unregister, register leaves a closed client registered |
| Clients.OrderlyRuns | internal/chat/hub.go:90-119 | with distinct ids every registered client is open, joins minus leaves is the number of clients, and each id leaves at most once |
| Clients.OrderlyFromEmpty | internal/chat/hub.go:90-119 | the same for every run of a new hub |
| Clients.Hub.RegisterClient | internal/chat/hub.go:90-94 | stores the client under its id, counts a join and raises the gauge |
| Clients.Hub.LoadAndDelete | internal/chat/hub.go:98-101 | removes the id and lowers the gauge if it was present |
| Clients.Hub.UnregisterClient | internal/chat/hub.go:97-106 | removes what is stored under the id and closes the given client in either case |
| Clients.Hub.KickByName | internal/chat/hub.go:109-119 | unregisters exactly the clients of that name, in any visiting order, and reports whether there were any |
| Clients.Hub.SendToAll | internal/chat/hub.go:176-183 | every registered client gets the message once and nobody else does |
| Clients.Hub.SendToUser | internal/chat/hub.go:186-201 | every registered client of that name gets the message and nobody else does |
| Broadcasts.StepKeeps | internal/chat/hub.go:97-106 | joins, deletes, closes and the steps of any number of broadcasts keep registered clients open and each broadcast's record of visits and sends |
| Broadcasts.CastMoves | internal/chat/hub.go:176-183 | a running broadcast can always send, visit another client, or return |
| Broadcasts.MissedExactly | internal/chat/hub.go:176-183 | of the clients registered throughout, a broadcast that returns reaches each exactly once, and one that panicked misses exactly those it had not visited |
| Broadcasts.PanicsExactly | internal/chat/hub.go:97-106 | a broadcast panics at a client if and only if the client is closed between its visit and its send |
| Broadcasts.ApartReachesAll | internal/chat/hub.go:176-183 | if no client is closed while a broadcast has it in hand, no broadcast panics and each that is over reached every client registered throughout |
| Broadcasts.PanicIsFinal | internal/chat/hub.go:82-85 | a broadcast that is over sends to nobody any more in any continuation |
| Broadcasts.MissedBroadcast | internal/chat/hub.go:97-106 | for any two clients a run in which one leaves during a broadcast and the other, registered all the time, is missed |
| Bus.StepKeeps | internal/bus/redisstream/bus.go:44-74 | publish, read, handle and crash steps keep both conservation laws, the authenticity of the stream and the hand-out discipline |
| Bus.BusLaws | cmd/server/main.go:71-89 | message by message, contents included: direct messages unread, held or lost are exactly those sent; chat entries, pending and failed publishes are exactly those said; every stream entry was said by a user; no entry is broadcast twice, and each broadcast has the sender and text of its entry |
| Bus.SmoothLaws | cmd/server/main.go:71-89 | without failures a direct message is unread or held, and a chat message published or about to be, exactly as often as it was said |
| Bus.LosesExactly | internal/bus/redisstream/bus.go:28-74 | only a failed publish and a crash lose messages, and exactly which |
| Bus.StepsExactly | internal/bus/redisstream/bus.go:44-74 | when each step is possible, in particular reads of 1 to 100 entries after the last batch is handled |
| Bus.ExactlyOneBroadcast | cmd/server/main.go:81-89 | in a crash-free run with empty batches the remote broadcasts are exactly the chat entries handed out, each once |
| Bus.NeverDrains | cmd/server/main.go:75-87 | once a direct message is in the system some run of the nodes alone publishes k more direct entries, for every k |
| Bus.Circulation | cmd/server/main.go:75-87 | in every run of the nodes alone, whatever the schedule, more than Potential + 3k steps publish more than k direct entries |
| Bus.DeadRun | cmd/server/main.go:75-87 | when every direct message is lost, no run of the nodes alone publishes a direct entry |
| Bus.DrainsExactly | cmd/server/main.go:71-89 | the nodes come to rest exactly when no direct message is alive: then their runs are bounded and publish none; otherwise each run can go on and keeps publishing |
| Registry.CommandRegistry.Add | internal/command/registry.go:51-80 | the loop over aliases computes the specified table and result, residue of a failed alias included |
| Registry.BindLaw | internal/command/registry.go:68-77 | binding aliases binds exactly the nonblank ones before the first that is taken or repeated, and succeeds exactly when there is none |
| Registry.FreeExactly | internal/command/registry.go:73-75 | the count of keys bound stops at the first key that is bound already or repeats an earlier one |
| Registry.RegisterExactly | internal/command/registry.go:51-80 | the exact table and result of a call: an empty name or one with a slash changes nothing; else the keys before the first taken one are bound, all of them on success, none if the name is taken, and otherwise they stay although the call fails |
| Registry.FailureResidue | internal/command/registry.go:67-77 | a failed call changes the table exactly when it failed on an alias, and never the list |
| Registry.ResidueLeft | internal/command/registry.go:67-77 | command a with aliases b and a fails and leaves both keys bound |
| Registry.SucceedsExactly | internal/command/registry.go:51-80 | Register succeeds exactly when the name is usable and all keys of the command are unbound and pairwise different |
| Registry.CallsSound | internal/command/registry.go:51-96 | over every sequence of calls no key is rebound or lost, listed commands hold exactly their keys, commands that failed on an alias are unlisted and hold a nonempty proper front part of theirs, and no other command is bound |
| Registry.FailedForever | internal/command/registry.go:64-77 | a command that failed on an alias stays bound at its name and unlisted in every continuation, and registering it again fails |
| Registry.DisjointKeys | internal/command/registry.go:64-78 | listed commands claim disjoint keys |
| Text.FieldsJoin | internal/command/registry.go:103 | splitting joined whitespace-free words gives the words back |
| Text.TrimFields | internal/command/registry.go:99-103 | trimming keeps the fields, and a trimmed line starts as its first field does |
| Text.TrimExactly | internal/command/registry.go:55 | trimming takes spaces off both ends and leaves a string that neither starts nor ends with one |
| Text.SpaceCodes | internal/command/registry.go:103 | the six characters that count as space |
| Text.LowerCodes | internal/command/registry.go:83 | lower-casing keeps the length and moves exactly the capital letters, by 32 |
| Commands.OnlyFieldsMatter | internal/command/registry.go:98-107 | Execute depends only on the field list, so respacing a line changes nothing, and the empty-parts branch is never taken |
| Commands.AnyCasingResolves | internal/command/registry.go:82-118 | a slash and any casing of a claimed whitespace-free key looks up that key without a leading slash, with exactly the remaining words as arguments; it finds the command exactly when the key has no leading slash or the command also claims it without |
| Commands.SpellingResolves | internal/command/registry.go:55-118 | a name or alias registered in any casing with any spaces around it is found by a slash and any other casing of it |
| Commands.SlashAlias | internal/command/registry.go:83-107 | a command with an alias /y registers, the line //y does not find it, and ///y does |
| Commands.OutcomeExactly | internal/command/registry.go:98-118 | a line is not a command without a leading slash, not found with an unbound key, and otherwise denied or run according to the level |
| Commands.UsageExactly | internal/command/builtin.go:62-200 | how many arguments each command takes and which of them are checked |
| Commands.LevelIsLastAuth | internal/command/builtin.go:59-79 | the level of a client is exactly what its latest successful auth line set |
| Commands.AdminRunsExactly | internal/command/registry.go:114-145 | a level 1 handler runs for a client exactly when that client's latest successful auth line set level 1 |
| Commands.RunsExactly | internal/command/registry.go:128-145 | a command runs for a client exactly when it needs no level, or level 1 and the client's latest successful auth line set level 1 |
| Commands.AtoiDecimal | internal/command/registry.go:140 | Atoi reads back decimal numbers with or without a sign |
| Commands.EffectsAuthorised | internal/command/builtin.go:82-132 | every kick and ban of a run was authorised when it happened |
| Commands.EffectsExactly | internal/command/registry.go:114-124 | the effects of a run are exactly those of the lines that worked, each once and in order, with their client, handler and arguments |
| Commands.BuiltinsRegistered | internal/command/builtin.go:12-211 | the ten built-in commands register and are found under their names and nothing else is; auth is open to everyone, kick and ban need level 1 |
| Commands.KickAndBan | internal/command/builtin.go:82-132 | after any lines by anybody, any casing of /kick or /ban by a client runs that command exactly when the client's latest successful auth line set level 1 and is denied otherwise |
| Commands.BuiltinAuthLine | internal/command/builtin.go:59-79 | the lines that set a level are exactly auth with the one argument 0 or 1 |
| Commands.BuiltinEffects | internal/command/builtin.go:82-132 | in every run of the built-in commands each kick and ban for a client was authorised at its line |
| Commands.KicksExactly | internal/command/builtin.go:82-100 | client c kicked a name at line i exactly when line i is c's, spells kick with that one argument, and c's latest successful auth line before it set level 1 |
| Commands.BansExactly | internal/command/builtin.go:103-132 | the same for ban with a name and, given more arguments, a number that is not negative |
| Commands.DoesExactly | internal/command/builtin.go:12-211 | the same for every built-in command |
| Commands.ServerSide | internal/command/builtin.go:62-96 | for every history, casing and arguments: exactly when a built-in command run without a client panics, that it sets no level, and that only notice, kick and ban do their work |
| Commands.KickReplyFails | internal/command/builtin.go:85-96 | after the kick the caller is closed exactly when it was closed before or kicked itself |
| Commands.KickHandler | internal/command/builtin.go:85-96 | the kick takes effect, and the reply is lost to a panic exactly when the caller was closed before or kicked itself; otherwise the caller gets the reply that fits |
| Commands.BanHandler | internal/command/builtin.go:106-128 | a ban without minutes or with 0 is permanent, otherwise it holds for that many minutes; no other name is touched |
| Protobuf.VarintRoundTrip | internal/protocol/protobuf_codec.go:28 | a varint below the limit of its width reads back as its value |
| Protobuf.VarintBound | internal/protocol/protobuf_codec.go:51 | what is read as a varint fits 64 bits |
| Protobuf.VarintExample | internal/protocol/protobuf_codec.go:28 | the example of the specification: 150 is the bytes 0x96 and 0x01 |
| Protobuf.SignedRoundTrip | internal/protocol/protobuf_codec.go:24 | 64-bit values and enum codes survive the two's complement form on the wire |
| Protobuf.ReadRecord | internal/protocol/pb/envelope.pb.go:143-156 | decoding a record stores its field and continues with the rest |
| Protobuf.CutRecord | internal/protocol/protobuf_codec.go:43-53 | a record cut short anywhere is an error |
| Protobuf.MessageRoundTrip | internal/protocol/pb/envelope.pb.go:143-156 | every message of the schema, sender and receiver included, comes back from its records, and Decode drops those two |
| Protobuf.TagBytes | internal/protocol/pb/envelope.pb.go:143-156 | the tag byte of each of the nine fields |
| Protobuf.DefaultsOmitted | internal/protocol/protobuf_codec.go:28 | a field is left off the wire exactly when it has its default value |
| Protobuf.TextChecked | internal/protocol/protobuf_codec.go:51 | text fields that are not UTF-8 are errors, data may be anything |
| Protobuf.FixedWidth | internal/protocol/protobuf_codec.go:51 | unknown fixed-width fields are skipped with their 8 or 4 bytes or are errors when cut short |
| Protobuf.VarintSkipped | internal/protocol/protobuf_codec.go:51 | an unknown varint field is skipped |
| Protobuf.BytesSkipped | internal/protocol/protobuf_codec.go:51 | an unknown length-delimited field is skipped |
| Protobuf.BadKey | internal/protocol/protobuf_codec.go:51 | field number 0, an end of a group without its start and wire types 6 and 7 are errors |
| Utf8.ValidExactly | internal/protocol/protobuf_codec.go:28 | the accepted byte strings are exactly the UTF-8 encodings of sequences of Unicode scalar values |
| Utf8.ValidConcat | internal/protocol/protobuf_codec.go:28 | valid strings can be joined |
| Utf8.AsciiValid | internal/protocol/protobuf_codec.go:28 | every ASCII string is valid |
| Protobuf.EncodesExactly | internal/protocol/protobuf_codec.go:17-31 | Encode succeeds exactly when version, message id and correlation id are UTF-8 encodings |
| Protobuf.EncodeIsMessage | internal/protocol/protobuf_codec.go:17-34 | Encode writes the message with the codes of type and encoding and without sender and receiver |
| Protobuf.SchemaCodes | internal/protocol/protobuf_codec.go:71-133 | the enum numbers of the schema in both directions |
| Protobuf.Target.DecodeInto | internal/protocol/protobuf_codec.go:37-67 | for every size limit and outcome of the single read the target is overwritten with what the bytes read decode to, and kept on a read or decode error or the panic on a negative limit |
| Protobuf.DecodeEncode | internal/protocol/protobuf_codec.go:17-67 | decode after encode is the projection for every envelope with valid strings that fits the limit |
| Protobuf.ProjectIdempotent | internal/protocol/protobuf_codec.go:71-133 | projecting twice is projecting once |
| Protobuf.SurvivesExactly | internal/protocol/protobuf_codec.go:93-133 | an envelope comes back unchanged exactly when it has no sender and its type and encoding have codes |
| Protobuf.CutAtBoundary | internal/protocol/protobuf_codec.go:38-48 | a limit at the end of the k-th field yields just the first k fields |
| Protobuf.CutExactly | internal/protocol/protobuf_codec.go:38-53 | a smaller limit decodes exactly when it cuts at the end of a field |
| Protobuf.AnyRead | internal/protocol/protobuf_codec.go:43-53 | for every number of bytes the read returns: all give the projection, a field boundary gives the earlier fields, anything else is an error |
| Protobuf.LimitZero | internal/protocol/protobuf_codec.go:38-53 | limit 0 yields the empty envelope without an error |
| Protobuf.EncodeKernel | internal/protocol/protobuf_codec.go:17-34 | two envelopes encode alike exactly when they have the same projection |

## Left out

- The JSON codec and the JSON payloads: decoding a frame is an arbitrary pure function.
- Sockets, the WebSocket upgrade and control frames, HTTP listeners: only reads, read errors, writes and closes are steps.
- The TCP read deadline, whose duration is multiplied by a second once too often: its expiry is one of the read errors.
- Redis itself: a consumer group hands each new entry to one reader; reconnects, trimming and acknowledgement state are not modelled.
- Metrics, logging, configuration and the message factory: times and ids are inputs, ids are fresh.
- `cmd/client` and `cmd/peek`, which repeat the framing.
- Integer widths of handler ids, counters and ban durations: unbounded, so a ban of so many minutes that the duration wraps is not modelled.
- FrameReader.FrameCodec.ReadFrame: calls on one codec come one after the other, because each codec belongs to one session with one reading goroutine.
- Sessions.IdleIsClosed: assumes that ticks are served when due and that the clock stands still until a heartbeat watcher that gave up has the connection closed; `IdleGivesUp` needs only the first.
- Clients.Hub.SendToAll: requires every registered outbox to be open, because a send on a closed channel panics; `OrderlyRuns` shows when that holds. Registry calls are sequential; `Broadcasts.dfy` treats the send to all beside concurrent departures.
- Clients.Client.Send: the name of a client is fixed, so renaming a registered client is not modelled.
- Broadcasts.PanicsExactly: a client joins once and is unregistered only after it joined, and Range reads an entry at the moment it visits it; broadcasts to one user name are not modelled beside departures.
- Commands.AnyCasingResolves: whitespace and case are ASCII.
- Commands.EffectsAuthorised: handlers are modelled by whether they accept their arguments and by their effect on levels; their chat output is not, and what `fmt.Sscan` reads from a number is an input. A panic is an outcome of its line; that it may end the process is not modelled. Nor is the panic of a handler that replies to a client whose outbox is closed, except for kick in `KickHandler`.
- Protobuf.ReadRecord: groups (wire type 3), which the schema does not use, are rejected instead of skipped.
- Bus.BusLaws: the time of a message is not among its contents.
- The gateway's dispatcher with its single ping handler, `Get`, `GetAll` and `List`, which only look up or copy.
