# Shells: the byte pipeline and its guards

Shells serves terminals to browsers. This project models the path of the bytes, from the PTY to the
WebSocket, and the smaller state machines around it, and proves properties of that model with Dafny 4.11.
`dafny verify dfyconfig.toml` checks everything.

The pipeline, stage by stage:

- `Stream`, `StreamLaws`, `TerminalOutput`, `Restore`: the incremental terminal parser, its laws over whole
  streams, how it hears well-formed output, and which synthesised title and mode sequences it understands.
- `RingBuffer`: the growing circular chunk buffer, refined by a sequence of entries.
- `Session`, `SessionLaws`, `SessionFlush`: the OnData closure that re-chunks output at clean boundaries, keeps a
  carry and feeds the ring; conservation, replay cleanliness, forced flushes and the terminal view over whole runs.
- `Relay`, `RelayRuns`, `RelayOrder`, `RelayPauses`, `RelayBudget`, `EndToEnd`: the per-client relay; safety in
  every interleaving, the exact step that loses the order, what heartbeats account for, what its ring may
  drop, and the composition of session, replay and relay.
- `Frames`, `Reader`, `Reassembly`, `WriteQueue`, `WriteProgress`: the RFC 6455 codec, the read loop, and the
  write queue with its close protocol and pong cap as a step relation, safe in every state and never stuck.

Around it: `RateLimit` (sliding window), `Kdf` (PBKDF2 and HKDF), `Quoting` (shell quoting, octal wrapping),
`PrefixSearch` (completion filter), `RemotePath` (path sanitiser), `Supervisor` and `Updates` (self-update),
`PasteEviction`, `SingleFlight` (update check) and `Lifecycle` (session creation and destruction). `Bytes`
holds what all share.

How the model relates to the program:

- Objects that the program updates in place are classes; each method is proved equal to a function of the old
  state, and the properties are proved about that function. Interleaved code (relay environment, write queue,
  lifecycle, update check) is a step relation in which every lock region or atomic operation is one step, and
  the theorems quantify over all sequences of steps. In three of these relations a step that is not enabled
  does nothing; in `RelayRuns` and
  `RelayPauses` a run lists enabled steps only.
- The parser returns the callbacks it makes as a list of events, in order. The relay is generic in the type of
  a byte, so that runs can tag every byte with its position.
- Clocks, the size of the write queue at each look, timer identities, the outcome of file operations and of
  health probes, and all scheduling are inputs. The pseudorandom function and the file digest are arbitrary
  functions. Chunks are values: the program pushes fresh copies, so no aliasing is observable.

Where the program does less than its comments or callers suggest, the code is followed and the exact condition
is proved: a replayed title (`Restore.TitleRoundTrip`), a long mode list (`Restore.ModesRoundTrip`), relay order
(`RelayOrder.OrderBrokenExactlyByOvertaking`), a throttled replay (`EndToEnd.ReplayComplete`), the carry on
attach (`EndToEnd.ClientSeesAllButLostAndCarry`), the buffered amount after a close frame
(`WriteQueue.BufferedAmount`), windows of different length on one limiter
(`RateLimit.ForgettingIsWhatOverfills`), the heartbeats of a pause (`RelayPauses.HeartbeatAccounting`), sanitised
paths (`RemotePath.SanitizedLeadsToSamePlace`), and the registry of sessions (`Lifecycle.StuckExactly`). The comment on `waitOrSignal` reads -1 as a
received stop signal, but a child killed by a signal also has exit code -1; the supervisor then exits instead
of counting a crash, and the model does the same.

## Model

| member | source | states |
|---|---|---|
| Stream.CleanLength | internal/stream/stream.go:65-71 | the clean length is the longest non-empty prefix that ends in ground, 0 if there is none |
| Stream.Parser.constructor | internal/stream/stream.go:61-63 | a new parser is in ground with empty buffers |
| Stream.Parser.ParseByte | internal/stream/stream.go:72-187 | the switch over the eight states takes one byte exactly as the automaton does, callbacks included |
| Stream.ReportModes | internal/stream/stream.go:108-120 | the index loop reports one mode per non-empty field of the list, in order |
| Stream.Parser.Parse | internal/stream/stream.go:69-194 | final state, ordered callbacks and clean length of a call |
| StreamLaws.ChunkingIndependence | internal/stream/stream.go:69-194 | for every split into calls, callbacks and final state equal those of one call |
| StreamLaws.CleanLengthConcat | internal/stream/stream.go:65-71 | the clean length of a stream is found in the last call that reaches ground, wherever the call boundary falls |
| StreamLaws.GroundActsFresh | internal/stream/stream.go:69-194 | from ground, leftover buffers never influence later callbacks or states |
| StreamLaws.GroundCleanLength | internal/stream/stream.go:69-194 | nor clean lengths |
| StreamLaws.RunReachable | internal/stream/stream.go:102-187 | caps of 256 and 4096 bytes hold in every reachable state, and every reported mode is a non-empty digit string |
| StreamLaws.TitleGuardNeverSuppresses | internal/stream/stream.go:150-174 | after any input, a terminator inside an OSC string reports exactly the collected text |
| TerminalOutput.TokenHeard | internal/stream/stream.go:69-194 | from ground, text, mode settings and resettings, titles of every kind with either terminator, and other sequences are heard exactly as they are meant, and lead back to ground |
| TerminalOutput.OutputHeard | internal/stream/stream.go:69-194 | so is any sequence of them |
| TerminalOutput.SessionFollowsModes | internal/session/session.go:328-337 | however reads cut such output, a mode is active iff some part set it and no later one reset it |
| TerminalOutput.ResetRemovesModes | internal/stream/stream.go:108-122 | after any output that ends in ground, resetting modes removes exactly those from the session |
| Restore.TitleRoundTrip | internal/wshandler/relay.go:50-54 | the restore sequence yields exactly the title and ends in ground iff the title meets a checkable byte condition |
| Restore.PlainTitleRoundTrip | internal/wshandler/relay.go:50-54 | every title without ESC and BEL of at most 4096 bytes meets it |
| Restore.ReportedTitleNotRestorable | internal/stream/stream.go:166-179 | a title the parser itself reports (ending in ESC) does not round-trip and leaves the parser inside the string |
| Restore.SanitizeTitle | internal/wshandler/wshandler.go:793-802 | the output is the UTF-8 of the printable runes, and any such title of at most 4096 bytes round-trips |
| Restore.OnlyControlsDropped | internal/wshandler/wshandler.go:793-802 | exactly the control characters are dropped, wherever they stand |
| Restore.ModesRoundTrip | internal/wshandler/wshandler.go:603-608 | the mode restore sequence always ends in ground and sets exactly the given modes in order iff they join to at most 256 bytes |
| RingBuffer.EvictIsLongestFittingSuffix | internal/ringbuf/ringbuf.go:48-53 | eviction leaves the longest suffix below the byte budget and within the entry cap, or the newest entry alone |
| RingBuffer.Buffer.constructor | internal/ringbuf/ringbuf.go:28-36 | a new buffer is empty with capacity 512 |
| RingBuffer.Buffer.Push | internal/ringbuf/ringbuf.go:40-54 | contents become the eviction of old ++ [new]; true iff something was evicted; byte total, nil dead slots and capacity bound kept |
| RingBuffer.Buffer.PutLast | internal/ringbuf/ringbuf.go:42-46 | writing at tail appends the entry, across wrap-around |
| RingBuffer.Buffer.Shift | internal/ringbuf/ringbuf.go:57-68 | removes and returns the oldest chunk, nil when empty |
| RingBuffer.Buffer.Len | internal/ringbuf/ringbuf.go:71 | number of entries |
| RingBuffer.Buffer.Snapshot | internal/ringbuf/ringbuf.go:74-80 | all chunks, oldest first |
| RingBuffer.Buffer.EvictOne | internal/ringbuf/ringbuf.go:82-88 | drops the oldest entry and clears its slot |
| RingBuffer.Doubled | internal/ringbuf/ringbuf.go:94-98 | the new capacity holds the entries, is one of 512 to 16384 and less than twice what is needed when it grew |
| RingBuffer.Buffer.CopyTo | internal/ringbuf/ringbuf.go:99-105 | growth moves the entries, oldest first, to the front of the new arrays |
| RingBuffer.Buffer.Grow | internal/ringbuf/ringbuf.go:94-110 | replacing the arrays keeps the contents |
| RingBuffer.Buffer.EnsureCapacity | internal/ringbuf/ringbuf.go:90-111 | there is room for one more entry and the contents are unchanged |
| Session.Session.OnData | internal/session/session.go:346-394 | parse, callbacks, carry, forced flush and push as one function of the old state; nothing after destruction |
| Session.Session.Rechunk | internal/session/session.go:352-393 | what goes into the ring and what is carried over |
| Session.Session.Callbacks | internal/session/session.go:328-343 | modes and title after the callbacks, in order |
| Session.Session.SetTitle | internal/wshandler/wshandler.go:457-463 | a client's title changes nothing else |
| SessionLaws.EvictAbsorbs | internal/ringbuf/ringbuf.go:40-54 | evicting after every push equals one eviction at the end |
| SessionLaws.InvariantHolds | internal/session/session.go:346-394 | over every run: carry empty iff ground; pushed chunks plus carry are the received bytes; the ring is the eviction of all pushes; a push ends in ground iff it is no forced flush |
| SessionLaws.OutputConservation | internal/session/session.go:346-394 | snapshot ++ carry is a suffix of all PTY bytes, losing only whole chunks from the front, and only because no longer suffix fits |
| SessionLaws.CarryBounded | internal/session/session.go:357-374 | with reads of at most n bytes the carry never exceeds 4095 + n |
| SessionLaws.ReplayCleanliness | internal/session/session.go:377-393 | every push but a forced flush and the one after it goes ground to ground, and a fresh parser repeats its live callbacks |
| SessionLaws.SnapshotReplay | internal/session/session.go:616-620 | the live parser was in ground at the first retained byte iff the last evicted chunk was no forced flush; then replaying snapshot and carry repeats exactly the live callbacks and automaton state |
| SessionFlush.OnlyLongChunksEndInside | internal/session/session.go:357-374 | in every run a chunk behind which the automaton is not in ground has at least 4096 bytes |
| SessionFlush.PushesEndInGroundExactly | internal/session/session.go:350-374 | all chunks end in ground iff no read that reaches none comes when 4096 or more bytes wait for ground |
| SessionFlush.ShortWaitsReplayExactly | internal/session/session.go:346-394 | if fewer than 4096 bytes ever wait for ground, every snapshot replays exactly |
| SessionLaws.ViewOfInputs | internal/session/session.go:328-343 | with any titles set by clients in between: they leave parser, carry and ring alone, and modes and title are the fold of callbacks and client titles in order |
| SessionLaws.ModesOfStream | internal/session/session.go:328-337 | the modes depend only on the bytes, not on the reads nor on client titles |
| SessionLaws.ModesAreLastToggles | internal/session/session.go:328-337 | a mode is active iff it was set and not reset since |
| SessionLaws.TitleIsLastReported | internal/session/session.go:338-342 | the title is the last one that output or a client set, or the initial one |
| SessionLaws.SessionModesRestore | internal/wshandler/wshandler.go:603-608 | for any terminal history and any listing of its active modes, the restore sequence is exact iff it fits the cap |
| SessionLaws.AnyModesActive | internal/stream/stream.go:102-120 | any modes of at most 256 digits each can be active together |
| SessionLaws.TooManyModes | internal/wshandler/wshandler.go:603-608 | so some session has modes that its restore sequence does not set |
| Relay.AttachState.Buffer | internal/ringbuf/ringbuf.go:40-54 | pushing into the client ring, with what it drops logged |
| Relay.AttachState.OnPtyData | internal/wshandler/relay.go:89-139 | throttle check, ring or coalesce buffer, leading edge, size flush and timer as one function of the old state |
| Relay.AttachState.NotePausedBytes | internal/wshandler/relay.go:107-115 | the paused heartbeat |
| Relay.AttachState.FlushCoalesceLocked | internal/wshandler/relay.go:141-157 | the coalesced bytes go out, or into the ring while held back |
| Relay.AttachState.FlushClientBufferLocked | internal/wshandler/relay.go:225-237 | drains the ring until a full write queue, then unthrottles below the low mark |
| Relay.AttachState.BackpressureCheck | internal/wshandler/relay.go:190-210 | closes above the limit, else drains a throttled, unpaused attachment below the low mark |
| Relay.AttachState.ReplayBuffer | internal/wshandler/relay.go:38-85 | batching, sending and throttling of a replay |
| RelayRuns.PushFacts | internal/wshandler/relay.go:105-106 | a push drops bytes only from the ring's front and always keeps the new chunk |
| RelayRuns.FlushClientFacts | internal/wshandler/relay.go:225-237 | draining moves bytes from ring to delivered in order; a ring left non-empty is throttled |
| RelayRuns.FlushClientUntilFull | internal/wshandler/relay.go:225-237 | it sends exactly the entries before the first look that finds the write queue full; throttling ends only with all sent and a look below the low mark |
| RelayRuns.StepConserves | internal/wshandler/relay.go:89-237 | every step moves bytes between delivered, ring, coalesce buffer and evicted without loss or duplication |
| RelayRuns.StepScheduled | internal/wshandler/relay.go:89-237 | every step keeps: non-empty ring means paused, throttled or resuming; coalesced bytes have an armed timer and stay below 131072 |
| RelayRuns.RunSafe | internal/wshandler/relay.go:89-237 | both invariants over every interleaving, stale timers included |
| RelayBudget.EvictsOnlyOverBudget | internal/wshandler/relay.go:105-106 | in any run, while nothing is drained, the ring is the longest suffix of what it held and what came in that is below the budget and within 10000 entries (or the newest); only what comes before is evicted |
| RelayBudget.ResumedPauseDeliversAll | internal/wshandler/wshandler.go:442-456 | a pause within the budget, resumed with an empty write queue, loses nothing and delivers all output received in it |
| RelayBudget.SendsOnlyWhenAllowed | internal/wshandler/relay.go:101-156 | data goes out only while neither paused nor throttled, or by a drain that finds room; what starts and ends throttling |
| RelayBudget.RunKept | internal/ringbuf/ringbuf.go:48-53 | in every reachable state the client ring is within its budget, or a single chunk |
| RelayOrder.ExactlyOnePlace | internal/wshandler/relay.go:89-173 | each received byte occurs exactly once in one of the four places |
| RelayOrder.OrderBrokenExactlyByOvertaking | internal/wshandler/relay.go:101-157 | from an ordered state, a step keeps the order iff it does not overtake (a guard on the state before it) |
| RelayOrder.OrderKeptWithoutOvertaking | internal/wshandler/relay.go:89-173 | over whole runs: in order at every moment iff no step overtakes |
| RelayOrder.RunDeliversInOrder | internal/wshandler/relay.go:89-173 | without overtaking, delivered ++ ring ++ coalesced is the received stream in order minus only evicted bytes, at every step |
| RelayOrder.DisciplinedRun | internal/wshandler/wshandler.go:442-456 | if holding back begins with nothing coalesced and no output lands inside a resume, no step overtakes |
| RelayOrder.PauseReorders | internal/wshandler/wshandler.go:442-456 | whenever bytes are coalesced, a pause and resume around the next chunk delivers that chunk first |
| RelayOrder.ReorderingRun | internal/wshandler/relay.go:119-138 | such a run exists from every idle attachment |
| RelayOrder.NothingStuck | internal/wshandler/relay.go:190-237 | one tick with an empty write queue and one timer callback deliver everything of an unpaused attachment |
| RelayOrder.LeadingEdgeDelivers | internal/wshandler/relay.go:25-31 | in any run, output that nothing holds back leaves the client with everything received (but evictions) iff it comes after an idle window, fills the buffer, or there is nothing to send; otherwise a timer is armed |
| RelayPauses.HeartbeatAccounting | internal/wshandler/relay.go:105-116 | in any run, between a pause and its resume: heartbeats and the pending count account for exactly the output received, at least a second apart; and for everything held back iff nothing was coalesced at the pause or no timer fired |
| RelayPauses.TimerFlushUnreported | internal/wshandler/relay.go:152-156 | bytes coalesced before a pause go into the ring unreported |
| RelayPauses.ResumeForgetsLastBeat | internal/wshandler/wshandler.go:447-456 | a resume lets two heartbeats come at one instant |
| RelayPauses.RunCalm | internal/wshandler/wshandler.go:442-456 | outside a pause the counters are zero, in every reachable state |
| EndToEnd.ReplayFacts | internal/wshandler/relay.go:47-84 | replay hands over, in order, exactly the chunks up to the one at which the write queue was first found full |
| EndToEnd.ReplayComplete | internal/wshandler/relay.go:56-73 | always a prefix of title ++ snapshot; the whole of it iff the write queue is not full at any batch, found from the chunk sizes, that bytes of later chunks follow |
| EndToEnd.ConsumedAll | internal/wshandler/relay.go:59-73 | every chunk is taken iff the write queue is not full at a batch filled before the last chunk |
| EndToEnd.SnapshotCutShort | internal/wshandler/relay.go:59-66 | six reads of 8192 bytes and a full write queue: the sixth never reaches the client |
| EndToEnd.ReplayIsInitial | internal/wshandler/wshandler.go:532-601 | a replayed attachment is an initial state of the relay runs that received title and the snapshot taken, whatever stale timers linger |
| EndToEnd.ClientSeesAllButLostAndCarry | internal/wshandler/wshandler.go:544-601 | session, replay with any backlog, and relay composed: the client's line is title, the snapshot taken and all later output, minus exactly what its ring evicted; it misses the lost chunks, the rest of the snapshot, and the carry |
| Frames.EncodeFrameRoundTrip | internal/websocket/websocket.go:433-452 | shortest length form; payloadLenOf reads the length back; an independent decoder recovers opcode and payload (section 5.2 of RFC 6455) |
| Frames.MaskInvolution | internal/websocket/websocket.go:509-513 | unmasking undoes masking (section 5.3 of RFC 6455) |
| Frames.ReadFrameRoundTrip | internal/websocket/websocket.go:455-516 | any masked frame in any length form is recovered with exactly its bytes iff it has at most MaxPayload bytes, else refused |
| Frames.ReadFrameSound | internal/websocket/websocket.go:455-516 | whatever readFrame accepts is the encoding of what it returns |
| Reader.Unmask | internal/websocket/websocket.go:509-513 | the in-place loop computes the mask |
| Reader.ReadFrame | internal/websocket/websocket.go:455-516 | the reader returns the frame at the front, or the error, and consumes exactly the frame |
| Reader.HandleFrame | internal/websocket/websocket.go:356-387 | the switch on the opcode |
| Reader.ReadLoop | internal/websocket/websocket.go:345-388 | all actions of the loop on any input bytes |
| Reassembly.FrameStreamRoundTrip | internal/websocket/websocket.go:455-516 | repeated reads recover any concatenation of masked frames and leave the rest untouched |
| Reassembly.MessagesReassembled | internal/websocket/websocket.go:356-382 | any fragmentation with interleaved pings and pongs: every ping is answered and every message delivered, in order, and nothing else is done (section 5.4 of RFC 6455) |
| Reassembly.ReadLoopDeliversMessages | internal/websocket/websocket.go:345-388 | the same from the bytes on the wire, for all keys and length forms |
| Reassembly.MessagesDelivered | internal/websocket/websocket.go:366-382 | the deliveries are exactly the messages, with the right flag |
| Reassembly.ReadLoopEnds | internal/websocket/websocket.go:362-387 | behind legal messages: a close frame is echoed with its status, an overflow ends with 1009, an unknown opcode with 1002, and nothing more is done |
| Reassembly.FragmentedDeliveredExactly | internal/websocket/websocket.go:366-382 | a fragmented message is delivered iff it has at most MaxPayload bytes in all, else the loop ends with 1009 |
| Reassembly.DeliveriesBounded | internal/websocket/websocket.go:373-378 | no delivered payload exceeds MaxPayload, whatever arrives |
| WriteQueue.StepMoves | internal/websocket/websocket.go:243-314 | each step stays, appends, takes, writes or accounts for frames, with the counter change that goes with it |
| WriteQueue.RunInvariants | internal/websocket/websocket.go:234-314 | the protocol invariants hold in every reachable state |
| WriteQueue.WireFollowsQueue | internal/websocket/websocket.go:243-314 | the wire is a prefix of the enqueue order; at most one close frame, and nothing after it (section 5.5.1 of RFC 6455) |
| WriteQueue.BufferedAmount | internal/websocket/websocket.go:243-307 | buffered is the payload of data, ping and pong frames not yet accounted for, minus the close payload once that is |
| WriteQueue.BufferedAmountAfterClose | internal/websocket/websocket.go:267-307 | so it ends at minus the close payload |
| WriteQueue.CloseAlone | internal/websocket/websocket.go:262-308 | a run that ends so, for every close payload |
| WriteQueue.PongCap | internal/websocket/websocket.go:234-308 | unwritten pongs never exceed 2, with check, enqueue, count, write and discount as separate steps |
| WriteQueue.DroppedPingHasPongs | internal/websocket/websocket.go:234-237 | a ping is dropped only while two pongs are pending |
| WriteProgress.StopsOnlyWhenDone | internal/websocket/websocket.go:282-314 | without a failed write, the write loop stops only behind Close or teardown with everything enqueued written; on a connection left open it never stops |
| WriteProgress.EverythingIsWritten | internal/websocket/websocket.go:282-314 | from every such state the write loop's own steps bring everything enqueued to the wire, with buffered 0 but for a close payload; it has stopped then iff the connection is closing |
| WriteProgress.DeedReachesWire | internal/websocket/websocket.go:234-275 | a message sent, a ping answered below the cap, and a close frame reach the wire behind everything before |
| RateLimit.Collect | internal/util/ratelimit.go:49-57 | the filter loop with its early stop |
| RateLimit.RateLimiter.Allow | internal/util/ratelimit.go:29-64 | decision and new state of a call |
| RateLimit.RateLimiter.DropIdle | internal/util/ratelimit.go:36-47 | the sweep deletes exactly the keys without a time after the cutoff |
| RateLimit.AllowIsSlidingWindow | internal/util/ratelimit.go:26-64 | whatever windows other keys use, as long as no call forgets: admitted iff fewer than limit admissions of the full history lie in the window; entries never exceed limit |
| RateLimit.NoWindowOverfull | internal/util/ratelimit.go:26-64 | under the same condition no interval of window length ever holds more than limit admissions |
| RateLimit.OtherCallForgets | internal/util/ratelimit.go:33-47 | a call on another key keeps entry and full history in agreement iff it does not forget (sweeps live times that are older than its own window) |
| RateLimit.ForgettingDisagrees | internal/util/ratelimit.go:33-47 | over runs: the first call that forgets is the first after which they disagree |
| RateLimit.ForgettingIsWhatOverfills | internal/util/ratelimit.go:33-64 | and exactly then can calls on the key overfill a window right after it |
| RateLimit.LongerWindowForgetsNothing | internal/util/ratelimit.go:33-47 | calls with no shorter window never forget |
| RateLimit.HourlyLimitForgotten | internal/api/api.go:297 | with the windows in use, the hourly limit of 2 admits a third |
| RateLimit.IdleKeysDropped | internal/util/ratelimit.go:33-47 | a call more than a minute after the one before leaves no other key that is idle by its own window |
| RateLimit.OneSweepAMinute | internal/util/ratelimit.go:33-47 | for a minute after a call that dropped a key, none is dropped |
| Kdf.Pbkdf2 | internal/crypto/crypto.go:414-446 | the loops over reused buffers compute PBKDF2 of section 5.2 of RFC 8018 for every iteration count and length |
| Kdf.DeriveBlock | internal/crypto/crypto.go:429-442 | one block, exclusive-ored in place |
| Kdf.XorInto | internal/crypto/crypto.go:439-441 | the in-place exclusive or |
| Kdf.BlockBytes | internal/crypto/crypto.go:424-427 | the four shifts are the big-endian block index |
| Kdf.BlockAt | internal/crypto/crypto.go:419-445 | block i of the key depends on i alone |
| Kdf.Pbkdf2Prefix | internal/crypto/crypto.go:445 | shorter keys are prefixes of longer ones |
| Kdf.HkdfExpand | internal/crypto/crypto.go:397-411 | the loop over a reused buffer, with its wrapping byte counter, computes HKDF-Expand of section 2.3 of RFC 5869 for every length |
| Kdf.Hkdf | internal/crypto/crypto.go:386-395 | extract, then expand |
| Kdf.ExpandPrefix | internal/crypto/crypto.go:410 | shorter outputs are prefixes of longer ones |
| Quoting.ShellEscapeInContext | internal/ssh/ssh.go:305-307 | wherever an unquoted word may stand, a POSIX lexer reads the result as exactly the characters of s, for every NUL-free s |
| Quoting.ShellEscapeIsOneWord | internal/ssh/ssh.go:305-307 | on its own it is the single word s |
| Quoting.RemoteCommand | internal/ssh/ssh.go:217-225 | the builder loop produces the wrapped command |
| Quoting.RemoteCommandWords | internal/ssh/ssh.go:208-225 | the login shell sees /bin/sh, -c and the script, whatever the payload |
| Quoting.PrintfWords | internal/ssh/ssh.go:219-223 | a lexer with command substitution reads the script as eval with one argument, the output of printf %b on the octal text |
| Quoting.OctalRoundTrip | internal/ssh/ssh.go:220-222 | both decoders of octal escapes give back exactly the payload |
| Quoting.CommandCarriesPayload | internal/ssh/ssh.go:208-225 | end to end, login shell to eval to printf, the payload arrives byte for byte |
| PrefixSearch.SearchStrings | internal/ssh/ssh_remote.go:124 | lower bound by binary search |
| PrefixSearch.PrefixInterval | internal/ssh/ssh_remote.go:126-129 | strings with a prefix are contiguous in a sorted list |
| PrefixSearch.PrefixFilter | internal/ssh/ssh_remote.go:114-136 | the first 100 elements of the linear prefix filter |
| RemotePath.SanitizeRemotePath | internal/ssh/ssh_remote.go:63-87 | the loop over the parts keeps the resolved stack |
| RemotePath.SanitizedIsCanonical | internal/ssh/ssh_remote.go:61-87 | results are absolute paths of real names without control characters; exactly those are left unchanged, so it is idempotent |
| RemotePath.SanitizedLeadsToSamePlace | internal/ssh/ssh_remote.go:61-87 | in every directory tree: where the path without control characters leads, the result leads too; they agree iff every directory on the way exists or the result is missing as well |
| RemotePath.MissingDirectoryForgotten | internal/ssh/ssh_remote.go:76-81 | a missing directory that is left again makes the two differ |
| Supervisor.Supervisor.RunRound | internal/selfupdate/selfupdate.go:79-139 | counters, flags, file operations and file state of one loop iteration |
| Supervisor.Supervisor.HandleExit | internal/selfupdate/selfupdate.go:105-136 | the switch on the exit code |
| Supervisor.Supervisor.Swap | internal/selfupdate/selfupdate.go:310-319 | the three operations of swap |
| Supervisor.Supervisor.RollBack | internal/selfupdate/selfupdate.go:321-328 | the three operations of rollback |
| Supervisor.Supervisor.RemoveStaged | internal/selfupdate/selfupdate.go:230-233 | both staged files are removed |
| Supervisor.SwapSafe | internal/selfupdate/selfupdate.go:310-319 | after each operation of a swap, any of which may fail, a binary or .previous exists and is trusted |
| Supervisor.RollbackSafe | internal/selfupdate/selfupdate.go:321-328 | the same for rollback |
| Supervisor.RunSafe | internal/selfupdate/selfupdate.go:79-139 | the same after every single operation of every run; installed content was there at launch or passed verify and pre-flight |
| Supervisor.RollbackUndoesSwap | internal/selfupdate/selfupdate.go:310-328 | rolling back a swap restores the old binary and keeps the new one aside |
| Supervisor.FailedSwapHeals | internal/selfupdate/selfupdate.go:82-91 | a swap that lost the binary half-way is healed by the start-failure rollback |
| Updates.GoodUpdateInstalled | internal/selfupdate/selfupdate.go:110-122 | an update that verifies and passes its pre-flight is installed, the old binary kept as .previous, nothing left staged |
| Updates.BadUpdateRefused | internal/selfupdate/selfupdate.go:113-128 | any other is refused: installed files untouched, staged ones removed, the next child told |
| Updates.CrashLoopRollsBack | internal/selfupdate/selfupdate.go:129-136 | after exactly crashLimit crashes in a row, and not before, the previous binary is put back and the crashing one kept aside |
| Updates.CrashesCounted | internal/selfupdate/selfupdate.go:129-136 | up to then, or without a .previous, crashes are counted and nothing installed changes |
| Updates.CleanExitForgives | internal/selfupdate/selfupdate.go:127-128 | a clean exit resets the count |
| Updates.FailingStartsRollBack | internal/selfupdate/selfupdate.go:82-91 | the same as for crashes, for failing starts |
| Updates.StopsLeaveFiles | internal/selfupdate/selfupdate.go:96-109 | the supervisor exits exactly behind a child that ended with 3 or -1, leaving installed files |
| PasteEviction.SortByTime | internal/api/api_paste.go:278-282 | the in-place sort computes the stable sort by time |
| PasteEviction.SinkOne | internal/api/api_paste.go:279-281 | the inner loop inserts one file |
| PasteEviction.StableSortFacts | internal/api/api_paste.go:278-282 | sorted, and the files of each time are the same in the same order |
| PasteEviction.EvictOldest | internal/api/api_paste.go:250-292 | removes exactly the shortest oldest prefix that leaves room for the upload, or everything |
| PasteEviction.RemovesOldest | internal/api/api_paste.go:284-291 | no removed file is newer than a kept one |
| SingleFlight.RunInvariants | internal/api/api.go:249-291 | the invariants of flights, channels and waiters in every interleaving |
| SingleFlight.OneCheckAtATime | internal/api/api.go:256-277 | at most one CheckLatest runs at a time |
| SingleFlight.ChannelsClosedOnce | internal/api/api.go:273-281 | each done channel is closed once |
| SingleFlight.WaiterGetsFreshResult | internal/api/api.go:256-271 | a released waiter gets a result of a flight that finished after its call began, if the flight it waited for found one |
| SingleFlight.NobodyWaitsForever | internal/api/api.go:256-281 | in every reachable state a waiter's flight has landed, or somebody flies it and landing releases the waiter |
| SingleFlight.FlightServesCallers | internal/api/api.go:249-291 | a flyer gets what it found, a later caller the cached result without a flight, a forced one a new flight |
| SingleFlight.JoinersGetTheResult | internal/api/api.go:256-271 | a caller that joins a flight gets what that found |
| Lifecycle.RunInvariants | internal/session/session.go:411-551 | the invariants of creation and destruction in every interleaving |
| Lifecycle.LifecycleSafe | internal/session/session.go:411-551 | onDestroy at most once per session, termOps counts in-flight operations, the registry stays within MaxSessions |
| Lifecycle.NotifiedWhenDone | internal/session/session.go:439-497 | once its owner is done, a destroyed session was notified exactly once |
| Lifecycle.NoOpAfterDestroy | internal/session/session.go:518-528 | no guarded PTY operation is registered after destruction |
| Lifecycle.CreatedSessionWorks | internal/session/session.go:405-418 | from any reachable state with room, a created session is registered and alive, and an operation on it begins, is counted, and ends |
| Lifecycle.DestroyCompletes | internal/session/session.go:431-454 | destroying a live session removes it and notifies exactly once |
| Lifecycle.DestroyAllCompletes | internal/session/session.go:459-497 | DestroyAll empties the registry, and every live session in it is notified exactly once |
| Lifecycle.StuckExactly | internal/session/session.go:397-418 | in every interleaving the registry holds a destroyed session that nobody will remove iff it was registered after its removal was over, and DestroyAll has not emptied the registry since |
| Lifecycle.StepGetsStuck | internal/session/session.go:411-470 | step by step: exactly such a registration makes a session stuck |
| Lifecycle.RunPlaced | internal/session/session.go:405-470 | a session is being created once, registered, or being swept, never two of these |
| Lifecycle.DeadSessionRegistered | internal/session/session.go:397-418 | it happens to a child that exits before registration |
| Lifecycle.DeadSessionStays | internal/session/session.go:420-470 | in every interleaving it stays there until DestroyAll empties the registry |

## Left out

- PTYs, sockets, HTTP handlers, TLS, SSH processes and the browser side: foreign input and output, present only as environment steps and inputs.
- HMAC, SHA-256, AES-GCM, ECDH and signatures: arbitrary functions or absent; encryption of relay frames is the identity.
- Stream.Parser.Parse: both callbacks are registered, as the session does; a parser without callbacks is not modelled.
- RingBuffer.Buffer.Push: byte sizes are not negative, as lengths are; 64-bit overflow of totals is not modelled.
- Relay.AttachState.OnPtyData: a closed or not yet ready connection, where sends are dropped, and a detached session, where data is ignored, are not modelled; detaching discards the state.
- Relay.AttachState.BackpressureCheck: one attachment; the loop over all attachments of a connection, and the skip of those whose session is destroyed, are not modelled.
- RelayRuns.RunSafe: one attachment of a live session; closing the connection above the close mark ends the run and is not a step.
- EndToEnd.ClientSeesAllButLostAndCarry: attach happens between two PTY reads; an attach in the middle of a dispatch, and the restored modes and redraw signal after the replay, are not composed.
- WriteQueue.RunInvariants: send, Close and the write loop are atomic steps rather than methods of a class, because the interleaving is the point; a failed write may leave part of a frame on the wire, and the bounded wait for the close frame may end at any time.
- Reader.ReadLoop: a reassembled payload shares its buffer with the next fragmented message; the model delivers values, so a consumer that keeps the slice is not modelled.
- Reader.ReadFrame: what a failing read consumes is not stated, since the loop ends there.
- Kdf.HkdfExpand: beyond 255 blocks the counter wraps as in the code, where the RFC stops.
- Kdf.Pbkdf2: block indices wrap at 2^32 as in the code, where the RFC stops.
- Quoting.RemoteCommandWords: command substitution drops trailing newlines and NUL bytes of the payload before eval; csh history expansion is not lexed.
- Supervisor.Supervisor.RunRound: the loop never ends in the program; runs are finite sequences of rounds, and sleeping, logging and chmod are dropped.
- PasteEviction.EvictOldest: directory listing and failing removals; the files given are the regular ones of the directory.
- Lifecycle.NoOpAfterDestroy: an operation registered in time may still write after destruction, and the redraw signal on attach is checked without registration; neither is ordered.
- Lifecycle.RunInvariants: killing and bounded waiting are steps that may happen at any time; the first count check of Create is folded into spawning, and any spawned session may be claimed for destruction at any time, which covers every caller that looked it up or waits for its exit.
- RemotePath.SanitizeRemotePath: paths are Unicode text; bytes that are not valid UTF-8, which the program replaces, and symbolic links in the tree are not modelled.
- Validators, connection store, configuration, branding, icons, versions, manifests, recents and tokens: they would add only easy members.
- Per-session client cap: it is checked and then acted on across connections, so it is not an invariant.
