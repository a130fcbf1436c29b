# Revy: transport, hand-off, codecs and furnace, verified

Revy is a game server that can replace its own executable while players stay connected. This
project models, in Dafny, the parts of it where that is hardest to get right, and proves what those
parts promise:

- the **RakNet peer**, a reliable-ordered transport over datagrams, with its 24-bit wrapping
  numbers, fragmentation, duplicate windows, ordered holdback, acknowledgements, retransmission,
  and the freeze, snapshot, validate, restore and resume cycle;
- the **executable hand-off** between a parent and the child that takes over: the commit protocol,
  the shared lock-free arena, the descriptors and the native sockets;
- the **codecs**: RakNet datagrams and acknowledgements, named binary tags, and the varint-framed
  packet stream;
- the **furnace**, whose fuel and items are accounted for over whole runs.

`dafny verify dfyconfig.toml` checks everything.

## How it is laid out

| modules | part |
|---|---|
| `Wrappers`, `Bytes`, `Sorting`, `StableSort` | options and results, machine integers, sorting |
| `Sequence`, `Budget`, `Wire`, `WireReader` | sequence arithmetic and history, policy, wire formats and their cursor-based decoder |
| `Peer`, `Reassembly`, `PeerInvariant`, `Reachability`, `Delivery`, `Completeness` | the peer as a function of its state, what every event keeps, end-to-end delivery in order and without loss |
| `Snapshot`, `Admission`, `Execution`, `Transfer`, `PeerActor` | checkpoints and their validation, the actor loop, bisimulation across a transfer, and the actor itself as a class of mutable fields |
| `Limits` | concrete runs that show where the laws end, and that they are not empty |
| `Handoff` | the commit protocol as a state machine with faults at every step |
| `Arena` | the bump allocator as interleaved atomic steps |
| `Descriptors`, `SocketHandoff`, `SocketBootstrap`, `SocketAdmission`, `SocketEncoder` | descriptor validation, claiming and encoding of native sockets |
| `Nbt`, `NbtStream`, `Framing`, `Furnace` | tags and their streams, the packet stream, the furnace |

Code that updates state in place is a class or a method with loops, and each such method's contract
equates its result and new state with a specification function; the theorems are about those
functions. `PeerActor` is the largest case: its fields mirror the source's, `View()` gives the
specification state, and every method is a step of `Peer`, `Execution` or `Snapshot`.

What the outside decides is an input. The network and the fault injector choose every event. The
clock is a number of nanoseconds given with each event, and one event sees one instant. The order in
which a hash map is walked is given, so results hold for every order. Socket writes append to a log.
`usize` and `u64` have 64 bits.

## What was found

- **The status query cannot reconcile a timed-out commit** (`Handoff.StatusQueryNeverReconciles`).
  The parent asks for the child's status when `Committed` does not arrive in time and would accept a
  `Status`. But the child always writes `Committed` first and envelopes are accepted strictly in
  sequence, so the next envelope is never a `Status`. A slow child takes over and the parent still
  retires as uncertain (`Handoff.SlowChildIsNotRecognised`). Safety is not affected.
- **The frame round trip holds up to 8,192 payload bytes, exactly** (`Wire.DatagramRoundTrip`). The
  bit length saturates at 65,535, which rounds up to 8,192 bytes, so that size still survives and
  8,193 does not. A datagram one or two bytes longer is always refused; from three bytes on the tail
  can read as another frame. So in-order delivery holds exactly up to an MTU of 8,258
  (`Limits.DeliveryHoldsIff`, `Limits.LongMessageIsCorrupted`).
- **Numbers coming round again break delivery**, each in its own way: after 2^24 messages a late copy
  is delivered as a new message (`Limits.LateCopyIsDeliveredAgain`), a stale fragment spoils the
  message 65,536 later that shares its split id (`Limits.StaleFragmentCorrupts`), and a message 2^23
  ahead is acknowledged and dropped (`Limits.FarMessageIsDropped`). Within those bounds nothing is
  lost, repeated or reordered (`Delivery.EndToEndOrderedDelivery`,
  `Completeness.EverythingIsDelivered`).
- **A snapshot can be refused by its own budgets** exactly when a queued or held payload exceeds the
  payload budget (`Snapshot.SnapshotIsAdmitted`), and reassembly does produce such payloads
  (`Limits.ReassemblyOutgrowsTheBudget`).
- **A restored peer shows the same snapshot, and keeps the same timers once resumed,** exactly when
  the new clock reaches back as far as its oldest timer; otherwise the fallback to the current
  instant shows (`Snapshot.RestoredSnapshotIsTheSame`, `Transfer.ResumedAgrees`).
  That matters to timers and checkpoints alone: the rest is transparent under any clock
  (`Transfer.UntimedTransferIsTransparent`).
- **Traffic admitted during a freeze restarts the idle timer** at the resume, the one thing a freeze
  does not leave as it was but for payloads the application takes
  (`Execution.FreezeAndResumeCostNothing`).
- **A right click on an output stack of zero items creates an item** (`Furnace.TakingConservesIff`,
  `Furnace.EmptyStackConjures`). That is the only way items are ever gained or lost, and no tick or
  take brings it about (`Furnace.ItemsAreConservedIff`).
- **A tag survives writing and reading exactly when its lists hold what they declare**
  (`Nbt.RoundTripIff`); the writer does not check that.

## Model

| member | source | states |
|---|---|---|
| `Delivery.EndToEndOrderedDelivery` | crates/network/revy-raknet/src/peer.rs:1104-1405 | two peers joined by a network that loses, repeats and reorders, for any MTUs and budgets: what each side delivers is always a prefix of what the other side sent, as long as that is fewer than 2^24 messages, no two split ones share a split id, and no fragment is longer than 8,194 bytes |
| `Completeness.EverythingIsDelivered` | crates/network/revy-raknet/src/peer.rs:1104-1405 | nothing is lost: if every data datagram one side wrote has arrived, in any order and with any repeats, and neither side has stopped, the other side has delivered exactly the messages sent, split ones included; for up to 2^23 messages in up to 2^24 fragments |
| `Completeness.LinkCounts` | crates/network/revy-raknet/src/peer.rs:1104-1405 | over any run of both ends, every message all of whose fragments have arrived is delivered or held for an earlier one, and nothing that is due is held |
| `Completeness.DataCounts` | crates/network/revy-raknet/src/peer.rs:1104-1274 | one more datagram counts: dropped as a repeat, stored, completing a message or delivering it, it keeps that account |
| `Completeness.OrderedHands` | crates/network/revy-raknet/src/peer.rs:1276-1305 | a message accepted under its order index is delivered or held, no other message is lost, and nothing due stays held |
| `Delivery.FewMessagesAreDeliverable` | crates/network/revy-raknet/src/peer.rs:1358-1405 | up to 65,536 messages of any size meet that condition if the fragments are no longer than 8,194 bytes |
| `Limits.MessageGetsThrough` | crates/network/revy-raknet/src/peer.rs:1104-1405 | the theorem is not empty: a message that fits is sent in one datagram and delivered unchanged |
| `Limits.DeliveryHoldsIff` | crates/network/revy-raknet/src/peer.rs:1358-1405 | with room in the budgets, what is delivered is a prefix of what was sent in every run of up to 65,536 messages if and only if the fragment capacity is at most 8,194, an MTU of 8,258 |
| `Limits.LongMessageIsCorrupted` | crates/network/revy-raknet/src/wire.rs:236-262 | where it ends: under a large MTU a message of 8,195 bytes is delivered cut short and the prefix is broken |
| `Limits.StaleFragmentCorrupts` | crates/network/revy-raknet/src/peer.rs:1217-1274 | where it ends: with every message before k delivered, a forgotten fragment 0 of message j, 65,536 or a multiple of it earlier, and then fragments 1 onwards of k make the receiver deliver a message that breaks the prefix |
| `Limits.LateCopyIsDeliveredAgain` | crates/network/revy-raknet/src/peer.rs:1276-1305 | where it ends: with 2^24 + j messages delivered, a forgotten copy of message j is delivered as a new one and breaks the prefix |
| `Limits.FarMessageIsDropped` | crates/network/revy-raknet/src/peer.rs:1276-1305 | where completeness ends: a message 2^23 or more ahead of the next is dropped without an error |
| `Delivery.LinkKeeps` | crates/network/revy-raknet/src/peer.rs:1104-1405 | every event at either end keeps the delivery invariant in both directions |
| `Delivery.StepDelivers` | crates/network/revy-raknet/src/peer.rs:1104-1305 | one event at the receiver, fed with any genuine datagram, extends the delivered prefix or leaves it |
| `Delivery.StepEvolves` | crates/network/revy-raknet/src/peer.rs:1344-1468 | whatever happens, a peer only writes genuine datagrams: acknowledgements, or fragments of messages it accepted, numbered by message |
| `Delivery.FragmentsConcat` | crates/network/revy-raknet/src/peer.rs:1358-1405 | the fragments of a payload joined in order are the payload |
| `Reachability.DuplicatesAreExactlyTheRecent` | crates/network/revy-raknet/src/peer.rs:1169-1181 | over any run, the reliable window holds exactly the last N indexes a naive search would have let through; set and queue agree, never more than N |
| `Reachability.OrderedAcrossWraparound` | crates/network/revy-raknet/src/peer.rs:1276-1305 | over any run, the k-th ordered payload on a channel has index k mod 2^24; held-back indexes are strictly newer than the expected one |
| `Reachability.BooksBalance` | crates/network/revy-raknet/src/peer.rs:1217-1274 | over any run, the reassembly counters equal the true sums and stay within budget, and attempts stay in 1..60 |
| `Reachability.NoSaturationClamps` | crates/network/revy-raknet/src/peer.rs:1229-1268 | over any run and for any budgets, no saturating sum or difference of the reassembly counters clamps |
| `PeerInvariant.WindowRefinesNaiveFilter` | crates/network/revy-raknet/src/peer.rs:1114-1122 | set plus queue with eviction equals the recent tail of the naive filter for any arrivals |
| `PeerInvariant.AdmitKeepsRecent` | crates/network/revy-raknet/src/peer.rs:1114-1122 | one admission keeps the window to the most recent entries |
| `PeerInvariant.DrainKeeps` | crates/network/revy-raknet/src/peer.rs:1276-1305 | draining the holdback keeps the invariant, ends, and leaves nothing that is due |
| `PeerInvariant.StepKeeps` | crates/network/revy-raknet/src/peer.rs:1104-1468 | every event keeps the peer invariant; an error keeps the bookkeeping |
| `PeerInvariant.RunKeeps` | crates/network/revy-raknet/src/peer.rs:988-1069 | the invariant holds after every run of events |
| `Reassembly.AcceptFragmentAccounts` | crates/network/revy-raknet/src/peer.rs:1217-1274 | accepting or refusing a fragment keeps both counters equal to the true sums and within budget |
| `Reassembly.NothingClamps` | crates/network/revy-raknet/src/peer.rs:1229-1268 | 16-bit ids, 32-bit part counts and frame-sized parts keep both counters far below the machine word |
| `Reassembly.AnyOrderReassembles` | crates/network/revy-raknet/src/peer.rs:1217-1274 | for any arrival order with repeats, the message comes out at the last missing index, whole, and leaves the books as before |
| `Wire.DatagramRoundTrip` | crates/network/revy-raknet/src/wire.rs:178-262 | within budgets, decoding an encoded datagram gives its sequence and frame if and only if the payload has at most 8,192 bytes |
| `Wire.DatagramDecodesOrIsRefused` | crates/network/revy-raknet/src/wire.rs:178-262 | an encoded datagram decodes to its own frame or is refused, never to something else |
| `Wire.AckRangeRoundTrip` | crates/network/revy-raknet/src/wire.rs:268-314 | an encoded ACK or NACK range decodes to itself |
| `Wire.FormatsAreDisjoint` | crates/network/revy-raknet/src/wire.rs:178-314 | no data datagram is taken for an acknowledgement, nor the reverse |
| `Wire.NackSelectsExactlyTheGap` | crates/network/revy-raknet/src/peer.rs:1123-1141 | the NACK for a jump, encoded and decoded, selects exactly the sequences strictly between, modulo 2^24 |
| `WireReader.Reader.Take` | crates/network/revy-raknet/src/wire.rs:400-411 | the cursor reads what the parser of the remaining bytes reads, or fails alike |
| `WireReader.Reader.ReadFrame` | crates/network/revy-raknet/src/wire.rs:193-231 | one frame off the cursor equals the frame parser |
| `WireReader.DecodeFrames` | crates/network/revy-raknet/src/wire.rs:191-232 | the frame loop equals the recursive parser |
| `WireReader.DecodeDatagram` | crates/network/revy-raknet/src/wire.rs:178-234 | the datagram decoder equals the specification, errors included |
| `WireReader.DecodeRanges` | crates/network/revy-raknet/src/wire.rs:278-288 | the range loop equals the recursive parser |
| `WireReader.DecodeAcknowledgement` | crates/network/revy-raknet/src/wire.rs:268-294 | the acknowledgement decoder equals the specification, errors included |
| `Sequence.HistoryIsLossless` | crates/network/revy-raknet/src/sequence.rs:69-122 | run-length history expands to the recorded list, in order, and counts its length |
| `Sequence.CanonicalIsHistory` | crates/network/revy-raknet/src/sequence.rs:69-122 | the canonical form is unique: a canonical run list is the history of its expansion |
| `Sequence.Record` | crates/network/revy-raknet/src/sequence.rs:20-30 | recording keeps run lengths in 1..2^24 and neighbours unmergeable unless the first is full |
| `Sequence.FromSequences` | crates/network/revy-raknet/src/sequence.rs:72-91 | one pass builds the canonical, lossless history |
| `Sequence.SequenceCount` | crates/network/revy-raknet/src/sequence.rs:98-110 | the count is the number of represented sequences, refused only when it exceeds the machine word |
| `Snapshot.SnapshotIsAdmitted` | crates/network/revy-raknet/src/peer.rs:218-377 | a running peer's snapshot validates under its own budgets if and only if its queued and held payloads fit the payload budget |
| `Limits.ReassemblyOutgrowsTheBudget` | crates/network/revy-raknet/src/peer.rs:236-242 | two genuine datagrams take a fresh peer to a state whose own snapshot its own budgets refuse |
| `Snapshot.RestoreIsRebase` | crates/network/revy-raknet/src/peer.rs:879-963 | restoring a snapshot gives the same peer with its timers rebased |
| `Snapshot.RestoredSnapshotIsTheSame` | crates/network/revy-raknet/src/peer.rs:1497-1565 | the rebuilt peer yields the same snapshot if and only if the new clock reaches back far enough |
| `Transfer.TransferIsTransparent` | crates/network/revy-raknet/src/peer.rs:879-986 | a frozen actor resumed in place, and the actor rebuilt from its sealed checkpoint and resumed elsewhere, write, deliver, accept and fail alike for every later run of events, timers included, provided the new clock reaches back to its oldest timer |
| `Transfer.UntimedTransferIsTransparent` | crates/network/revy-raknet/src/peer.rs:879-986 | the same for every later run of datagrams, sends and reads, under any clocks whatever |
| `Transfer.ActorTransferIsTransparent` | crates/network/revy-raknet/src/peer.rs:988-1101 | the same for the whole loop: once the sends left deferred are submitted again, the two actors reply, seal, freeze, resume, stop, write and deliver alike for every later run of inputs; with timers and checkpoints if the new clock reaches back to the oldest timer, without them under any clocks |
| `Transfer.LoopAgrees` | crates/network/revy-raknet/src/peer.rs:988-1101 | agreement of two actors, sealed checkpoints in their replies included, is kept over every run of the loop |
| `Transfer.LoopStepAgrees` | crates/network/revy-raknet/src/peer.rs:988-1101 | one iteration on agreeing inputs keeps it |
| `Transfer.SnapshotsAgree` | crates/network/revy-raknet/src/peer.rs:1497-1566 | agreeing peers seal the same checkpoint at the same moment |
| `Transfer.ResumedAgrees` | crates/network/revy-raknet/src/peer.rs:1489-1495 | the two resumed peers are equal but for a constant clock offset if and only if the new clock reaches back to the oldest timer, whatever the router marked during the freeze |
| `Transfer.StepAgrees` | crates/network/revy-raknet/src/peer.rs:1104-1468 | each event takes agreeing peers to agreeing peers with the same outputs |
| `Transfer.RunAgrees` | crates/network/revy-raknet/src/peer.rs:988-1069 | agreement is kept over every run |
| `Admission.ValidateStructure` | crates/network/revy-raknet/src/peer.rs:218-365 | the validator accepts exactly the valid snapshots and returns the rebuilt duplicate indexes |
| `Admission.UnackedAdmitted` | crates/network/revy-raknet/src/peer.rs:243-268 | unacknowledged datagrams: distinct sequences, sizes and timers within bounds |
| `Admission.AssembliesAdmitted` | crates/network/revy-raknet/src/peer.rs:269-301 | pending assemblies: distinct ids, part counts and bytes within budget |
| `Admission.HoldbackAdmitted` | crates/network/revy-raknet/src/peer.rs:302-319 | held payloads: distinct keys, within budget |
| `Execution.ResumeCostsNothing` | crates/network/revy-raknet/src/peer.rs:1489-1495 | the snapshot at resume time equals the one at freeze time |
| `Execution.FreezeAndResumeCostNothing` | crates/network/revy-raknet/src/peer.rs:988-1069 | freezing, any inputs while frozen and resuming leave the snapshot as at the freeze, except that admitted traffic restarts the idle timer and payloads the application took are gone |
| `Execution.FrozenHoldsStill` | crates/network/revy-raknet/src/peer.rs:995-1030 | a frozen actor keeps its first freeze instant and its state whatever arrives, but for the activity mark and payloads the application takes |
| `Execution.SendsLeaveInSubmissionOrder` | crates/network/revy-raknet/src/peer.rs:995-1101 | sends not refused with QueueFull are applied in submission order |
| `Execution.LoopStepKeepsOrder` | crates/network/revy-raknet/src/peer.rs:1071-1101 | each iteration keeps the submission order |
| `Execution.LoopKeeps` | crates/network/revy-raknet/src/peer.rs:988-1069 | whatever commands, datagrams, timers and freezes come, the actor satisfies the peer invariant until it stops |
| `PeerActor.PeerActor.constructor` | crates/network/revy-raknet/src/peer.rs:838-877 | a new actor is the specified new peer |
| `PeerActor.PeerActor.ReceiveDatagram` | crates/network/revy-raknet/src/peer.rs:1104-1143 | the whole new state and error are those of the specification |
| `PeerActor.PeerActor.Register` | crates/network/revy-raknet/src/peer.rs:1110-1139 | acknowledge, remember, evict and report the gap as specified |
| `PeerActor.PeerActor.NoteGap` | crates/network/revy-raknet/src/peer.rs:1123-1139 | emits the NACK and remembers the newest datagram as specified |
| `PeerActor.PeerActor.AdmitDatagram` | crates/network/revy-raknet/src/peer.rs:1114-1122 | the eviction loop leaves the specified window |
| `PeerActor.PeerActor.ReceiveFrames` | crates/network/revy-raknet/src/peer.rs:1138-1142 | frames are handled in order up to the first error |
| `PeerActor.PeerActor.ApplyAcknowledgement` | crates/network/revy-raknet/src/peer.rs:1145-1167 | ACK drops and NACK retransmits exactly the selected datagrams |
| `PeerActor.PeerActor.ReceiveFrame` | crates/network/revy-raknet/src/peer.rs:1169-1181 | a repeated reliable index is ignored, a new one is admitted and handled |
| `PeerActor.PeerActor.AdmitReliable` | crates/network/revy-raknet/src/peer.rs:1174-1180 | the eviction loop leaves the specified window |
| `PeerActor.PeerActor.Reassemble` | crates/network/revy-raknet/src/peer.rs:1183-1188 | fragments go to reassembly, whole frames on |
| `PeerActor.PeerActor.Dispatch` | crates/network/revy-raknet/src/peer.rs:1190-1215 | sequenced, ordered and plain frames are routed as specified |
| `PeerActor.PeerActor.AcceptFragment` | crates/network/revy-raknet/src/peer.rs:1217-1274 | the fragment books change as specified, refusals included |
| `PeerActor.PeerActor.AcceptOrdered` | crates/network/revy-raknet/src/peer.rs:1276-1305 | deliver, hold or drop as specified |
| `PeerActor.PeerActor.Drain` | crates/network/revy-raknet/src/peer.rs:1286-1293 | the drain loop delivers as specified and ends |
| `PeerActor.PeerActor.DeliverPayload` | crates/network/revy-raknet/src/peer.rs:1307-1342 | handshake, ping, accept and application payloads are handled as specified |
| `PeerActor.PeerActor.SendApplication` | crates/network/revy-raknet/src/peer.rs:1344-1356 | submission goes out as specified |
| `PeerActor.PeerActor.SendReliableOrdered` | crates/network/revy-raknet/src/peer.rs:1358-1405 | numbering and fragmentation as specified |
| `PeerActor.PeerActor.SendChunks` | crates/network/revy-raknet/src/peer.rs:1371-1390 | the chunk loop sends the specified fragments |
| `PeerActor.PeerActor.SendFrame` | crates/network/revy-raknet/src/peer.rs:1407-1431 | budgets, numbering and the unacknowledged entry as specified |
| `PeerActor.PeerActor.Retransmit` | crates/network/revy-raknet/src/peer.rs:1433-1449 | attempt count and timestamp as specified, exhaustion included |
| `PeerActor.PeerActor.OnTimer` | crates/network/revy-raknet/src/peer.rs:1451-1468 | time-out and due retransmissions as specified |
| `PeerActor.PeerActor.ResumeTimers` | crates/network/revy-raknet/src/peer.rs:1489-1495 | timer origins move as specified |
| `PeerActor.PeerActor.TakeSnapshot` | crates/network/revy-raknet/src/peer.rs:1497-1565 | the checkpoint is the specified one, listings sorted |
| `PeerActor.PeerActor.FromValidatedSnapshot` | crates/network/revy-raknet/src/peer.rs:879-963 | the restored actor is the specified one |
| `PeerActor.PeerActor.Consume` | crates/network/revy-raknet/src/peer.rs:1617-1633 | the application takes the oldest queued payload as specified |
| `PeerActor.PeerActor.RunWithState` | crates/network/revy-raknet/src/peer.rs:988-1069 | the loop computes the specified run, every reply included |
| `PeerActor.PeerActor.ApplyCommand` | crates/network/revy-raknet/src/peer.rs:1071-1101 | commands to a running actor change mode, state and replies as specified |
| `PeerActor.PeerActor.FrozenCommand` | crates/network/revy-raknet/src/peer.rs:1000-1023 | commands to a frozen actor, with the sealed snapshot and the QueueFull refusal among the replies, as specified |
| `Handoff.NeverBothServing` | apps/revy-server/src/executable_handoff.rs:324-387 | no split brain: in every reachable state parent and child do not both serve, and once the child has served the parent does not |
| `Handoff.CommitOnlyAfterExactAcknowledgement` | apps/revy-server/src/executable_handoff.rs:594-692 | every Commit directly follows the frozen update it repeats, and the child has acknowledged exactly those revisions |
| `Handoff.ChildIsReadyForCommit` | apps/revy-server/src/executable_handoff.rs:631-676 | when rollback authority is consumed a live child is waiting for Commit with the final revisions imported |
| `Handoff.AfterCommitNeverResumes` | apps/revy-server/src/executable_handoff.rs:676-692 | after Commit the parent never serves again in any continuation |
| `Handoff.RestoredParentStaysAlone` | apps/revy-server/src/executable_handoff.rs:338-366 | a parent that rolled back stays the only server: the child never serves |
| `Handoff.SuccessMeansActivated` | apps/revy-server/src/executable_handoff.rs:1290-1310 | the parent concludes success only if the child activated the frozen state with epoch parent+1 |
| `Handoff.StatusQueryNeverReconciles` | apps/revy-server/src/executable_handoff.rs:1311-1338 | after a time-out the status query can never turn into success: the next envelope in sequence is not a Status |
| `Handoff.SlowChildIsNotRecognised` | apps/revy-server/src/executable_handoff.rs:1311-1338 | a run in which the child took over and answered the query while the parent ends uncertain |
| `Handoff.HandoffCanSucceed` | apps/revy-server/src/executable_handoff.rs:892-976 | a fault-free run ends with the child serving and the parent knowing it |
| `Handoff.ParentWritesBoundedly` | apps/revy-server/src/executable_handoff.rs:528-562 | pre-staging is bounded: at most 37 envelopes from the parent |
| `Handoff.StepKeeps` | apps/revy-server/src/executable_handoff.rs:594-692 | every step of either process and every fault keeps the protocol invariant |
| `Handoff.ChildReceivesKeeps` | apps/revy-server/src/executable_handoff.rs:892-967 | every envelope the child receives, in or out of sequence, keeps the invariant |
| `Handoff.ReceiveKeeps` | apps/revy-server/src/executable_handoff.rs:1241-1338 | every envelope the parent receives, in or out of sequence, keeps the invariant |
| `SocketHandoff.DecodeConservesSockets` | apps/revy-server/src/executable_handoff.rs:1074-1209 | for any bootstrap, a successful decode hands out exactly the sockets received, each once |
| `SocketHandoff.DecodeNativeResources` | apps/revy-server/src/executable_handoff.rs:1074-1209 | the decoder equals the specification, errors included, and conserves the sockets |
| `SocketHandoff.ClaimResources` | apps/revy-server/src/executable_handoff.rs:1089-1148 | the descriptor loop claims slots as specified |
| `SocketHandoff.ResumeAll` | apps/revy-server/src/executable_handoff.rs:1152-1198 | the surface loops claim admin sockets as specified |
| `SocketHandoff.TakeSocket` | apps/revy-server/src/executable_handoff.rs:1211-1230 | a socket is taken exactly when its slot is described and still full, and only that slot is emptied |
| `SocketBootstrap.DecodeInvertsEncode` | apps/revy-server/src/executable_handoff.rs:978-1209 | decoding the bootstrap of any listeners, sessions and surfaces gives them back on the same sockets, in the encoder's order |
| `SocketBootstrap.EncoderOrder` | apps/revy-server/src/executable_handoff.rs:981-986 | that order is a stable sort of the given lists |
| `SocketAdmission.BootstrapIsAdmitted` | apps/revy-server/src/executable_handoff.rs:417-503 | every bootstrap built passes descriptor validation, given published disjoint regions, non-zero connection ids and at most 16,384 descriptors |
| `SocketAdmission.ArenaBootstrapIsAdmitted` | apps/revy-server/src/executable_handoff.rs:417-503 | for any interleaving of the arena's threads, a bootstrap over regions sealed in the arena is admitted |
| `SocketEncoder.EncodeSocketResources` | apps/revy-server/src/executable_handoff.rs:978-1017 | sorts and numbers listeners and sessions as specified, refused only beyond 32-bit indexes |
| `SocketEncoder.EncodeSurfaces` | apps/revy-server/src/executable_handoff.rs:1019-1072 | replaces each native handle by the next index as specified |
| `SocketEncoder.EncodeBootstrap` | apps/revy-server/src/executable_handoff.rs:417-480 | refused exactly when the sockets exceed 32 bits, otherwise the specified bootstrap |
| `Descriptors.AdjacentCheckIsExact` | crates/runtime/revy-runtime-transfer/src/lib.rs:841-851 | after sorting, neighbours overlap if and only if some two descriptors share a byte |
| `Descriptors.ValidateResources` | crates/runtime/revy-runtime-transfer/src/lib.rs:726-853 | accepts exactly the admissible lists and blames a descriptor that breaks the rule otherwise; in an accepted list the handles are exactly 0..count-1, each once |
| `Descriptors.CheckDescriptor` | crates/runtime/revy-runtime-transfer/src/lib.rs:741-831 | the per-descriptor checks against those before |
| `Descriptors.CheckTotals` | crates/runtime/revy-runtime-transfer/src/lib.rs:833-852 | the handle count and overlap checks are exact |
| `Arena.StepKeeps` | crates/runtime/revy-runtime-transfer/src/arena.rs:99-126 | every atomic step of any thread keeps the arena invariant |
| `Arena.ReservationsAreDisjoint` | crates/runtime/revy-runtime-transfer/src/arena.rs:99-126 | for any interleaving with stale loads and spurious failures, every reservation is 8-aligned and within capacity, and any two are disjoint |
| `Arena.RunMovesForward` | crates/runtime/revy-runtime-transfer/src/arena.rs:292-315 | the counter and the published boundary never decrease and sealed regions stay sealed |
| `Arena.SealedRegionIsReadBack` | crates/runtime/revy-runtime-transfer/src/arena.rs:180-339 | a sealed region never changes again, and once published the reader returns exactly its bytes |
| `Arena.SealedRegionsAreDisjoint` | crates/runtime/revy-runtime-transfer/src/arena.rs:180-215 | two sealed regions never share a byte |
| `Arena.RunJustifiesRefusals` | crates/runtime/revy-runtime-transfer/src/arena.rs:99-126 | a refused request really did not fit at a value the counter had |
| `Arena.RefusalIsFinal` | crates/runtime/revy-runtime-transfer/src/arena.rs:99-133 | and would not fit at any later value |
| `Arena.AlignUp` | crates/runtime/revy-runtime-transfer/src/arena.rs:421-425 | the least multiple of eight not below the value, unless that overflows |
| `Nbt.RoundTripIff` | crates/storage/mc-storage-je-anvil-1_7_10/src/nbt.rs:214-330 | reading a written payload gives the tag and leaves exactly the rest if and only if list elements match their declared types |
| `Nbt.PayloadReadsBack` | crates/storage/mc-storage-je-anvil-1_7_10/src/nbt.rs:214-330 | the round trip for every sound tag tree and any following bytes |
| `Nbt.ReadPayload` | crates/storage/mc-storage-je-anvil-1_7_10/src/nbt.rs:263-314 | every successful read consumes at least one byte and returns the requested type |
| `Nbt.ReadIsSound` | crates/storage/mc-storage-je-anvil-1_7_10/src/nbt.rs:263-314 | whatever is read satisfies all the conditions of the round trip |
| `Nbt.PayloadIsSelfDelimiting` | crates/storage/mc-storage-je-anvil-1_7_10/src/nbt.rs:263-314 | bytes that follow never change how a payload is read |
| `Nbt.RootReadsBack` | crates/storage/mc-storage-je-anvil-1_7_10/src/nbt.rs:61-71 | a compound written as a root reads back, whatever its name and whatever follows |
| `Nbt.RewritingIsStable` | crates/storage/mc-storage-je-anvil-1_7_10/src/nbt.rs:61-71 | a file that was read can be written and reads back the same |
| `NbtStream.TagReader.Payload` | crates/storage/mc-storage-je-anvil-1_7_10/src/nbt.rs:263-314 | the recursive reader follows the specification on the moving stream |
| `NbtStream.TagReader.Items` | crates/storage/mc-storage-je-anvil-1_7_10/src/nbt.rs:279-288 | the list loop follows the specification |
| `NbtStream.TagReader.Entries` | crates/storage/mc-storage-je-anvil-1_7_10/src/nbt.rs:289-300 | the compound loop follows the specification |
| `NbtStream.TagReader.Text` | crates/storage/mc-storage-je-anvil-1_7_10/src/nbt.rs:372-380 | length-prefixed UTF-8 text, errors included |
| `NbtStream.ReadRoot` | crates/storage/mc-storage-je-anvil-1_7_10/src/nbt.rs:61-71 | reading a root equals the specification |
| `NbtStream.TagWriter.Payload` | crates/storage/mc-storage-je-anvil-1_7_10/src/nbt.rs:214-261 | writes the specified bytes, refused exactly when a length does not fit |
| `NbtStream.TagWriter.Named` | crates/storage/mc-storage-je-anvil-1_7_10/src/nbt.rs:203-212 | type, name and payload |
| `NbtStream.TagWriter.Entries` | crates/storage/mc-storage-je-anvil-1_7_10/src/nbt.rs:242-249 | the compound loop writes the specified bytes and the end marker |
| `Framing.VarintReadsBack` | crates/protocol/mc-proto-common/src/packet.rs:56-67 | reading and peeking both invert writing for every 32-bit integer, in one to five bytes |
| `Framing.VarintIsSelfDelimiting` | crates/protocol/mc-proto-common/src/packet.rs:180-196 | what was read does not depend on later bytes |
| `Framing.ChunkingDoesNotMatter` | crates/protocol/mc-proto-common/src/wire.rs:20-31 | for any bytes, how the stream is cut into chunks does not matter |
| `Framing.FramesSurviveChunking` | crates/protocol/mc-proto-common/src/wire.rs:10-31 | any chunking of the frames of any payloads delivers exactly those payloads in order |
| `Framing.EarlyChunksDeliverAPrefix` | crates/protocol/mc-proto-common/src/wire.rs:10-31 | before the end, what was delivered is a prefix |
| `Framing.PacketWriter.WriteVarint` | crates/protocol/mc-proto-common/src/packet.rs:56-67 | the loop appends the specified bytes |
| `Framing.PacketReader.ReadVarint` | crates/protocol/mc-proto-common/src/packet.rs:180-196 | the loop reads the specified value and moves past it |
| `Framing.Peek` | crates/protocol/mc-proto-common/src/packet.rs:244-259 | the loop peeks the specified value |
| `Framing.EncodeFrame` | crates/protocol/mc-proto-common/src/wire.rs:10-18 | a frame, unless the length exceeds 31 bits |
| `Framing.FrameDecoder.TryDecodeFrame` | crates/protocol/mc-proto-common/src/wire.rs:20-31 | splits off one frame or leaves the buffer alone |
| `Furnace.FurnaceAccounting` | crates/content/mc-content-canonical/src/gameplay.rs:652-717 | over any run from rest, output stays at most 64, progress in 0..199, and 200 times the items smelted is at most the burn time of the fuel consumed |
| `Furnace.ItemsAreConservedIff` | crates/content/mc-content-canonical/src/gameplay.rs:336-375 | input plus output plus cursor is constant over every run if and only if a right click now would not conjure an item |
| `Furnace.RunAccounts` | crates/content/mc-content-canonical/src/gameplay.rs:652-717 | the amortised account: smelted work, progress and reserve are covered by the fuel |
| `Furnace.StepAccounts` | crates/content/mc-content-canonical/src/gameplay.rs:652-717 | one step pays for what it smelts |
| `Furnace.TakingConservesIff` | crates/content/mc-content-canonical/src/gameplay.rs:336-375 | taking output conserves items if and only if it is not a right click on a zero stack the cursor can take |
| `Furnace.EmptyStackConjures` | crates/content/mc-content-canonical/src/gameplay.rs:336-375 | the input on which it fails |
| `Furnace.OpenContainer.Normalize` | crates/content/mc-content-canonical/src/gameplay.rs:602-625 | the properties change as specified |
| `Furnace.OpenContainer.TickFurnace` | crates/content/mc-content-canonical/src/gameplay.rs:652-717 | slots and properties change as specified |
| `Furnace.OpenContainer.TakeOutputSlot` | crates/content/mc-content-canonical/src/gameplay.rs:336-375 | slots and cursor change as specified |

## Left out

- Sockets, memory mapping, descriptor passing, process spawning, channels, serde and protobuf encoding, compression: operating system and library code. Socket errors are not events of the peer model, and an arena region's JSON is a given parse result.
- Error messages: errors are told apart by kind and by the identifiers they carry, not by their text.
- Delivery.EndToEndOrderedDelivery: the conditions on message count, split ids and fragment sizes are where the law ends, as three lemmas of the Limits module show from the states the theorem keeps; for message count and split ids no whole run is written out that leads there, and only for fragment sizes is there an if and only if.
- Completeness.EverythingIsDelivered: it is about the moment when everything has arrived; that retransmission makes it arrive is not modelled, since the network may drop every copy. It is stated for one direction, and either side may be called left.
- Transfer.TransferIsTransparent: the later events of both peers carry the same datagrams, submissions and walk orders. Runs with timers or checkpoints have clocks at a constant offset.
- Transfer.ActorTransferIsTransparent: sends still deferred in the frozen actor's process are not part of the checkpoint; the theorem submits them again before anything else happens.
- Admission.ValidateStructure: which of several errors a refusal returns is not modelled, only that it refuses exactly the invalid snapshots.
- Arena.SealedRegionIsReadBack: memory ordering is modelled only as stale relaxed loads; writes and seals take effect in program order, and the bit mask of the alignment is written as a division.
- Arena: no claim that every published byte is sealed, since the counter moves at reservation.
- Handoff: one hand-off with one child; the report finalisation after success, the admin surfaces' own pause and resume, and the transfer identifier, which is the same throughout, are not modelled. The freeze, abort and activate capabilities are taken by their effect on serving.
- Framing.PacketReader.ReadVarint: a sixth byte is an error before its group is added; the source shifts first, which differs only in builds that check shifts.
- Nbt.ReadPayload: stack depth and up-front allocation by declared length are not modelled; floats are bit patterns.
- Descriptors.ValidateResources: ranges are sorted stably where the source sorts unstably, so of several overlapping pairs with equal starts it may name another; the other fields of a bootstrap (digest, artifacts, revisions, generation) have plain bounds checks and are not modelled.
- Furnace: item components and the player's own moves into the input and fuel slots.
- The RakNet router, offline handshake messages, snapshot validation worker threads and the next-deadline computation of the peer loop.
- Crafting, configuration, reload plans, plugin host, protocol adapters and admin views: thin or easy members.
