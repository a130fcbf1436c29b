/**
 * The protocol state of one RakNet peer and what every operation does to it.
 *
 * Socket output, payloads accepted for sending and payloads handed to delivery are kept as logs.
 * Time, wall-clock bytes and hash-map iteration order are inputs (`Env`).
 */
module Peer {
  import opened Wrappers
  import opened Bytes
  import opened Sequence
  import opened Budget
  import opened Wire

  /** Nanoseconds since the origin of the monotonic clock. */
  type Instant = nat

  const RETRANSMIT_BASE_DELAY := 200_000_000
  const PEER_TIMEOUT := 12_000_000_000
  const MAX_RETRANSMIT_ATTEMPTS := 60
  const DATAGRAM_HEADER_BUDGET := 64

  datatype Env = Env(
    now: Instant,
    epochMillis: bytes,   // the wall clock, as the eight bytes put on the wire
    acceptOpen: bool,     // whether the listener still takes accepted peers
    order: seq<u24>)      // the iteration order of the unacknowledged map

  datatype Unacked = Unacked(payload: bytes, sentAt: Instant, attempts: u16)

  /** A duplicate window: a lookup index and the same entries oldest first. */
  datatype Window = Window(index: set<u24>, order: seq<u24>)

  type Parts = seq<Option<bytes>>

  datatype Assemblies = Assemblies(pending: map<u16, Parts>, bytes: usize, parts: usize)

  datatype Ordering = Ordering(expected: map<byte, u24>, holdback: map<(byte, u24), bytes>)

  datatype Transmit = Transmit(
    nextDatagram: u24,
    nextReliable: u24,
    nextOrdered: u24,
    nextSplitId: u16,
    unacked: map<u24, Unacked>,
    output: seq<bytes>,   // datagrams written to the socket
    sent: seq<bytes>)     // payloads accepted by SendReliableOrdered

  datatype Delivery = InOrder(channel: byte, index: u24, payload: bytes) | Immediate(payload: bytes)

  datatype Peer = Peer(
    remoteAddr: bytes,
    mtu: u16,
    budgets: Budgets,
    accepted: bool,
    lastDatagram: Option<u24>,
    datagrams: Window,
    reliable: Window,
    sequencedLatest: map<byte, u24>,
    ordering: Ordering,
    assemblies: Assemblies,
    tx: Transmit,
    inbox: seq<bytes>,
    lastObserved: Instant,
    delivered: seq<Delivery>)

  /** The state after an operation, and the error that stops the actor if there was one. */
  datatype Outcome = Outcome(peer: Peer, error: Option<RakNetError>)

  datatype TxOutcome = TxOutcome(tx: Transmit, error: Option<RakNetError>)

  function NewPeer(remoteAddr: bytes, mtu: u16, budgets: Budgets, now: Instant): Peer {
    Peer(remoteAddr, mtu, budgets, false, None, Window({}, []), Window({}, []), map[],
         Ordering(map[], map[]), Assemblies(map[], 0, 0),
         Transmit(0, 0, 0, 0, map[], [], []), [], now, [])
  }

  // ---- Sending ----

  function RetransmitDelay(attempts: u16): nat {
    var shift := Min(SaturatingSub(attempts, 1), 3);
    if shift == 0 then RETRANSMIT_BASE_DELAY
    else if shift == 1 then 2 * RETRANSMIT_BASE_DELAY
    else if shift == 2 then 4 * RETRANSMIT_BASE_DELAY
    else 8 * RETRANSMIT_BASE_DELAY
  }

  function Chunks(payload: bytes, capacity: nat): (r: seq<bytes>)
    requires 0 < capacity
    decreases |payload|
  {
    if payload == [] then []
    else if |payload| <= capacity then [payload]
    else [payload[..capacity]] + Chunks(payload[capacity..], capacity)
  }

  /** What a payload is cut into; an empty payload still takes one (empty) frame. */
  function Fragments(payload: bytes, capacity: nat): (r: seq<bytes>)
    requires 0 < capacity
    ensures 1 <= |r|
  {
    if payload == [] then [[]] else Chunks(payload, capacity)
  }

  function FragmentCapacity(mtu: u16): nat { SaturatingSub(mtu, DATAGRAM_HEADER_BUDGET) }

  function FragmentFrame(fragments: seq<bytes>, i: nat, reliable: u24, order: u24, splitId: u16): Frame
    requires i < |fragments| < 0x1_0000_0000
  {
    Frame(ReliableOrdered, Some(reliable), None, Some(order), 0,
          if |fragments| > 1 then Some(SplitHeader(|fragments|, splitId, i)) else None,
          fragments[i])
  }

  function SendFrame(tx: Transmit, frame: Frame, b: Budgets, now: Instant): TxOutcome {
    if |tx.unacked| + 1 > b.maxUnacked then
      TxOutcome(tx, Some(BudgetExceeded(|tx.unacked| + 1, b.maxUnacked)))
    else
      var sequence := tx.nextDatagram;
      var tx1 := tx.(nextDatagram := Next(sequence));
      var datagram := EncodeDatagram(sequence, frame);
      if |datagram| > b.maxDatagramBytes then
        TxOutcome(tx1, Some(BudgetExceeded(|datagram|, b.maxDatagramBytes)))
      else
        TxOutcome(tx1.(output := tx1.output + [datagram],
                       unacked := tx1.unacked[sequence := Unacked(datagram, now, 1)]), None)
  }

  function SendFragments(tx: Transmit, fragments: seq<bytes>, i: nat, order: u24, splitId: u16,
                         b: Budgets, now: Instant): TxOutcome
    requires i <= |fragments| < 0x1_0000_0000
    decreases |fragments| - i
  {
    if i == |fragments| then TxOutcome(tx, None) else
    var frame := FragmentFrame(fragments, i, tx.nextReliable, order, splitId);
    var r := SendFrame(tx.(nextReliable := Next(tx.nextReliable)), frame, b, now);
    if r.error.Some? then r else SendFragments(r.tx, fragments, i + 1, order, splitId, b, now)
  }

  lemma FragmentStep(tx: Transmit, fragments: seq<bytes>, i: nat, order: u24, splitId: u16, b: Budgets, now: Instant)
    requires i < |fragments| < 0x1_0000_0000
    ensures
      var f := FragmentFrame(fragments, i, tx.nextReliable, order, splitId);
      var r := SendFrame(tx.(nextReliable := Next(tx.nextReliable)), f, b, now);
      SendFragments(tx, fragments, i, order, splitId, b, now)
      == if r.error.Some? then r else SendFragments(r.tx, fragments, i + 1, order, splitId, b, now)
  {
  }

  function SendReliableOrdered(tx: Transmit, payload: bytes, mtu: u16, b: Budgets, now: Instant): TxOutcome {
    var capacity := FragmentCapacity(mtu);
    if capacity == 0 then TxOutcome(tx, Some(RakNetError.Wire)) else
    var order := tx.nextOrdered;
    var tx1 := tx.(nextOrdered := Next(order), sent := tx.sent + [payload]);
    var fragments := Fragments(payload, capacity);
    if |fragments| >= 0x1_0000_0000 then TxOutcome(tx1, Some(RakNetError.Wire)) else
    var splitId := tx.nextSplitId;
    var tx2 := tx1.(nextSplitId := (splitId + 1) % 0x1_0000);
    SendFragments(tx2, fragments, 0, order, splitId, b, now)
  }

  function Transmitting(p: Peer, r: TxOutcome): Outcome { Outcome(p.(tx := r.tx), r.error) }

  function Send(p: Peer, payload: bytes, env: Env): Outcome {
    Transmitting(p, SendReliableOrdered(p.tx, payload, p.mtu, p.budgets, env.now))
  }

  function SendApplication(p: Peer, payload: bytes, env: Env): Outcome {
    if !p.accepted then Outcome(p, Some(RakNetError.Wire))
    else if |payload| > p.budgets.maxPayloadBytes then
      Outcome(p, Some(BudgetExceeded(|payload|, p.budgets.maxPayloadBytes)))
    else Send(p, payload, env)
  }

  // ---- Acknowledgements and retransmission ----

  function Retransmit(tx: Transmit, sequence: u24, now: Instant): TxOutcome {
    if sequence !in tx.unacked then TxOutcome(tx, None) else
    var d := tx.unacked[sequence];
    if d.attempts >= MAX_RETRANSMIT_ATTEMPTS then
      TxOutcome(tx, Some(RetransmitExhausted(sequence, d.attempts)))
    else
      TxOutcome(tx.(output := tx.output + [d.payload],
                    unacked := tx.unacked[sequence := d.(sentAt := now, attempts := d.attempts + 1)]), None)
  }

  function RetransmitAll(tx: Transmit, sequences: seq<u24>, now: Instant): TxOutcome
    decreases |sequences|
  {
    if sequences == [] then TxOutcome(tx, None) else
    var r := Retransmit(tx, sequences[0], now);
    if r.error.Some? then r else RetransmitAll(r.tx, sequences[1..], now)
  }

  /** The requested sequences that are still unacknowledged, in map order. */
  function Requested(order: seq<u24>, unacked: map<u24, Unacked>, ranges: seq<(u24, u24)>): seq<u24> {
    if order == [] then [] else
    (if order[0] in unacked && InAnyRange(order[0], ranges) then [order[0]] else [])
    + Requested(order[1..], unacked, ranges)
  }

  predicate IsDue(d: Unacked, now: Instant) {
    SaturatingSub(now, d.sentAt) >= RetransmitDelay(d.attempts)
  }

  function Due(order: seq<u24>, unacked: map<u24, Unacked>, now: Instant): seq<u24> {
    if order == [] then [] else
    (if order[0] in unacked && IsDue(unacked[order[0]], now) then [order[0]] else [])
    + Due(order[1..], unacked, now)
  }

  function Acknowledge(unacked: map<u24, Unacked>, ranges: seq<(u24, u24)>): map<u24, Unacked> {
    map s | s in unacked && !InAnyRange(s, ranges) :: unacked[s]
  }

  function ApplyAcknowledgement(p: Peer, a: Acknowledgement, env: Env): Outcome {
    match a
    case Ack(ranges) => Outcome(p.(tx := p.tx.(unacked := Acknowledge(p.tx.unacked, ranges))), None)
    case Nack(ranges) =>
      Transmitting(p, RetransmitAll(p.tx, Requested(env.order, p.tx.unacked, ranges), env.now))
  }

  function OnTimer(p: Peer, env: Env): Outcome {
    if SaturatingSub(env.now, p.lastObserved) >= PEER_TIMEOUT then Outcome(p, Some(RakNetError.PeerTimeout))
    else Transmitting(p, RetransmitAll(p.tx, Due(env.order, p.tx.unacked, env.now), env.now))
  }

  // ---- Delivery ----

  const UNSPECIFIED_ADDRESS: bytes := [4, 255, 255, 255, 255, 0, 0]

  function Repeat(s: bytes, n: nat): bytes { if n == 0 then [] else s + Repeat(s, n - 1) }

  function ConnectionAccept(remoteAddr: bytes, requestTime: bytes, epochMillis: bytes): bytes {
    [0x10] + remoteAddr + [0, 0] + Repeat(UNSPECIFIED_ADDRESS, 10) + requestTime + epochMillis
  }

  function ConnectedPong(pingTime: bytes, epochMillis: bytes): bytes { [0x03] + pingTime + epochMillis }

  /** Delivery touches only the transmit side, the handshake flag and the application queue. */
  ghost predicate SameButDelivery(p: Peer, q: Peer) {
    q == p.(tx := q.tx, accepted := q.accepted, inbox := q.inbox, ordering := q.ordering, delivered := q.delivered)
  }

  function DeliverPayload(p: Peer, payload: bytes, env: Env): (r: Outcome)
    ensures r.peer == p.(tx := r.peer.tx, accepted := r.peer.accepted, inbox := r.peer.inbox)
  {
    var id := if payload == [] then None else Some(payload[0]);
    if id == Some(0x09) then
      if |payload| < 18 then Outcome(p, Some(RakNetError.Wire))
      else Send(p, ConnectionAccept(p.remoteAddr, payload[9..17], env.epochMillis), env)
    else if id == Some(0x00) then
      if |payload| < 9 then Outcome(p, Some(RakNetError.Wire))
      else Send(p, ConnectedPong(payload[1..9], env.epochMillis), env)
    else if id == Some(0x13) && !p.accepted then
      Outcome(p.(accepted := true), if env.acceptOpen then None else Some(RakNetError.Closed))
    else if id == Some(0x13) || id == Some(0x03) then Outcome(p, None)
    else if id == Some(0x15) || id == Some(0x1C) then Outcome(p, Some(RakNetError.Closed))
    else if p.accepted then
      if |p.inbox| + 1 > p.budgets.applicationQueue then
        Outcome(p, Some(BudgetExceeded(|p.inbox| + 1, p.budgets.applicationQueue)))
      else Outcome(p.(inbox := p.inbox + [payload]), None)
    else Outcome(p, None)
  }

  function Deliver(p: Peer, d: Delivery, env: Env): (r: Outcome)
    ensures SameButDelivery(p, r.peer)
    ensures r.peer.ordering == p.ordering && r.peer.delivered == p.delivered + [d]
  {
    DeliverPayload(p.(delivered := p.delivered + [d]), d.payload, env)
  }

  // ---- Ordered channels ----

  function Expected(o: Ordering, channel: byte): u24 {
    if channel in o.expected then o.expected[channel] else 0
  }

  /** Delivers the payload and moves the channel on to the next index. */
  function DeliverInOrder(p: Peer, channel: byte, index: u24, payload: bytes, env: Env): (r: Outcome)
    ensures SameButDelivery(p, r.peer)
    ensures r.peer.ordering == p.ordering.(expected := p.ordering.expected[channel := Next(index)])
    ensures r.peer.delivered == p.delivered + [InOrder(channel, index, payload)]
  {
    Deliver(p.(ordering := p.ordering.(expected := p.ordering.expected[channel := Next(index)])),
            InOrder(channel, index, payload), env)
  }

  function Drain(p: Peer, channel: byte, env: Env): (r: Outcome)
    ensures SameButDelivery(p, r.peer)
    decreases |p.ordering.holdback|
  {
    var index := Expected(p.ordering, channel);
    var key := (channel, index);
    if key !in p.ordering.holdback then Outcome(p, None) else
    var payload := p.ordering.holdback[key];
    var r := DeliverInOrder(p.(ordering := p.ordering.(holdback := p.ordering.holdback - {key})),
                            channel, index, payload, env);
    if r.error.Some? then r else
    assert |p.ordering.holdback - {key}| < |p.ordering.holdback| by { RemoveShrinks(p.ordering.holdback, key); }
    Drain(r.peer, channel, env)
  }

  lemma RemoveShrinks<K, V>(m: map<K, V>, k: K)
    requires k in m
    ensures |m - {k}| == |m| - 1
  {
    assert (m - {k}).Keys == m.Keys - {k};
    assert |(m - {k}).Keys| == |m - {k}|;
  }

  function AcceptOrdered(p: Peer, channel: byte, index: u24, payload: bytes, env: Env): (r: Outcome)
    ensures SameButDelivery(p, r.peer)
  {
    var expected := Expected(p.ordering, channel);
    var p1 := p.(ordering := p.ordering.(expected := p.ordering.expected[channel := expected]));
    var o := p1.ordering;
    if index == expected then
      var r := DeliverInOrder(p1, channel, index, payload, env);
      if r.error.Some? then r else Drain(r.peer, channel, env)
    else if IsNewer(index, expected) then
      if |o.holdback| + 1 > p.budgets.maxOrderedHoldback then
        Outcome(p1, Some(BudgetExceeded(|o.holdback| + 1, p.budgets.maxOrderedHoldback)))
      else if (channel, index) in o.holdback then Outcome(p1, None)
      else Outcome(p1.(ordering := o.(holdback := o.holdback[(channel, index) := payload])), None)
    else Outcome(p1, None)
  }

  // ---- Reassembly ----

  datatype Assembled = Pending | Complete(payload: bytes) | Refused(error: RakNetError)

  predicate AllPresent(parts: Parts) { forall part <- parts :: part.Some? }

  function Join(parts: Parts): bytes {
    if parts == [] then []
    else Join(parts[..|parts| - 1]) + (if parts[|parts| - 1].Some? then parts[|parts| - 1].value else [])
  }

  function Finish(a: Assemblies, id: u16): (Assemblies, Assembled)
    requires id in a.pending
  {
    var parts := a.pending[id];
    if !AllPresent(parts) then (a, Pending)
    else (Assemblies(a.pending - {id}, SaturatingSub(a.bytes, |Join(parts)|), SaturatingSub(a.parts, |parts|)),
          Complete(Join(parts)))
  }

  function Store(a: Assemblies, id: u16, index: nat, payload: bytes, b: Budgets): (Assemblies, Assembled)
    requires id in a.pending && index < |a.pending[id]|
  {
    var parts := a.pending[id];
    if parts[index].Some? then Finish(a, id)
    else if SaturatingAdd(a.bytes, |payload|) > b.maxReassemblyBytes then
      (a, Refused(BudgetExceeded(SaturatingAdd(a.bytes, |payload|), b.maxReassemblyBytes)))
    else
      Finish(a.(bytes := SaturatingAdd(a.bytes, |payload|),
                pending := a.pending[id := parts[index := Some(payload)]]), id)
  }

  function Missing(n: nat): (parts: Parts)
    ensures |parts| == n && forall i :: 0 <= i < n ==> parts[i] == None
  {
    seq(n, _ => None)
  }

  /** The assembly for `id`, begun with every part missing if there is none yet. */
  function Open(a: Assemblies, id: u16, count: nat): (r: Assemblies)
    ensures id in r.pending
  {
    if id in a.pending then a
    else a.(parts := SaturatingAdd(a.parts, count), pending := a.pending[id := Missing(count)])
  }

  function AcceptFragment(a: Assemblies, split: SplitHeader, payload: bytes, b: Budgets): (Assemblies, Assembled) {
    if split.count == 0 || split.index >= split.count then (a, Refused(RakNetError.Wire)) else
    var isNew := split.id !in a.pending;
    var requested := SaturatingAdd(a.parts, if isNew then split.count else 0);
    if requested > b.maxReassemblyParts then
      (a, Refused(BudgetExceeded(requested, b.maxReassemblyParts)))
    else
      var a1 := Open(a, split.id, split.count);
      if |a1.pending[split.id]| != split.count then (a1, Refused(RakNetError.Wire))
      else Store(a1, split.id, split.index, payload, b)
  }

  // ---- Receiving ----

  function Evict(w: Window, limit: usize): Window
    decreases |w.order|
  {
    if |w.order| > limit then Evict(Window(w.index - {w.order[0]}, w.order[1..]), limit) else w
  }

  function Admit(w: Window, s: u24, limit: usize): Window {
    Evict(Window(w.index + {s}, w.order + [s]), limit)
  }

  function Dispatch(p: Peer, f: Frame, env: Env): (r: Outcome)
    ensures SameButDelivery(p.(sequencedLatest := r.peer.sequencedLatest), r.peer)
  {
    if f.reliability.IsSequenced() then
      if f.sequenceIndex.None? then Outcome(p, Some(RakNetError.Wire))
      else if f.orderChannel in p.sequencedLatest
           && !IsNewer(f.sequenceIndex.value, p.sequencedLatest[f.orderChannel]) then Outcome(p, None)
      else Deliver(p.(sequencedLatest := p.sequencedLatest[f.orderChannel := f.sequenceIndex.value]),
                   Immediate(f.payload), env)
    else if f.reliability.IsOrdered() then
      if f.orderIndex.None? then Outcome(p, Some(RakNetError.Wire))
      else AcceptOrdered(p, f.orderChannel, f.orderIndex.value, f.payload, env)
    else Deliver(p, Immediate(f.payload), env)
  }

  function Reassemble(p: Peer, f: Frame, env: Env): (r: Outcome)
    ensures r.peer.budgets == p.budgets && r.peer.mtu == p.mtu
  {
    if f.split.None? then Dispatch(p, f, env) else
    var (assemblies, result) := AcceptFragment(p.assemblies, f.split.value, f.payload, p.budgets);
    var p1 := p.(assemblies := assemblies);
    match result
    case Pending => Outcome(p1, None)
    case Refused(error) => Outcome(p1, Some(error))
    case Complete(payload) => Dispatch(p1, f.(split := None, payload := payload), env)
  }

  function ReceiveFrame(p: Peer, f: Frame, env: Env): (r: Outcome)
    ensures r.peer.budgets == p.budgets && r.peer.mtu == p.mtu
  {
    if f.reliableIndex.None? then Reassemble(p, f, env)
    else if f.reliableIndex.value in p.reliable.index then Outcome(p, None)
    else Reassemble(p.(reliable := Admit(p.reliable, f.reliableIndex.value, WindowLimit(p.budgets))), f, env)
  }

  function ReceiveFrames(p: Peer, frames: seq<Frame>, env: Env): Outcome
    decreases |frames|
  {
    if frames == [] then Outcome(p, None) else
    var r := ReceiveFrame(p, frames[0], env);
    if r.error.Some? then r else ReceiveFrames(r.peer, frames[1..], env)
  }

  function Emit(p: Peer, datagram: bytes): Peer {
    p.(tx := p.tx.(output := p.tx.output + [datagram]))
  }

  /** Reports a gap after the newest datagram so far, and remembers the newest. */
  function NoteGap(p: Peer, sequence: u24): (r: Peer)
    ensures r == p.(lastDatagram := r.lastDatagram, tx := r.tx)
  {
    if p.lastDatagram.None? then p.(lastDatagram := Some(sequence)) else
    var previous := p.lastDatagram.value;
    if !IsNewer(sequence, previous) then p else
    var p1 := if Distance(sequence, previous) > 1 then Emit(p, EncodeNack(Next(previous), Previous(sequence))) else p;
    p1.(lastDatagram := Some(sequence))
  }

  /** Acknowledges a datagram and, if it is new, enters it in the window and reports any gap. */
  function Register(p: Peer, sequence: u24): (r: Peer)
    ensures r == p.(datagrams := r.datagrams, lastDatagram := r.lastDatagram, tx := r.tx)
  {
    var p1 := Emit(p, EncodeAck(sequence));
    if sequence in p.datagrams.index then p1
    else NoteGap(p1.(datagrams := Admit(p.datagrams, sequence, WindowLimit(p.budgets))), sequence)
  }

  function AcceptDatagram(p: Peer, d: Datagram, env: Env): Outcome {
    if d.sequence in p.datagrams.index then Outcome(Register(p, d.sequence), None)
    else ReceiveFrames(Register(p, d.sequence), d.frames, env)
  }

  function Observe(p: Peer, at: Instant): Peer { p.(lastObserved := Max(p.lastObserved, at)) }

  function ReceiveDatagram(p: Peer, datagram: bytes, env: Env): Outcome {
    var p1 := Observe(p, env.now);
    match DecodeAcknowledgement(datagram)
    case Err(error) => Outcome(p1, Some(error))
    case Ok(Some(acknowledgement)) => ApplyAcknowledgement(p1, acknowledgement, env)
    case Ok(None) =>
      match DecodeDatagram(datagram, p.budgets)
      case Err(error) => Outcome(p1, Some(error))
      case Ok(d) => AcceptDatagram(p1, d, env)
  }

  // ---- Runs ----

  datatype Event =
    | Arrive(datagram: bytes, env: Env)
    | Submit(payload: bytes, env: Env)
    | Tick(env: Env)
    | Consume            // the application takes the oldest queued payload

  function Step(p: Peer, e: Event): Outcome {
    match e
    case Arrive(datagram, env) => ReceiveDatagram(p, datagram, env)
    case Submit(payload, env) => SendApplication(p, payload, env)
    case Tick(env) => OnTimer(p, env)
    case Consume => Outcome(if p.inbox == [] then p else p.(inbox := p.inbox[1..]), None)
  }

  /** The actor stops at the first error. */
  function Run(p: Peer, events: seq<Event>): Outcome
    decreases |events|
  {
    if events == [] then Outcome(p, None) else
    var r := Step(p, events[0]);
    if r.error.Some? then r else Run(r.peer, events[1..])
  }
}
