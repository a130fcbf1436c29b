/**
 * End-to-end ordered delivery between two peers over a network that may drop, duplicate and
 * reorder datagrams but not forge them: a datagram that arrives was written by the other peer.
 */
module Delivery {
  import opened Wrappers
  import opened Bytes
  import opened Sequence
  import opened Budget
  import opened Wire
  import opened Peer
  import opened Reassembly

  /** Order indexes are 24 bits wide; with one left over, a late copy is never taken for a new message. */
  const MAX_MESSAGES := 0xFF_FFFF

  // ---- What a sender puts on the network ----

  /** Message k has a fragment i. */
  ghost predicate HasFragment(sent: seq<bytes>, capacity: nat, k: nat, i: nat) {
    0 < capacity && k < |sent| && i < |Fragments(sent[k], capacity)| < 0x1_0000_0000
  }

  function FrameCount(sent: seq<bytes>, capacity: nat): nat
    requires 0 < capacity
  {
    if sent == [] then 0
    else FrameCount(sent[..|sent| - 1], capacity) + |Fragments(sent[|sent| - 1], capacity)|
  }

  /** Where fragment i of message k stands among all fragments: the number its frame and datagram carry. */
  function Place(sent: seq<bytes>, capacity: nat, k: nat, i: nat): nat
    requires 0 < capacity && k <= |sent|
  {
    FrameCount(sent[..k], capacity) + i
  }

  ghost function FrameOf(sent: seq<bytes>, capacity: nat, k: nat, i: nat): Frame
    requires HasFragment(sent, capacity, k, i)
  {
    FragmentFrame(Fragments(sent[k], capacity), i, Wrap(Place(sent, capacity, k, i)), Wrap(k), k % 0x1_0000)
  }

  ghost function DatagramOf(sent: seq<bytes>, capacity: nat, k: nat, i: nat): bytes
    requires HasFragment(sent, capacity, k, i)
  {
    EncodeDatagram(Wrap(Place(sent, capacity, k, i)), FrameOf(sent, capacity, k, i))
  }

  ghost predicate IsAcknowledgement(d: bytes) {
    exists id: byte, start: u24, end: u24 :: (id == 0xA0 || id == 0xC0) && d == EncodeAckRange(id, start, end)
  }

  ghost predicate IsData(d: bytes, sent: seq<bytes>, capacity: nat) {
    exists k: nat, i: nat :: HasFragment(sent, capacity, k, i) && d == DatagramOf(sent, capacity, k, i)
  }

  ghost predicate Genuine(d: bytes, sent: seq<bytes>, capacity: nat) {
    IsAcknowledgement(d) || IsData(d, sent, capacity)
  }

  /** Everything written is genuine, and everything kept for retransmission was written. */
  ghost predicate SenderOk(tx: Transmit, capacity: nat) {
    && (forall d <- tx.output :: Genuine(d, tx.sent, capacity))
    && (forall s <- tx.unacked :: tx.unacked[s].payload in tx.output)
  }

  /** The fragments of the messages before k and the first `done` of message k are written, under their numbers. */
  ghost predicate WrittenUpTo(tx: Transmit, capacity: nat, k: nat, done: nat) {
    && 0 < capacity && k <= |tx.sent|
    && tx.nextDatagram == tx.nextReliable == Wrap(Place(tx.sent, capacity, k, done))
    && (forall j: nat :: j < k ==> |Fragments(tx.sent[j], capacity)| < 0x1_0000_0000)
    && (forall j: nat, i: nat {:trigger DatagramOf(tx.sent, capacity, j, i)} ::
          HasFragment(tx.sent, capacity, j, i) && (j < k || (j == k && i < done)) ==>
          DatagramOf(tx.sent, capacity, j, i) in tx.output)
  }

  /** Message k goes out under order index k and split id k, each at its own width, and every fragment is written. */
  ghost predicate Numbered(tx: Transmit, capacity: nat) {
    && tx.nextOrdered == Wrap(|tx.sent|) && tx.nextSplitId == |tx.sent| % 0x1_0000
    && (0 < capacity ==> WrittenUpTo(tx, capacity, |tx.sent|, 0))
  }

  /** From `tx` to `tx'` messages were only added, and the sender's promises kept. */
  ghost predicate Evolves(tx: Transmit, tx': Transmit, capacity: nat, running: bool) {
    && tx.sent <= tx'.sent
    && (SenderOk(tx, capacity) && Numbered(tx, capacity) ==>
          SenderOk(tx', capacity) && (running ==> Numbered(tx', capacity)))
  }

  lemma FragmentSurvives(sent: seq<bytes>, sent': seq<bytes>, capacity: nat, k: nat, i: nat)
    requires HasFragment(sent, capacity, k, i) && sent <= sent'
    ensures HasFragment(sent', capacity, k, i)
    ensures DatagramOf(sent', capacity, k, i) == DatagramOf(sent, capacity, k, i)
  {
    PlaceSurvives(sent, sent', capacity, k, i);
    assert sent'[k] == sent[k];
    assert FrameOf(sent', capacity, k, i) == FrameOf(sent, capacity, k, i);
  }

  lemma PlaceSurvives(sent: seq<bytes>, sent': seq<bytes>, capacity: nat, k: nat, i: nat)
    requires 0 < capacity && k <= |sent| && sent <= sent'
    ensures Place(sent', capacity, k, i) == Place(sent, capacity, k, i)
  {
    assert sent'[..k] == sent[..k];
  }

  lemma GenuineSurvives(output: seq<bytes>, sent: seq<bytes>, sent': seq<bytes>, capacity: nat)
    requires (forall d <- output :: Genuine(d, sent, capacity)) && sent <= sent'
    ensures forall d <- output :: Genuine(d, sent', capacity)
  {
    forall d | d in output ensures Genuine(d, sent', capacity) {
      if IsData(d, sent, capacity) {
        var k: nat, i: nat :| HasFragment(sent, capacity, k, i) && d == DatagramOf(sent, capacity, k, i);
        FragmentSurvives(sent, sent', capacity, k, i);
      }
    }
  }

  /** The next fragment goes out under the next number. */
  lemma SendFrameSends(tx: Transmit, f: Frame, k: nat, i: nat, b: Budgets, now: Instant, capacity: nat, r: TxOutcome)
    requires SenderOk(tx, capacity) && HasFragment(tx.sent, capacity, k, i) && WrittenUpTo(tx, capacity, k, i)
    requires f == FrameOf(tx.sent, capacity, k, i)
    requires r == SendFrame(tx.(nextReliable := Next(tx.nextReliable)), f, b, now)
    ensures SenderOk(r.tx, capacity)
    ensures r.tx.sent == tx.sent && r.tx.nextOrdered == tx.nextOrdered && r.tx.nextSplitId == tx.nextSplitId
    ensures r.error.None? ==> WrittenUpTo(r.tx, capacity, k, i + 1)
  {
    var d := EncodeDatagram(tx.nextDatagram, f);
    assert d == DatagramOf(tx.sent, capacity, k, i);
    var tx1 := tx.(nextReliable := Next(tx.nextReliable), nextDatagram := Next(tx.nextDatagram));
    if r.error.None? {
      WritingKeeps(tx1, d, tx.nextDatagram, now, capacity);
      OneMoreWritten(tx, r.tx, k, i, capacity);
    }
  }

  lemma OneMoreWritten(tx: Transmit, tx': Transmit, k: nat, i: nat, capacity: nat)
    requires HasFragment(tx.sent, capacity, k, i) && WrittenUpTo(tx, capacity, k, i) && tx'.sent == tx.sent
    requires tx'.nextDatagram == tx'.nextReliable == Next(tx.nextReliable)
    requires tx'.output == tx.output + [DatagramOf(tx.sent, capacity, k, i)]
    ensures WrittenUpTo(tx', capacity, k, i + 1)
  {
    WrapStep(Place(tx.sent, capacity, k, i));
  }

  /** A genuine datagram may be written and kept for retransmission. */
  lemma WritingKeeps(tx: Transmit, d: bytes, sequence: u24, now: Instant, capacity: nat)
    requires SenderOk(tx, capacity) && Genuine(d, tx.sent, capacity)
    ensures SenderOk(tx.(output := tx.output + [d], unacked := tx.unacked[sequence := Unacked(d, now, 1)]), capacity)
  {
    var output := tx.output + [d];
    forall s | s in tx.unacked ensures tx.unacked[s].payload in output {
      assert tx.unacked[s].payload in tx.output;
    }
    assert d == output[|tx.output|];
  }

  /** All the fragments of a message go out, or the sender stops. */
  lemma {:induction false} SendFragmentsSends(tx: Transmit, fragments: seq<bytes>, i: nat, k: nat,
                                              b: Budgets, now: Instant, capacity: nat, r: TxOutcome)
    requires 0 < capacity && k < |tx.sent| && fragments == Fragments(tx.sent[k], capacity)
    requires i <= |fragments| < 0x1_0000_0000 && SenderOk(tx, capacity) && WrittenUpTo(tx, capacity, k, i)
    requires r == SendFragments(tx, fragments, i, Wrap(k), k % 0x1_0000, b, now)
    ensures SenderOk(r.tx, capacity)
    ensures r.tx.sent == tx.sent && r.tx.nextOrdered == tx.nextOrdered && r.tx.nextSplitId == tx.nextSplitId
    ensures r.error.None? ==> WrittenUpTo(r.tx, capacity, k, |fragments|)
    decreases |fragments| - i
  {
    if i < |fragments| {
      var f := FragmentFrame(fragments, i, tx.nextReliable, Wrap(k), k % 0x1_0000);
      var next := SendFrame(tx.(nextReliable := Next(tx.nextReliable)), f, b, now);
      SendFrameSends(tx, f, k, i, b, now, capacity, next);
      FragmentStep(tx, fragments, i, Wrap(k), k % 0x1_0000, b, now);
      if next.error.None? {
        SendFragmentsSends(next.tx, fragments, i + 1, k, b, now, capacity, r);
      }
    }
  }

  /** The sender's state once a message has been numbered and before its fragments go out. */
  function Numbering(tx: Transmit, payload: bytes): Transmit {
    tx.(nextOrdered := Next(tx.nextOrdered), sent := tx.sent + [payload],
        nextSplitId := (tx.nextSplitId + 1) % 0x1_0000)
  }

  lemma NumberingKeeps(tx: Transmit, payload: bytes, capacity: nat)
    requires SenderOk(tx, capacity) && Numbered(tx, capacity) && 0 < capacity
    ensures
      var tx1 := Numbering(tx, payload);
      && SenderOk(tx1, capacity) && WrittenUpTo(tx1, capacity, |tx.sent|, 0)
      && tx1.nextOrdered == Wrap(|tx1.sent|) && tx1.nextSplitId == |tx1.sent| % 0x1_0000
  {
    var k, sent := |tx.sent|, tx.sent + [payload];
    GenuineSurvives(tx.output, tx.sent, sent, capacity);
    WrapStep(k);
    SplitIdStep(k);
    assert sent[..k] == tx.sent == tx.sent[..k];
    forall j: nat, i: nat | HasFragment(sent, capacity, j, i) && j < k
      ensures DatagramOf(sent, capacity, j, i) in tx.output
    {
      assert HasFragment(tx.sent, capacity, j, i);
      FragmentSurvives(tx.sent, sent, capacity, j, i);
    }
  }

  /** With all its fragments written, message k is done. */
  lemma MessageWritten(tx: Transmit, capacity: nat, k: nat)
    requires 0 < capacity && |tx.sent| == k + 1 && |Fragments(tx.sent[k], capacity)| < 0x1_0000_0000
    requires WrittenUpTo(tx, capacity, k, |Fragments(tx.sent[k], capacity)|)
    ensures WrittenUpTo(tx, capacity, k + 1, 0)
  {
    assert tx.sent[..k + 1] == tx.sent;
  }

  lemma SplitIdStep(n: nat)
    ensures (n + 1) % 0x1_0000 == (n % 0x1_0000 + 1) % 0x1_0000
  {
  }

  lemma SendEvolves(tx: Transmit, payload: bytes, mtu: u16, b: Budgets, now: Instant)
    ensures
      var r := SendReliableOrdered(tx, payload, mtu, b, now);
      Evolves(tx, r.tx, FragmentCapacity(mtu), r.error.None?)
  {
    var capacity := FragmentCapacity(mtu);
    if capacity != 0 {
      var fragments := Fragments(payload, capacity);
      if |fragments| < 0x1_0000_0000 {
        SendFragmentsKeepsSent(Numbering(tx, payload), fragments, 0, tx.nextOrdered, tx.nextSplitId, b, now);
        if SenderOk(tx, capacity) && Numbered(tx, capacity) {
          MessageEvolves(tx, payload, b, now, capacity);
        }
      } else if SenderOk(tx, capacity) {
        GenuineSurvives(tx.output, tx.sent, tx.sent + [payload], capacity);
      }
    }
  }

  lemma MessageEvolves(tx: Transmit, payload: bytes, b: Budgets, now: Instant, capacity: nat)
    requires 0 < capacity && |Fragments(payload, capacity)| < 0x1_0000_0000
    requires SenderOk(tx, capacity) && Numbered(tx, capacity)
    ensures
      var tx1 := Numbering(tx, payload);
      var r := SendFragments(tx1, Fragments(payload, capacity), 0, tx.nextOrdered, tx.nextSplitId, b, now);
      SenderOk(r.tx, capacity) && (r.error.None? ==> Numbered(r.tx, capacity))
  {
    var tx1, k := Numbering(tx, payload), |tx.sent|;
    NumberingKeeps(tx, payload, capacity);
    assert tx1.sent[k] == payload;
    var r := SendFragments(tx1, Fragments(payload, capacity), 0, tx.nextOrdered, tx.nextSplitId, b, now);
    SendFragmentsSends(tx1, Fragments(payload, capacity), 0, k, b, now, capacity, r);
    if r.error.None? {
      MessageWritten(r.tx, capacity, k);
    }
  }

  lemma {:induction false} SendFragmentsKeepsSent(tx: Transmit, fragments: seq<bytes>, i: nat, order: u24, splitId: u16,
                                                  b: Budgets, now: Instant)
    requires i <= |fragments| < 0x1_0000_0000
    ensures SendFragments(tx, fragments, i, order, splitId, b, now).tx.sent == tx.sent
    decreases |fragments| - i
  {
    if i < |fragments| {
      var f := FragmentFrame(fragments, i, tx.nextReliable, order, splitId);
      var r := SendFrame(tx.(nextReliable := Next(tx.nextReliable)), f, b, now);
      if r.error.None? {
        SendFragmentsKeepsSent(r.tx, fragments, i + 1, order, splitId, b, now);
      }
    }
  }

  /** Writing something genuine once more changes no promise. */
  lemma WritingEvolves(tx: Transmit, tx': Transmit, d: bytes, capacity: nat)
    requires tx' == tx.(output := tx.output + [d], unacked := tx'.unacked)
    requires SenderOk(tx, capacity) ==>
            Genuine(d, tx.sent, capacity) && forall s <- tx'.unacked :: tx'.unacked[s].payload in tx.output
    ensures Evolves(tx, tx', capacity, true)
  {
    if SenderOk(tx, capacity) && Numbered(tx, capacity) {
      forall s | s in tx'.unacked ensures tx'.unacked[s].payload in tx'.output {
        assert tx'.unacked[s].payload in tx.output;
      }
    }
  }

  lemma RetransmitEvolves(tx: Transmit, s: u24, now: Instant, capacity: nat)
    ensures Evolves(tx, Retransmit(tx, s, now).tx, capacity, true)
  {
    if s in tx.unacked && tx.unacked[s].attempts < MAX_RETRANSMIT_ATTEMPTS {
      WritingEvolves(tx, Retransmit(tx, s, now).tx, tx.unacked[s].payload, capacity);
    }
  }

  lemma {:induction false} RetransmitAllEvolves(tx: Transmit, sequences: seq<u24>, now: Instant, capacity: nat)
    ensures Evolves(tx, RetransmitAll(tx, sequences, now).tx, capacity, true)
    decreases |sequences|
  {
    if sequences != [] {
      RetransmitEvolves(tx, sequences[0], now, capacity);
      var r := Retransmit(tx, sequences[0], now);
      if r.error.None? {
        RetransmitAllEvolves(r.tx, sequences[1..], now, capacity);
        EvolvesTrans(tx, r.tx, RetransmitAll(r.tx, sequences[1..], now).tx, capacity, true);
      }
    }
  }

  lemma EmitEvolves(p: Peer, id: byte, start: u24, end: u24)
    requires id == 0xA0 || id == 0xC0
    ensures Evolves(p.tx, Emit(p, EncodeAckRange(id, start, end)).tx, FragmentCapacity(p.mtu), true)
  {
    assert IsAcknowledgement(EncodeAckRange(id, start, end));
    WritingEvolves(p.tx, Emit(p, EncodeAckRange(id, start, end)).tx, EncodeAckRange(id, start, end),
                   FragmentCapacity(p.mtu));
  }

  lemma DeliverPayloadEvolves(p: Peer, payload: bytes, env: Env)
    ensures
      var r := DeliverPayload(p, payload, env);
      Evolves(p.tx, r.peer.tx, FragmentCapacity(p.mtu), r.error.None?)
  {
    var id := if payload == [] then None else Some(payload[0]);
    if id == Some(0x09) && |payload| >= 18 {
      SendEvolves(p.tx, ConnectionAccept(p.remoteAddr, payload[9..17], env.epochMillis), p.mtu, p.budgets, env.now);
    } else if id == Some(0x00) && |payload| >= 9 {
      SendEvolves(p.tx, ConnectedPong(payload[1..9], env.epochMillis), p.mtu, p.budgets, env.now);
    } else {
      assert DeliverPayload(p, payload, env).peer.tx == p.tx;
    }
  }

  lemma DeliverEvolves(p: Peer, d: Delivery, env: Env)
    ensures
      var r := Deliver(p, d, env);
      Evolves(p.tx, r.peer.tx, FragmentCapacity(p.mtu), r.error.None?)
  {
    DeliverPayloadEvolves(p.(delivered := p.delivered + [d]), d.payload, env);
  }

  lemma {:induction false} DrainEvolves(p: Peer, channel: byte, env: Env)
    ensures
      var r := Drain(p, channel, env);
      Evolves(p.tx, r.peer.tx, FragmentCapacity(p.mtu), r.error.None?)
    decreases |p.ordering.holdback|
  {
    var key := (channel, Expected(p.ordering, channel));
    if key in p.ordering.holdback {
      RemoveShrinks(p.ordering.holdback, key);
      var payload := p.ordering.holdback[key];
      var p1 := p.(ordering := Ordering(p.ordering.expected[channel := Next(key.1)], p.ordering.holdback - {key}));
      DeliverEvolves(p1, InOrder(channel, key.1, payload), env);
      var r := Deliver(p1, InOrder(channel, key.1, payload), env);
      if r.error.None? {
        DrainEvolves(r.peer, channel, env);
      }
    }
  }

  lemma AcceptOrderedEvolves(p: Peer, channel: byte, index: u24, payload: bytes, env: Env)
    ensures
      var r := AcceptOrdered(p, channel, index, payload, env);
      Evolves(p.tx, r.peer.tx, FragmentCapacity(p.mtu), r.error.None?)
  {
    var expected := Expected(p.ordering, channel);
    if index == expected {
      var p1 := p.(ordering :=
          p.ordering.(expected := p.ordering.expected[channel := expected][channel := Next(index)]));
      DeliverEvolves(p1, InOrder(channel, index, payload), env);
      var r := Deliver(p1, InOrder(channel, index, payload), env);
      if r.error.None? {
        DrainEvolves(r.peer, channel, env);
      }
    }
  }

  lemma DispatchEvolves(p: Peer, f: Frame, env: Env)
    ensures
      var r := Dispatch(p, f, env);
      Evolves(p.tx, r.peer.tx, FragmentCapacity(p.mtu), r.error.None?)
  {
    if f.reliability.IsSequenced() {
      if f.sequenceIndex.Some? {
        DeliverEvolves(p.(sequencedLatest := p.sequencedLatest[f.orderChannel := f.sequenceIndex.value]),
                       Immediate(f.payload), env);
      }
    } else if f.reliability.IsOrdered() {
      if f.orderIndex.Some? {
        AcceptOrderedEvolves(p, f.orderChannel, f.orderIndex.value, f.payload, env);
      }
    } else {
      DeliverEvolves(p, Immediate(f.payload), env);
    }
  }

  lemma ReceiveFrameEvolves(p: Peer, f: Frame, env: Env)
    ensures
      var r := ReceiveFrame(p, f, env);
      Evolves(p.tx, r.peer.tx, FragmentCapacity(p.mtu), r.error.None?)
  {
    var p1 := if f.reliableIndex.Some?
              then p.(reliable := Admit(p.reliable, f.reliableIndex.value, WindowLimit(p.budgets))) else p;
    if f.split.None? {
      DispatchEvolves(p1, f, env);
    } else {
      var (assemblies, result) := AcceptFragment(p.assemblies, f.split.value, f.payload, p.budgets);
      if result.Complete? {
        DispatchEvolves(p1.(assemblies := assemblies), f.(split := None, payload := result.payload), env);
      }
    }
  }

  lemma {:induction false} ReceiveFramesEvolves(p: Peer, frames: seq<Frame>, env: Env)
    ensures
      var r := ReceiveFrames(p, frames, env);
      Evolves(p.tx, r.peer.tx, FragmentCapacity(p.mtu), r.error.None?)
    decreases |frames|
  {
    if frames != [] {
      ReceiveFrameEvolves(p, frames[0], env);
      var r := ReceiveFrame(p, frames[0], env);
      if r.error.None? {
        ReceiveFramesEvolves(r.peer, frames[1..], env);
      }
    }
  }

  lemma NoteGapEvolves(p: Peer, sequence: u24)
    ensures Evolves(p.tx, NoteGap(p, sequence).tx, FragmentCapacity(p.mtu), true)
  {
    if p.lastDatagram.Some? {
      EmitEvolves(p, 0xA0, Next(p.lastDatagram.value), Previous(sequence));
    }
  }

  lemma EvolvesTrans(tx: Transmit, tx': Transmit, tx'': Transmit, capacity: nat, running: bool)
    requires Evolves(tx, tx', capacity, true) && Evolves(tx', tx'', capacity, running)
    ensures Evolves(tx, tx'', capacity, running)
  {
  }

  lemma RegisterEvolves(p: Peer, sequence: u24)
    ensures Evolves(p.tx, Register(p, sequence).tx, FragmentCapacity(p.mtu), true)
  {
    EmitEvolves(p, 0xC0, sequence, sequence);
    var p1 := Emit(p, EncodeAck(sequence));
    if sequence !in p.datagrams.index {
      var p2 := p1.(datagrams := Admit(p.datagrams, sequence, WindowLimit(p.budgets)));
      NoteGapEvolves(p2, sequence);
      EvolvesTrans(p.tx, p2.tx, NoteGap(p2, sequence).tx, FragmentCapacity(p.mtu), true);
    }
  }

  lemma AcceptDatagramEvolves(p: Peer, d: Datagram, env: Env)
    ensures
      var r := AcceptDatagram(p, d, env);
      Evolves(p.tx, r.peer.tx, FragmentCapacity(p.mtu), r.error.None?)
  {
    RegisterEvolves(p, d.sequence);
    if d.sequence !in p.datagrams.index {
      var p1 := Register(p, d.sequence);
      ReceiveFramesEvolves(p1, d.frames, env);
      var r := ReceiveFrames(p1, d.frames, env);
      EvolvesTrans(p.tx, p1.tx, r.peer.tx, FragmentCapacity(p.mtu), r.error.None?);
    }
  }

  /** Whatever happens to a peer, what it puts on the network stays genuine. */
  lemma StepEvolves(p: Peer, e: Event)
    ensures
      var r := Step(p, e);
      Evolves(p.tx, r.peer.tx, FragmentCapacity(p.mtu), r.error.None?)
  {
    var capacity := FragmentCapacity(p.mtu);
    match e
    case Submit(payload, env) => SendEvolves(p.tx, payload, p.mtu, p.budgets, env.now);
    case Tick(env) => RetransmitAllEvolves(p.tx, Due(env.order, p.tx.unacked, env.now), env.now, capacity);
    case Consume =>
    case Arrive(datagram, env) =>
      var p1 := Observe(p, env.now);
      match DecodeAcknowledgement(datagram)
      case Err(_) =>
      case Ok(Some(Ack(_))) =>
      case Ok(Some(Nack(ranges))) =>
        RetransmitAllEvolves(p1.tx, Requested(env.order, p1.tx.unacked, ranges), env.now, capacity);
      case Ok(None) =>
        if DecodeDatagram(datagram, p.budgets).Ok? {
          AcceptDatagramEvolves(p1, DecodeDatagram(datagram, p.budgets).value, env);
        }
  }

  // ---- What a receiver makes of it ----

  lemma {:induction false} ChunksConcat(payload: bytes, capacity: nat)
    requires 0 < capacity
    ensures Concat(Chunks(payload, capacity)) == payload
    decreases |payload|
  {
    if payload != [] && |payload| > capacity {
      ChunksConcat(payload[capacity..], capacity);
      ConcatCons(payload[..capacity], Chunks(payload[capacity..], capacity));
      assert payload == payload[..capacity] + payload[capacity..];
    } else if payload != [] {
      ConcatCons(payload, []);
      assert [payload] + [] == [payload] && payload + [] == payload;
    }
  }

  lemma {:induction false} ChunksFit(payload: bytes, capacity: nat)
    requires 0 < capacity
    ensures forall c <- Chunks(payload, capacity) :: |c| <= capacity
    decreases |payload|
  {
    if payload != [] && |payload| > capacity {
      ChunksFit(payload[capacity..], capacity);
    }
  }

  lemma {:induction false} ConcatCons(first: bytes, rest: seq<bytes>)
    ensures Concat([first] + rest) == first + Concat(rest)
    decreases |rest|
  {
    if rest == [] {
      assert [first] + rest == [first];
      assert Concat([first]) == Concat([]) + first;
    } else {
      var init, last := rest[..|rest| - 1], rest[|rest| - 1];
      ConcatCons(first, init);
      assert ([first] + rest)[..|rest|] == [first] + init;
      assert (first + Concat(init)) + last == first + (Concat(init) + last);
    }
  }

  /** Cutting a payload and joining the pieces gives it back; no piece exceeds the capacity. */
  lemma FragmentsConcat(payload: bytes, capacity: nat)
    requires 0 < capacity
    ensures Concat(Fragments(payload, capacity)) == payload
    ensures forall c <- Fragments(payload, capacity) :: |c| <= capacity
  {
    if payload == [] {
      assert Concat([[]]) == Concat([]) + [];
    } else {
      ChunksConcat(payload, capacity);
      ChunksFit(payload, capacity);
    }
  }

  ghost predicate PartsOf(parts: Parts, fragments: seq<bytes>) {
    && 1 < |parts| == |fragments|
    && forall i :: 0 <= i < |parts| && parts[i].Some? ==> parts[i].value == fragments[i]
  }

  /** `parts`, pending under `id`, holds fragments of message k and nothing else. */
  ghost predicate Assembles(parts: Parts, sent: seq<bytes>, capacity: nat, id: u16, k: nat) {
    && 0 < capacity && k < |sent| && k % 0x1_0000 == id && capacity < |sent[k]|
    && PartsOf(parts, Fragments(sent[k], capacity))
  }

  ghost predicate PendingOk(a: Assemblies, sent: seq<bytes>, capacity: nat) {
    forall id <- a.pending :: exists k: nat :: Assembles(a.pending[id], sent, capacity, id, k)
  }

  // ---- What can be delivered ----

  /** No two messages that have to be split go out under the same split id. */
  ghost predicate SplitIdsDistinct(sent: seq<bytes>, capacity: nat) {
    forall j, k :: 0 <= j < k < |sent| && capacity < |sent[j]| && capacity < |sent[k]| ==> j % 0x1_0000 != k % 0x1_0000
  }

  /** No fragment is so long that its tail could be read as another frame. */
  ghost predicate FragmentsFit(sent: seq<bytes>, capacity: nat) {
    capacity <= LONGEST_SAFE_FRAGMENT || forall k :: 0 <= k < |sent| ==> |sent[k]| <= LONGEST_SAFE_FRAGMENT
  }

  ghost predicate Deliverable(sent: seq<bytes>, capacity: nat) {
    |sent| <= MAX_MESSAGES && SplitIdsDistinct(sent, capacity) && FragmentsFit(sent, capacity)
  }

  lemma DeliverablePrefix(sent: seq<bytes>, sent': seq<bytes>, capacity: nat)
    requires Deliverable(sent', capacity) && sent <= sent'
    ensures Deliverable(sent, capacity)
  {
    assert forall k :: 0 <= k < |sent| ==> sent[k] == sent'[k];
  }

  /** Up to 65,536 messages of any size satisfy it under any MTU whose fragments are safe. */
  lemma FewMessagesAreDeliverable(sent: seq<bytes>, capacity: nat)
    requires |sent| <= 0x1_0000 && FragmentsFit(sent, capacity)
    ensures Deliverable(sent, capacity)
  {
  }

  lemma SplitMeansLong(payload: bytes, capacity: nat)
    requires 0 < capacity
    ensures 1 < |Fragments(payload, capacity)| <==> capacity < |payload|
  {
    if capacity < |payload| {
      var rest := payload[capacity..];
      assert rest != [] && 1 <= |Chunks(rest, capacity)|;
      assert Fragments(payload, capacity) == [payload[..capacity]] + Chunks(rest, capacity);
    }
  }

  /** What is held back under index k is message k. */
  ghost predicate HoldbackOk(o: Ordering, sent: seq<bytes>) {
    forall key <- o.holdback :: key.0 == 0 && key.1 < |sent| && o.holdback[key] == sent[key.1]
  }

  /** The deliveries are a prefix of the messages, and the next index expected is the next message. */
  ghost predicate DeliveredOk(o: Ordering, delivered: seq<Delivery>, sent: seq<bytes>) {
    && |delivered| <= |sent|
    && (forall k :: 0 <= k < |delivered| ==> delivered[k] == InOrder(0, Wrap(k), sent[k]))
    && Expected(o, 0) == Wrap(|delivered|)
  }

  ghost predicate ReceiverOk(p: Peer, sent: seq<bytes>, capacity: nat) {
    && PendingOk(p.assemblies, sent, capacity)
    && OrderOk(p.ordering, p.delivered, sent)
  }

  lemma ReceiverSurvives(p: Peer, sent: seq<bytes>, sent': seq<bytes>, capacity: nat)
    requires ReceiverOk(p, sent, capacity) && sent <= sent'
    ensures ReceiverOk(p, sent', capacity)
  {
    forall id | id in p.assemblies.pending
      ensures exists k: nat :: Assembles(p.assemblies.pending[id], sent', capacity, id, k)
    {
      var k: nat :| Assembles(p.assemblies.pending[id], sent, capacity, id, k);
      assert Assembles(p.assemblies.pending[id], sent', capacity, id, k);
    }
  }

  /** Whatever is pending under a split message's id is that message. */
  lemma PendingIsOwn(a: Assemblies, sent: seq<bytes>, capacity: nat, k: nat)
    requires PendingOk(a, sent, capacity) && SplitIdsDistinct(sent, capacity)
    requires k < |sent| && capacity < |sent[k]| && k % 0x1_0000 in a.pending
    ensures Assembles(a.pending[k % 0x1_0000], sent, capacity, k % 0x1_0000, k)
  {
    var id := k % 0x1_0000;
    var j: nat :| Assembles(a.pending[id], sent, capacity, id, j);
  }

  lemma FragmentArrives(a: Assemblies, sent: seq<bytes>, capacity: nat, k: nat, i: nat, b: Budgets)
    requires PendingOk(a, sent, capacity) && SplitIdsDistinct(sent, capacity) && k < |sent| && 0 < capacity
    requires
      var fragments := Fragments(sent[k], capacity);
      1 < |fragments| < 0x1_0000_0000 && i < |fragments|
    ensures
      var fragments := Fragments(sent[k], capacity);
      var r := AcceptFragment(a, SplitHeader(|fragments|, k % 0x1_0000, i), fragments[i], b);
      && PendingOk(r.0, sent, capacity)
      && (r.1.Complete? ==> r.1.payload == sent[k])
  {
    var fragments, id := Fragments(sent[k], capacity), k % 0x1_0000;
    SplitMeansLong(sent[k], capacity);
    var a1 := Open(a, id, |fragments|);
    if id in a.pending {
      PendingIsOwn(a, sent, capacity, k);
    } else {
      assert Assembles(a1.pending[id], sent, capacity, id, k);
      PendingUpdated(a, a1, sent, capacity, id, a1.pending[id], k);
    }
    StoreGivesMessage(a1, sent, capacity, k, i, b);
  }

  lemma PendingUpdated(a: Assemblies, a': Assemblies, sent: seq<bytes>, capacity: nat, id: u16, parts: Parts, k: nat)
    requires PendingOk(a, sent, capacity) && Assembles(parts, sent, capacity, id, k)
    requires a'.pending == a.pending[id := parts]
    ensures PendingOk(a', sent, capacity)
  {
    forall other | other in a'.pending ensures exists k: nat :: Assembles(a'.pending[other], sent, capacity, other, k) {
      if other != id {
        var j: nat :| Assembles(a.pending[other], sent, capacity, other, j);
        assert Assembles(a'.pending[other], sent, capacity, other, j);
      }
    }
  }

  lemma StoreGivesMessage(a: Assemblies, sent: seq<bytes>, capacity: nat, k: nat, i: nat, b: Budgets)
    requires PendingOk(a, sent, capacity) && k % 0x1_0000 in a.pending
    requires Assembles(a.pending[k % 0x1_0000], sent, capacity, k % 0x1_0000, k) && i < |a.pending[k % 0x1_0000]|
    ensures
      var r := Store(a, k % 0x1_0000, i, Fragments(sent[k], capacity)[i], b);
      && PendingOk(r.0, sent, capacity)
      && (r.1.Complete? ==> r.1.payload == sent[k])
  {
    var id := k % 0x1_0000;
    var fragments, parts := Fragments(sent[k], capacity), a.pending[id];
    if parts[i].Some? {
      FinishGivesMessage(a, sent, capacity, k);
    } else {
      var updated := parts[i := Some(fragments[i])];
      assert Assembles(updated, sent, capacity, id, k);
      var a1 := a.(bytes := SaturatingAdd(a.bytes, |fragments[i]|), pending := a.pending[id := updated]);
      PendingUpdated(a, a1, sent, capacity, id, updated, k);
      FinishGivesMessage(a1, sent, capacity, k);
    }
  }

  lemma FinishGivesMessage(a: Assemblies, sent: seq<bytes>, capacity: nat, k: nat)
    requires PendingOk(a, sent, capacity) && k % 0x1_0000 in a.pending
    requires Assembles(a.pending[k % 0x1_0000], sent, capacity, k % 0x1_0000, k)
    ensures PendingOk(Finish(a, k % 0x1_0000).0, sent, capacity)
    ensures Finish(a, k % 0x1_0000).1.Complete? ==> Finish(a, k % 0x1_0000).1.payload == sent[k]
  {
    var parts, fragments := a.pending[k % 0x1_0000], Fragments(sent[k], capacity);
    if AllPresent(parts) {
      forall i | 0 <= i < |parts| ensures parts[i] == Some(fragments[i]) { assert parts[i] in parts; }
      JoinOfAll(parts, fragments);
      FragmentsConcat(sent[k], capacity);
    }
  }

  ghost predicate OrderOk(o: Ordering, delivered: seq<Delivery>, sent: seq<bytes>) {
    HoldbackOk(o, sent) && DeliveredOk(o, delivered, sent)
  }

  /** Delivering the expected message keeps the prefix. */
  lemma NextMessage(o: Ordering, delivered: seq<Delivery>, sent: seq<bytes>, k: nat)
    requires OrderOk(o, delivered, sent) && k < |sent| <= MAX_MESSAGES && Wrap(k) == Expected(o, 0)
    ensures
      OrderOk(Ordering(o.expected[0 := Next(Wrap(k))], o.holdback - {(0, Wrap(k))}),
              delivered + [InOrder(0, Wrap(k), sent[k])], sent)
  {
    assert k == |delivered|;
    WrapStep(k);
  }

  /** Delivering a held message that is due keeps the prefix. */
  lemma DueMessage(p: Peer, q: Peer, sent: seq<bytes>, index: u24)
    requires OrderOk(p.ordering, p.delivered, sent) && |sent| <= MAX_MESSAGES
    requires index == Expected(p.ordering, 0) && (0, index) in p.ordering.holdback
    requires q.ordering == Ordering(p.ordering.expected[0 := Next(index)], p.ordering.holdback - {(0, index)})
    requires q.delivered == p.delivered + [InOrder(0, index, p.ordering.holdback[(0, index)])]
    ensures OrderOk(q.ordering, q.delivered, sent)
  {
    NextMessage(p.ordering, p.delivered, sent, index);
  }

  lemma {:induction false} DrainDelivers(p: Peer, sent: seq<bytes>, env: Env)
    requires OrderOk(p.ordering, p.delivered, sent) && |sent| <= MAX_MESSAGES
    ensures
      var r := Drain(p, 0, env).peer;
      OrderOk(r.ordering, r.delivered, sent)
    decreases |p.ordering.holdback|
  {
    var index := Expected(p.ordering, 0);
    if (0, index) in p.ordering.holdback {
      RemoveShrinks(p.ordering.holdback, (0, index));
      var payload := p.ordering.holdback[(0, index)];
      var p1 := p.(ordering := p.ordering.(holdback := p.ordering.holdback - {(0, index)}));
      var r := DeliverInOrder(p1, 0, index, payload, env);
      DueMessage(p, r.peer, sent, index);
      if r.error.None? {
        DrainDelivers(r.peer, sent, env);
      }
    }
  }

  lemma MessageArrives(p: Peer, sent: seq<bytes>, k: nat, env: Env)
    requires OrderOk(p.ordering, p.delivered, sent) && k < |sent| <= MAX_MESSAGES
    ensures
      var r := AcceptOrdered(p, 0, Wrap(k), sent[k], env).peer;
      OrderOk(r.ordering, r.delivered, sent)
  {
    var expected := Expected(p.ordering, 0);
    var o := p.ordering.(expected := p.ordering.expected[0 := expected]);
    assert OrderOk(o, p.delivered, sent);
    if Wrap(k) == expected {
      ExpectedMessageArrives(p.(ordering := o), sent, k, env);
    } else {
      HoldMessage(o, p.delivered, sent, k);
    }
  }

  lemma HoldMessage(o: Ordering, delivered: seq<Delivery>, sent: seq<bytes>, k: nat)
    requires OrderOk(o, delivered, sent) && k < |sent| <= MAX_MESSAGES
    ensures OrderOk(o.(holdback := o.holdback[(0, Wrap(k)) := sent[k]]), delivered, sent)
  {
  }

  lemma ExpectedMessageArrives(p: Peer, sent: seq<bytes>, k: nat, env: Env)
    requires OrderOk(p.ordering, p.delivered, sent) && k < |sent| <= MAX_MESSAGES
    requires Wrap(k) == Expected(p.ordering, 0)
    ensures
      var r := DeliverInOrder(p, 0, Wrap(k), sent[k], env);
      && OrderOk(r.peer.ordering, r.peer.delivered, sent)
      && OrderOk(Drain(r.peer, 0, env).peer.ordering, Drain(r.peer, 0, env).peer.delivered, sent)
  {
    var r := DeliverInOrder(p, 0, Wrap(k), sent[k], env);
    NextMessage(p.ordering, p.delivered, sent, k);
    assert OrderOk(r.peer.ordering, r.peer.delivered, sent) by {
      NotHeld(p.ordering, p.delivered, sent, k);
    }
    DrainDelivers(r.peer, sent, env);
  }

  /** Moving on without taking anything out of the holdback is fine too. */
  lemma NotHeld(o: Ordering, delivered: seq<Delivery>, sent: seq<bytes>, k: nat)
    requires OrderOk(o, delivered, sent) && k < |sent| <= MAX_MESSAGES && Wrap(k) == Expected(o, 0)
    ensures OrderOk(o.(expected := o.expected[0 := Next(Wrap(k))]), delivered + [InOrder(0, Wrap(k), sent[k])], sent)
  {
    NextMessage(o, delivered, sent, k);
  }

  lemma FragmentFrameArrives(p: Peer, sent: seq<bytes>, capacity: nat, k: nat, i: nat, env: Env)
    requires ReceiverOk(p, sent, capacity) && Deliverable(sent, capacity) && HasFragment(sent, capacity, k, i)
    ensures ReceiverOk(ReceiveFrame(p, FrameOf(sent, capacity, k, i), env).peer, sent, capacity)
  {
    var f := FrameOf(sent, capacity, k, i);
    var fragments := Fragments(sent[k], capacity);
    var p1 := p.(reliable := Admit(p.reliable, f.reliableIndex.value, WindowLimit(p.budgets)));
    if |fragments| == 1 {
      FragmentsConcat(sent[k], capacity);
      assert fragments == [fragments[0]];
      assert Concat(fragments) == Concat([]) + fragments[0];
      WholeMessageArrives(p1, f, sent, capacity, k, env);
    } else {
      SplitMessageArrives(p1, sent, capacity, k, i, env);
    }
  }

  lemma WholeMessageArrives(p: Peer, f: Frame, sent: seq<bytes>, capacity: nat, k: nat, env: Env)
    requires ReceiverOk(p, sent, capacity) && k < |sent| <= MAX_MESSAGES
    requires f.reliability.ReliableOrdered? && f.orderIndex == Some(Wrap(k)) && f.orderChannel == 0 &&
            f.payload == sent[k]
    ensures ReceiverOk(Dispatch(p, f, env).peer, sent, capacity)
  {
    MessageArrives(p, sent, k, env);
  }

  lemma SplitMessageArrives(p: Peer, sent: seq<bytes>, capacity: nat, k: nat, i: nat, env: Env)
    requires ReceiverOk(p, sent, capacity) && Deliverable(sent, capacity)
    requires HasFragment(sent, capacity, k, i) && 1 < |Fragments(sent[k], capacity)|
    ensures ReceiverOk(Reassemble(p, FrameOf(sent, capacity, k, i), env).peer, sent, capacity)
  {
    var f, fragments := FrameOf(sent, capacity, k, i), Fragments(sent[k], capacity);
    assert f.split == Some(SplitHeader(|fragments|, k % 0x1_0000, i)) && f.payload == fragments[i];
    FragmentArrives(p.assemblies, sent, capacity, k, i, p.budgets);
    AssembledArrives(p, f, sent, capacity, k, env);
  }

  lemma AssembledArrives(p: Peer, f: Frame, sent: seq<bytes>, capacity: nat, k: nat, env: Env)
    requires ReceiverOk(p, sent, capacity) && k < |sent| <= MAX_MESSAGES && f.split.Some?
    requires f.reliability.ReliableOrdered? && f.orderIndex == Some(Wrap(k)) && f.orderChannel == 0
    requires
      var r := AcceptFragment(p.assemblies, f.split.value, f.payload, p.budgets);
      PendingOk(r.0, sent, capacity) && (r.1.Complete? ==> r.1.payload == sent[k])
    ensures ReceiverOk(Reassemble(p, f, env).peer, sent, capacity)
  {
    var (assemblies, result) := AcceptFragment(p.assemblies, f.split.value, f.payload, p.budgets);
    var p1 := p.(assemblies := assemblies);
    assert ReceiverOk(p1, sent, capacity);
    if result.Complete? {
      WholeMessageArrives(p1, f.(split := None, payload := result.payload), sent, capacity, k, env);
    }
  }

  lemma FragmentFitsFrame(sent: seq<bytes>, capacity: nat, k: nat, i: nat)
    requires HasFragment(sent, capacity, k, i) && FragmentsFit(sent, capacity)
    ensures
      var f := FrameOf(sent, capacity, k, i);
      IndexesMatch(f) && |f.payload| <= LONGEST_SAFE_FRAGMENT
  {
    var f := FrameOf(sent, capacity, k, i);
    FragmentsConcat(sent[k], capacity);
    FragmentsShorten(sent[k], capacity);
    assert f.payload in Fragments(sent[k], capacity);
  }

  lemma FragmentsShorten(payload: bytes, capacity: nat)
    requires 0 < capacity
    ensures forall c <- Fragments(payload, capacity) :: |c| <= |payload|
  {
    if payload != [] {
      ChunksShorten(payload, capacity);
    }
  }

  lemma {:induction false} ChunksShorten(payload: bytes, capacity: nat)
    requires 0 < capacity
    ensures forall c <- Chunks(payload, capacity) :: |c| <= |payload|
    decreases |payload|
  {
    if |payload| > capacity {
      ChunksShorten(payload[capacity..], capacity);
    }
  }

  lemma SingleFrame(p: Peer, f: Frame, env: Env)
    ensures ReceiveFrames(p, [f], env) == ReceiveFrame(p, f, env)
  {
    assert [f][1..] == [];
    var r := ReceiveFrame(p, f, env);
    assert ReceiveFrames(r.peer, [], env) == Outcome(r.peer, None);
  }

  lemma OneFrameArrives(p: Peer, sent: seq<bytes>, capacity: nat, k: nat, i: nat, env: Env)
    requires ReceiverOk(p, sent, capacity) && Deliverable(sent, capacity) && HasFragment(sent, capacity, k, i)
    ensures
      var d := Datagram(Wrap(Place(sent, capacity, k, i)), [FrameOf(sent, capacity, k, i)]);
      ReceiverOk(AcceptDatagram(p, d, env).peer, sent, capacity)
  {
    var p1 := Register(p, Wrap(Place(sent, capacity, k, i)));
    assert ReceiverOk(p1, sent, capacity);
    FragmentFrameArrives(p1, sent, capacity, k, i, env);
    SingleFrame(p1, FrameOf(sent, capacity, k, i), env);
  }

  lemma DataArrives(p: Peer, d: bytes, sent: seq<bytes>, capacity: nat, env: Env)
    requires ReceiverOk(p, sent, capacity) && Deliverable(sent, capacity)
    requires IsData(d, sent, capacity)
    ensures ReceiverOk(ReceiveDatagram(p, d, env).peer, sent, capacity)
  {
    var k: nat, i: nat :| HasFragment(sent, capacity, k, i) && d == DatagramOf(sent, capacity, k, i);
    var sequence, f := Wrap(Place(sent, capacity, k, i)), FrameOf(sent, capacity, k, i);
    FormatsAreDisjoint(sequence, f, 0xA0, 0, 0, p.budgets);
    FragmentFitsFrame(sent, capacity, k, i);
    DatagramDecodesOrIsRefused(sequence, f, p.budgets);
    OneFrameArrives(Observe(p, env.now), sent, capacity, k, i, env);
  }

  lemma AcknowledgementArrives(p: Peer, d: bytes, env: Env)
    requires IsAcknowledgement(d)
    ensures
      var r := ReceiveDatagram(p, d, env).peer;
      && r.assemblies == p.assemblies && r.ordering == p.ordering && r.delivered == p.delivered
      && r.datagrams == p.datagrams && r.reliable == p.reliable
  {
    var id: byte, start: u24, end: u24 :| (id == 0xA0 || id == 0xC0) && d == EncodeAckRange(id, start, end);
    AckRangeRoundTrip(id, start, end);
  }

  /** A genuine event keeps the deliveries a prefix of the remote peer's messages. */
  lemma StepDelivers(p: Peer, e: Event, remote: Transmit, capacity: nat)
    requires ReceiverOk(p, remote.sent, capacity) && SenderOk(remote, capacity) && Deliverable(remote.sent, capacity)
    requires e.Arrive? ==> e.datagram in remote.output
    ensures ReceiverOk(Step(p, e).peer, remote.sent, capacity)
  {
    if e.Arrive? {
      if IsAcknowledgement(e.datagram) {
        AcknowledgementArrives(p, e.datagram, e.env);
      } else {
        DataArrives(p, e.datagram, remote.sent, capacity, e.env);
      }
    }
  }

  // ---- Two peers ----

  datatype Endpoint = Endpoint(peer: Peer, stopped: bool)

  datatype Link = Link(left: Endpoint, right: Endpoint)

  datatype Happening = AtLeft(event: Event) | AtRight(event: Event)

  /** A stopped peer does nothing more, and a datagram that was never written cannot arrive. */
  function Advance(self: Endpoint, e: Event, remote: Endpoint): Endpoint {
    if self.stopped || (e.Arrive? && e.datagram !in remote.peer.tx.output) then self
    else var r := Step(self.peer, e); Endpoint(r.peer, r.error.Some?)
  }

  function Happen(l: Link, h: Happening): Link {
    match h
    case AtLeft(e) => l.(left := Advance(l.left, e, l.right))
    case AtRight(e) => l.(right := Advance(l.right, e, l.left))
  }

  function RunLink(l: Link, happenings: seq<Happening>): Link
    decreases |happenings|
  {
    if happenings == [] then l
    else Happen(RunLink(l, happenings[..|happenings| - 1]), happenings[|happenings| - 1])
  }

  /** A peer before its first event, with or without the online handshake behind it. */
  function Fresh(remoteAddr: bytes, mtu: u16, b: Budgets, now: Instant, accepted: bool): Endpoint {
    Endpoint(NewPeer(remoteAddr, mtu, b, now).(accepted := accepted), false)
  }

  ghost predicate EndpointOk(e: Endpoint) {
    var capacity := FragmentCapacity(e.peer.mtu);
    SenderOk(e.peer.tx, capacity) && (!e.stopped ==> Numbered(e.peer.tx, capacity))
  }

  /** One direction of the link. */
  ghost predicate DirectionOk(sender: Endpoint, receiver: Endpoint) {
    var capacity := FragmentCapacity(sender.peer.mtu);
    && EndpointOk(sender)
    && (Deliverable(sender.peer.tx.sent, capacity) ==> ReceiverOk(receiver.peer, sender.peer.tx.sent, capacity))
  }

  lemma MtuIsFixed(p: Peer, e: Event)
    ensures Step(p, e).peer.mtu == p.mtu
  {
    if e.Arrive? {
      var p1 := Observe(p, e.env.now);
      if DecodeDatagram(e.datagram, p.budgets).Ok? {
        var d := DecodeDatagram(e.datagram, p.budgets).value;
        FramesFixMtu(Register(p1, d.sequence), d.frames, e.env);
      }
    }
  }

  lemma {:induction false} FramesFixMtu(p: Peer, frames: seq<Frame>, env: Env)
    ensures ReceiveFrames(p, frames, env).peer.mtu == p.mtu
    decreases |frames|
  {
    if frames != [] && ReceiveFrame(p, frames[0], env).error.None? {
      FramesFixMtu(ReceiveFrame(p, frames[0], env).peer, frames[1..], env);
    }
  }

  lemma AdvanceKeepsBoth(self: Endpoint, e: Event, remote: Endpoint)
    requires DirectionOk(self, remote) && DirectionOk(remote, self)
    ensures
      var self' := Advance(self, e, remote);
      DirectionOk(self', remote) && DirectionOk(remote, self')
  {
    var self' := Advance(self, e, remote);
    if self' != self {
      MtuIsFixed(self.peer, e);
      StepEvolves(self.peer, e);
      var sent, sent' := self.peer.tx.sent, self'.peer.tx.sent;
      var capacity := FragmentCapacity(self.peer.mtu);
      if Deliverable(sent', capacity) {
        DeliverablePrefix(sent, sent', capacity);
        ReceiverSurvives(remote.peer, sent, sent', capacity);
      }
      var remoteCapacity := FragmentCapacity(remote.peer.mtu);
      if Deliverable(remote.peer.tx.sent, remoteCapacity) {
        StepDelivers(self.peer, e, remote.peer.tx, remoteCapacity);
      }
    }
  }

  lemma {:induction false} LinkKeeps(l: Link, happenings: seq<Happening>)
    requires DirectionOk(l.left, l.right) && DirectionOk(l.right, l.left)
    ensures
      var r := RunLink(l, happenings);
      DirectionOk(r.left, r.right) && DirectionOk(r.right, r.left)
    decreases |happenings|
  {
    if happenings != [] {
      LinkKeeps(l, happenings[..|happenings| - 1]);
      var before := RunLink(l, happenings[..|happenings| - 1]);
      match happenings[|happenings| - 1]
      case AtLeft(e) => AdvanceKeepsBoth(before.left, e, before.right);
      case AtRight(e) => AdvanceKeepsBoth(before.right, e, before.left);
    }
  }

  function Payloads(delivered: seq<Delivery>): (r: seq<bytes>)
    ensures |r| == |delivered| && forall k :: 0 <= k < |r| ==> r[k] == delivered[k].payload
  {
    seq(|delivered|, k requires 0 <= k < |delivered| => delivered[k].payload)
  }

  datatype Party = Party(remoteAddr: bytes, mtu: u16, budgets: Budgets, start: Instant, accepted: bool)

  function Begin(p: Party): Endpoint { Fresh(p.remoteAddr, p.mtu, p.budgets, p.start, p.accepted) }

  /**
   * The end-to-end theorem, in both directions at once. Whatever is submitted on either side,
   * whatever is lost, duplicated, reordered, acknowledged, requested again or timed out, the
   * payloads one side delivers are a prefix of the payloads the other side accepted for sending,
   * as long as those are fewer than 2^24, no two split ones share a split id and every fragment
   * fits a frame.
   */
  lemma EndToEndOrderedDelivery(left: Party, right: Party, happenings: seq<Happening>)
    ensures
      var r := RunLink(Link(Begin(left), Begin(right)), happenings);
      && (Deliverable(r.left.peer.tx.sent, FragmentCapacity(left.mtu)) ==>
            Payloads(r.right.peer.delivered) <= r.left.peer.tx.sent)
      && (Deliverable(r.right.peer.tx.sent, FragmentCapacity(right.mtu)) ==>
            Payloads(r.left.peer.delivered) <= r.right.peer.tx.sent)
  {
    LinkKeeps(Link(Begin(left), Begin(right)), happenings);
    LinkFixesMtu(Link(Begin(left), Begin(right)), happenings);
  }

  lemma {:induction false} LinkFixesMtu(l: Link, happenings: seq<Happening>)
    ensures RunLink(l, happenings).left.peer.mtu == l.left.peer.mtu
    ensures RunLink(l, happenings).right.peer.mtu == l.right.peer.mtu
    decreases |happenings|
  {
    if happenings != [] {
      LinkFixesMtu(l, happenings[..|happenings| - 1]);
      var before, last := RunLink(l, happenings[..|happenings| - 1]), happenings[|happenings| - 1];
      MtuIsFixed(before.left.peer, last.event);
      MtuIsFixed(before.right.peer, last.event);
    }
  }
}
