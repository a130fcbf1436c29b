/**
 * A peer rebuilt from its checkpoint behaves like the original for every later run: the two differ
 * only in their clocks, and only a timer or another checkpoint could tell them apart.
 */
module Transfer {
  import opened Wrappers
  import opened Bytes
  import opened Sequence
  import opened Budget
  import opened Wire
  import opened Peer
  import opened PeerInvariant
  import opened Snapshot
  import X = Execution

  /**
   * How two clocks compare. When `timed`, from `origin` on an instant of the first is `shift` later
   * on the second; otherwise nothing is known, and no timer may fire and no checkpoint be taken.
   */
  datatype Clocks = Clocks(shift: int, origin: Instant, timed: bool)

  /** The same moment on both clocks. */
  ghost predicate SameMoment(now: Instant, now': Instant, c: Clocks) {
    c.timed ==> now' == now + c.shift && c.origin <= now
  }

  /** Equal ages on both clocks, or already past the limit on both. */
  ghost predicate SameTimer(a: Instant, b: Instant, limit: nat, c: Clocks) {
    || !c.timed
    || b == a + c.shift
    || (a + limit <= c.origin && b + limit <= c.origin + c.shift)
  }

  ghost predicate UnackedAgree(d: Unacked, d': Unacked, c: Clocks) {
    && d' == d.(sentAt := d'.sentAt)
    && SameTimer(d.sentAt, d'.sentAt, RetransmitDelay(d.attempts), c)
  }

  ghost predicate AllUnackedAgree(m: map<u24, Unacked>, m': map<u24, Unacked>, c: Clocks) {
    m'.Keys == m.Keys && forall s <- m :: UnackedAgree(m[s], m'[s], c)
  }

  ghost predicate TxAgree(tx: Transmit, tx': Transmit, c: Clocks) {
    tx' == tx.(unacked := tx'.unacked) && AllUnackedAgree(tx.unacked, tx'.unacked, c)
  }

  ghost predicate PeersAgree(p: Peer, q: Peer, c: Clocks) {
    && q == p.(lastObserved := q.lastObserved, tx := q.tx)
    && TxAgree(p.tx, q.tx, c)
    && SameTimer(p.lastObserved, q.lastObserved, PEER_TIMEOUT, c)
  }

  ghost predicate TxOutcomesAgree(r: TxOutcome, r': TxOutcome, c: Clocks) {
    r.error == r'.error && TxAgree(r.tx, r'.tx, c)
  }

  ghost predicate Agree(r: Outcome, r': Outcome, c: Clocks) {
    r.error == r'.error && PeersAgree(r.peer, r'.peer, c)
  }

  /** The same environment on the second clock. */
  ghost predicate EnvAgree(env: Env, env': Env, c: Clocks) {
    env' == env.(now := env'.now) && SameMoment(env.now, env'.now, c)
  }

  ghost predicate EventAgree(e: Event, e': Event, c: Clocks) {
    match e
    case Arrive(datagram, env) => e'.Arrive? && e'.datagram == datagram && EnvAgree(env, e'.env, c)
    case Submit(payload, env) => e'.Submit? && e'.payload == payload && EnvAgree(env, e'.env, c)
    case Tick(env) => c.timed && e'.Tick? && EnvAgree(env, e'.env, c)
    case Consume => e'.Consume?
  }

  // ---- Sending ----

  lemma InsertAgrees(m: map<u24, Unacked>, m': map<u24, Unacked>, s: u24, d: Unacked, d': Unacked, c: Clocks)
    requires AllUnackedAgree(m, m', c) && UnackedAgree(d, d', c)
    ensures AllUnackedAgree(m[s := d], m'[s := d'], c)
  {
  }

  lemma SendFrameAgrees(tx: Transmit, tx': Transmit, f: Frame, b: Budgets, now: Instant, now': Instant, c: Clocks)
    requires TxAgree(tx, tx', c) && SameMoment(now, now', c)
    ensures TxOutcomesAgree(SendFrame(tx, f, b, now), SendFrame(tx', f, b, now'), c)
  {
    assert |tx.unacked| == |tx.unacked.Keys| == |tx'.unacked|;
    var d := EncodeDatagram(tx.nextDatagram, f);
    InsertAgrees(tx.unacked, tx'.unacked, tx.nextDatagram, Unacked(d, now, 1), Unacked(d, now', 1), c);
  }

  lemma {:induction false} SendFragmentsAgrees(tx: Transmit, tx': Transmit, fragments: seq<bytes>, i: nat, order: u24,
                                               splitId: u16, b: Budgets, now: Instant, now': Instant, c: Clocks)
    requires TxAgree(tx, tx', c) && SameMoment(now, now', c) && i <= |fragments| < 0x1_0000_0000
    ensures TxOutcomesAgree(SendFragments(tx, fragments, i, order, splitId, b, now),
                            SendFragments(tx', fragments, i, order, splitId, b, now'), c)
    decreases |fragments| - i
  {
    if i < |fragments| {
      var f := FragmentFrame(fragments, i, tx.nextReliable, order, splitId);
      var tx1, tx1' := tx.(nextReliable := Next(tx.nextReliable)), tx'.(nextReliable := Next(tx'.nextReliable));
      SendFrameAgrees(tx1, tx1', f, b, now, now', c);
      var r, r' := SendFrame(tx1, f, b, now), SendFrame(tx1', f, b, now');
      if r.error.None? {
        SendFragmentsAgrees(r.tx, r'.tx, fragments, i + 1, order, splitId, b, now, now', c);
      }
    }
  }

  lemma SendReliableOrderedAgrees(tx: Transmit, tx': Transmit, payload: bytes, mtu: u16, b: Budgets,
                                  now: Instant, now': Instant, c: Clocks)
    requires TxAgree(tx, tx', c) && SameMoment(now, now', c)
    ensures TxOutcomesAgree(SendReliableOrdered(tx, payload, mtu, b, now),
                            SendReliableOrdered(tx', payload, mtu, b, now'), c)
  {
    var capacity := FragmentCapacity(mtu);
    if capacity != 0 && |Fragments(payload, capacity)| < 0x1_0000_0000 {
      var tx1 := tx.(nextOrdered := Next(tx.nextOrdered), sent := tx.sent + [payload],
                     nextSplitId := (tx.nextSplitId + 1) % 0x1_0000);
      var tx1' := tx'.(nextOrdered := Next(tx.nextOrdered), sent := tx.sent + [payload],
                       nextSplitId := (tx.nextSplitId + 1) % 0x1_0000);
      SendFragmentsAgrees(tx1, tx1', Fragments(payload, capacity), 0, tx.nextOrdered, tx.nextSplitId, b, now, now', c);
    }
  }

  lemma SendAgrees(p: Peer, q: Peer, payload: bytes, env: Env, env': Env, c: Clocks)
    requires PeersAgree(p, q, c) && EnvAgree(env, env', c)
    ensures Agree(Send(p, payload, env), Send(q, payload, env'), c)
  {
    SendReliableOrderedAgrees(p.tx, q.tx, payload, p.mtu, p.budgets, env.now, env'.now, c);
  }

  // ---- Timers ----

  lemma DueAgrees(d: Unacked, d': Unacked, env: Env, env': Env, c: Clocks)
    requires UnackedAgree(d, d', c) && EnvAgree(env, env', c) && c.timed
    ensures IsDue(d, env.now) <==> IsDue(d', env'.now)
  {
  }

  lemma {:induction false} AllDueAgree(order: seq<u24>, m: map<u24, Unacked>, m': map<u24, Unacked>,
                                       env: Env, env': Env, c: Clocks)
    requires AllUnackedAgree(m, m', c) && EnvAgree(env, env', c) && c.timed
    ensures Due(order, m, env.now) == Due(order, m', env'.now)
  {
    if order != [] {
      if order[0] in m {
        DueAgrees(m[order[0]], m'[order[0]], env, env', c);
      }
      AllDueAgree(order[1..], m, m', env, env', c);
    }
  }

  lemma {:induction false} RequestedAgrees(order: seq<u24>, m: map<u24, Unacked>, m': map<u24, Unacked>,
      ranges: seq<(u24, u24)>)
    requires m.Keys == m'.Keys
    ensures Requested(order, m, ranges) == Requested(order, m', ranges)
  {
    if order != [] {
      RequestedAgrees(order[1..], m, m', ranges);
      assert order[0] in m <==> order[0] in m'.Keys;
    }
  }

  lemma RetransmitAgrees(tx: Transmit, tx': Transmit, s: u24, now: Instant, now': Instant, c: Clocks)
    requires TxAgree(tx, tx', c) && SameMoment(now, now', c)
    ensures TxOutcomesAgree(Retransmit(tx, s, now), Retransmit(tx', s, now'), c)
  {
    assert s in tx.unacked <==> s in tx'.unacked.Keys;
    if s in tx.unacked && tx.unacked[s].attempts < MAX_RETRANSMIT_ATTEMPTS {
      var d, d' := tx.unacked[s], tx'.unacked[s];
      assert UnackedAgree(d, d', c);
      InsertAgrees(tx.unacked, tx'.unacked, s, d.(sentAt := now, attempts := d.attempts + 1),
                   d'.(sentAt := now', attempts := d.attempts + 1), c);
    }
  }

  lemma {:induction false} RetransmitAllAgrees(tx: Transmit, tx': Transmit, sequences: seq<u24>,
                                               now: Instant, now': Instant, c: Clocks)
    requires TxAgree(tx, tx', c) && SameMoment(now, now', c)
    ensures TxOutcomesAgree(RetransmitAll(tx, sequences, now), RetransmitAll(tx', sequences, now'), c)
    decreases |sequences|
  {
    if sequences != [] {
      RetransmitAgrees(tx, tx', sequences[0], now, now', c);
      var r, r' := Retransmit(tx, sequences[0], now), Retransmit(tx', sequences[0], now');
      if r.error.None? {
        RetransmitAllAgrees(r.tx, r'.tx, sequences[1..], now, now', c);
      }
    }
  }

  lemma AcknowledgeAgrees(m: map<u24, Unacked>, m': map<u24, Unacked>, ranges: seq<(u24, u24)>, c: Clocks)
    requires AllUnackedAgree(m, m', c)
    ensures AllUnackedAgree(Acknowledge(m, ranges), Acknowledge(m', ranges), c)
  {
    forall s: u24 ensures s in Acknowledge(m, ranges) <==> s in Acknowledge(m', ranges) {
      assert s in m <==> s in m'.Keys;
    }
    assert Acknowledge(m, ranges).Keys == Acknowledge(m', ranges).Keys;
  }

  lemma OnTimerAgrees(p: Peer, q: Peer, env: Env, env': Env, c: Clocks)
    requires PeersAgree(p, q, c) && EnvAgree(env, env', c) && c.timed
    ensures Agree(OnTimer(p, env), OnTimer(q, env'), c)
  {
    AllDueAgree(env.order, p.tx.unacked, q.tx.unacked, env, env', c);
    RetransmitAllAgrees(p.tx, q.tx, Due(env.order, p.tx.unacked, env.now), env.now, env'.now, c);
  }

  lemma ApplyAcknowledgementAgrees(p: Peer, q: Peer, a: Acknowledgement, env: Env, env': Env, c: Clocks)
    requires PeersAgree(p, q, c) && EnvAgree(env, env', c)
    ensures Agree(ApplyAcknowledgement(p, a, env), ApplyAcknowledgement(q, a, env'), c)
  {
    match a
    case Ack(ranges) => AcknowledgeAgrees(p.tx.unacked, q.tx.unacked, ranges, c);
    case Nack(ranges) =>
      RequestedAgrees(env.order, p.tx.unacked, q.tx.unacked, ranges);
      RetransmitAllAgrees(p.tx, q.tx, Requested(env.order, p.tx.unacked, ranges), env.now, env'.now, c);
  }

  // ---- Receiving ----

  lemma DeliverPayloadAgrees(p: Peer, q: Peer, payload: bytes, env: Env, env': Env, c: Clocks)
    requires PeersAgree(p, q, c) && EnvAgree(env, env', c)
    ensures Agree(DeliverPayload(p, payload, env), DeliverPayload(q, payload, env'), c)
  {
    var id := if payload == [] then None else Some(payload[0]);
    if id == Some(0x09) && |payload| >= 18 {
      SendAgrees(p, q, ConnectionAccept(p.remoteAddr, payload[9..17], env.epochMillis), env, env', c);
    } else if id == Some(0x00) && |payload| >= 9 {
      SendAgrees(p, q, ConnectedPong(payload[1..9], env.epochMillis), env, env', c);
    }
  }

  lemma DeliverAgrees(p: Peer, q: Peer, d: Delivery, env: Env, env': Env, c: Clocks)
    requires PeersAgree(p, q, c) && EnvAgree(env, env', c)
    ensures Agree(Deliver(p, d, env), Deliver(q, d, env'), c)
  {
    DeliverPayloadAgrees(p.(delivered := p.delivered + [d]), q.(delivered := q.delivered + [d]), d.payload, env,
        env', c);
  }

  lemma DeliverInOrderAgrees(p: Peer, q: Peer, channel: byte, index: u24, payload: bytes, env: Env, env': Env,
      c: Clocks)
    requires PeersAgree(p, q, c) && EnvAgree(env, env', c)
    ensures Agree(DeliverInOrder(p, channel, index, payload, env), DeliverInOrder(q, channel, index, payload, env'), c)
  {
    var o := p.ordering.(expected := p.ordering.expected[channel := Next(index)]);
    DeliverAgrees(p.(ordering := o), q.(ordering := o), InOrder(channel, index, payload), env, env', c);
  }

  lemma {:induction false} DrainAgrees(p: Peer, q: Peer, channel: byte, env: Env, env': Env, c: Clocks)
    requires PeersAgree(p, q, c) && EnvAgree(env, env', c)
    ensures Agree(Drain(p, channel, env), Drain(q, channel, env'), c)
    decreases |p.ordering.holdback|
  {
    var key := (channel, Expected(p.ordering, channel));
    if key in p.ordering.holdback {
      RemoveShrinks(p.ordering.holdback, key);
      var payload := p.ordering.holdback[key];
      var o := p.ordering.(holdback := p.ordering.holdback - {key});
      DeliverInOrderAgrees(p.(ordering := o), q.(ordering := o), channel, key.1, payload, env, env', c);
      var r := DeliverInOrder(p.(ordering := o), channel, key.1, payload, env);
      var r' := DeliverInOrder(q.(ordering := o), channel, key.1, payload, env');
      if r.error.None? {
        DrainAgrees(r.peer, r'.peer, channel, env, env', c);
      }
    }
  }

  lemma AcceptOrderedAgrees(p: Peer, q: Peer, channel: byte, index: u24, payload: bytes, env: Env, env': Env, c: Clocks)
    requires PeersAgree(p, q, c) && EnvAgree(env, env', c)
    ensures Agree(AcceptOrdered(p, channel, index, payload, env), AcceptOrdered(q, channel, index, payload, env'), c)
  {
    var expected := Expected(p.ordering, channel);
    var o := p.ordering.(expected := p.ordering.expected[channel := expected]);
    var p1, q1 := p.(ordering := o), q.(ordering := o);
    if index == expected {
      DeliverInOrderAgrees(p1, q1, channel, index, payload, env, env', c);
      var r, r' := DeliverInOrder(p1, channel, index, payload, env), DeliverInOrder(q1, channel, index, payload, env');
      if r.error.None? {
        DrainAgrees(r.peer, r'.peer, channel, env, env', c);
      }
    }
  }

  lemma DispatchAgrees(p: Peer, q: Peer, f: Frame, env: Env, env': Env, c: Clocks)
    requires PeersAgree(p, q, c) && EnvAgree(env, env', c)
    ensures Agree(Dispatch(p, f, env), Dispatch(q, f, env'), c)
  {
    if f.reliability.IsSequenced() {
      if f.sequenceIndex.Some? {
        var latest := p.sequencedLatest[f.orderChannel := f.sequenceIndex.value];
        DeliverAgrees(p.(sequencedLatest := latest), q.(sequencedLatest := latest), Immediate(f.payload), env, env', c);
      }
    } else if f.reliability.IsOrdered() {
      if f.orderIndex.Some? {
        AcceptOrderedAgrees(p, q, f.orderChannel, f.orderIndex.value, f.payload, env, env', c);
      }
    } else {
      DeliverAgrees(p, q, Immediate(f.payload), env, env', c);
    }
  }

  lemma ReassembleAgrees(p: Peer, q: Peer, f: Frame, env: Env, env': Env, c: Clocks)
    requires PeersAgree(p, q, c) && EnvAgree(env, env', c)
    ensures Agree(Reassemble(p, f, env), Reassemble(q, f, env'), c)
  {
    if f.split.None? {
      DispatchAgrees(p, q, f, env, env', c);
    } else {
      var (assemblies, result) := AcceptFragment(p.assemblies, f.split.value, f.payload, p.budgets);
      if result.Complete? {
        DispatchAgrees(p.(assemblies := assemblies), q.(assemblies := assemblies),
                       f.(split := None, payload := result.payload), env, env', c);
      }
    }
  }

  lemma ReceiveFrameAgrees(p: Peer, q: Peer, f: Frame, env: Env, env': Env, c: Clocks)
    requires PeersAgree(p, q, c) && EnvAgree(env, env', c)
    ensures Agree(ReceiveFrame(p, f, env), ReceiveFrame(q, f, env'), c)
  {
    if f.reliableIndex.None? {
      ReassembleAgrees(p, q, f, env, env', c);
    } else {
      var w := Admit(p.reliable, f.reliableIndex.value, WindowLimit(p.budgets));
      ReassembleAgrees(p.(reliable := w), q.(reliable := w), f, env, env', c);
    }
  }

  lemma {:induction false} ReceiveFramesAgrees(p: Peer, q: Peer, frames: seq<Frame>, env: Env, env': Env, c: Clocks)
    requires PeersAgree(p, q, c) && EnvAgree(env, env', c)
    ensures Agree(ReceiveFrames(p, frames, env), ReceiveFrames(q, frames, env'), c)
    decreases |frames|
  {
    if frames != [] {
      ReceiveFrameAgrees(p, q, frames[0], env, env', c);
      var r, r' := ReceiveFrame(p, frames[0], env), ReceiveFrame(q, frames[0], env');
      if r.error.None? {
        ReceiveFramesAgrees(r.peer, r'.peer, frames[1..], env, env', c);
      }
    }
  }

  lemma RegisterAgrees(p: Peer, q: Peer, sequence: u24, c: Clocks)
    requires PeersAgree(p, q, c)
    ensures PeersAgree(Register(p, sequence), Register(q, sequence), c)
  {
  }

  lemma ReceiveDatagramAgrees(p: Peer, q: Peer, datagram: bytes, env: Env, env': Env, c: Clocks)
    requires PeersAgree(p, q, c) && EnvAgree(env, env', c)
    ensures Agree(ReceiveDatagram(p, datagram, env), ReceiveDatagram(q, datagram, env'), c)
  {
    var p1, q1 := Observe(p, env.now), Observe(q, env'.now);
    assert PeersAgree(p1, q1, c);
    match DecodeAcknowledgement(datagram)
    case Err(_) =>
    case Ok(Some(a)) => ApplyAcknowledgementAgrees(p1, q1, a, env, env', c);
    case Ok(None) =>
      if DecodeDatagram(datagram, p.budgets).Ok? {
        var d := DecodeDatagram(datagram, p.budgets).value;
        RegisterAgrees(p1, q1, d.sequence, c);
        ReceiveFramesAgrees(Register(p1, d.sequence), Register(q1, d.sequence), d.frames, env, env', c);
      }
  }

  lemma StepAgrees(p: Peer, q: Peer, e: Event, e': Event, c: Clocks)
    requires PeersAgree(p, q, c) && EventAgree(e, e', c)
    ensures Agree(Step(p, e), Step(q, e'), c)
  {
    match e
    case Arrive(datagram, env) => ReceiveDatagramAgrees(p, q, datagram, env, e'.env, c);
    case Submit(payload, env) => SendAgrees(p, q, payload, env, e'.env, c);
    case Tick(env) => OnTimerAgrees(p, q, env, e'.env, c);
    case Consume =>
  }

  ghost predicate EventsAgree(events: seq<Event>, events': seq<Event>, c: Clocks) {
    |events'| == |events| && forall i :: 0 <= i < |events| ==> EventAgree(events[i], events'[i], c)
  }

  lemma {:induction false} RunAgrees(p: Peer, q: Peer, events: seq<Event>, events': seq<Event>, c: Clocks)
    requires PeersAgree(p, q, c) && EventsAgree(events, events', c)
    ensures Agree(Run(p, events), Run(q, events'), c)
    decreases |events|
  {
    if events != [] {
      StepAgrees(p, q, events[0], events'[0], c);
      var r, r' := Step(p, events[0]), Step(q, events'[0]);
      if r.error.None? {
        RunAgrees(r.peer, r'.peer, events[1..], events'[1..], c);
      }
    }
  }

  // ---- The transferred peer ----

  /** A timer shows the same age on both sides exactly when the importing clock reaches back to its start. */
  lemma ResumedTimerAgrees(limit: nat, started: Instant, since: Instant, resumed: Instant, at: Instant, later: Instant)
    requires since <= resumed && at <= later && 0 < limit
    ensures
      var rebased := Rewind(at, Age(limit, started, since));
      SameTimer(Rewind(resumed, SaturatingSub(since, started)), Rewind(later, SaturatingSub(at, rebased)), limit,
                Clocks(later - resumed, resumed, true))
      <==> Age(limit, started, since) <= at
  {
  }

  lemma AllResumedAgree(m: map<u24, Unacked>, since: Instant, resumed: Instant, at: Instant, later: Instant)
    requires since <= resumed && at <= later
    ensures AllUnackedAgree(X.ResumeAll(m, since, resumed), X.ResumeAll(RebaseAll(m, since, at), at, later),
                            Clocks(later - resumed, resumed, true))
            <==> forall s <- m :: AgeReached(m[s], since, at)
  {
    var c := Clocks(later - resumed, resumed, true);
    var here, there := X.ResumeAll(m, since, resumed), X.ResumeAll(RebaseAll(m, since, at), at, later);
    forall s | s in m ensures UnackedAgree(here[s], there[s], c) <==> AgeReached(m[s], since, at) {
      ResumedTimerAgrees(RetransmitDelay(m[s].attempts), m[s].sentAt, since, resumed, at, later);
    }
    if AllUnackedAgree(here, there, c) {
      forall s | s in m ensures AgeReached(m[s], since, at) {
        assert s in here && UnackedAgree(here[s], there[s], c);
      }
    }
  }

  /**
   * Resumed where it froze, or rebuilt elsewhere and resumed there: the two peers are equal but for
   * the clock if and only if the importing clock reaches back to the oldest timer.
   */
  lemma ResumedAgrees(p: Peer, since: Instant, resumed: Instant, at: Instant, later: Instant)
    requires since <= resumed && at <= later
    ensures PeersAgree(X.ResumeTimers(p, since, resumed), X.ResumeTimers(Rebase(p, since, at), at, later),
                       Clocks(later - resumed, resumed, true))
            <==> ClockReaches(p, since, at)
  {
    AllResumedAgree(p.tx.unacked, since, resumed, at, later);
    ResumedTimerAgrees(PEER_TIMEOUT, p.lastObserved, since, resumed, at, later);
  }

  /** The actor an importing process starts from a sealed checkpoint: frozen since the import. */
  ghost function Imported(a: X.Actor, at: Instant): (r: X.Actor)
    requires Inv(a.peer) && a.mode.Frozen?
    ensures r == X.NewActor(Rebase(a.peer, a.mode.since, at), X.Frozen(at))
  {
    RestoreIsRebase(a.peer, a.mode.since, at);
    X.NewActor(Restore(TakeSnapshot(a.peer, a.mode.since), a.peer.budgets, at, LogsOf(a.peer)), X.Frozen(at))
  }

  /** A frozen actor resumed in place. */
  ghost function Resumed(a: X.Actor, env: Env): X.Actor { X.LoopStep(a, X.Order(X.ResumeCommand, env)) }

  ghost predicate SameResults(r: Outcome, r': Outcome) {
    && r'.error == r.error
    && r'.peer.delivered == r.peer.delivered
    && r'.peer.tx.output == r.peer.tx.output
    && r'.peer.tx.sent == r.peer.tx.sent
    && r'.peer.inbox == r.peer.inbox
  }

  /**
   * Transparency of the transfer, for the cycle the code runs. A frozen actor is either resumed in
   * place, or sealed, rebuilt from the checkpoint in another process and resumed there. From then
   * on both write the same datagrams, deliver the same payloads, accept the same messages and fail
   * at the same event with the same error, for every later run of events, timers included.
   */
  lemma TransferIsTransparent(a: X.Actor, at: Instant, env: Env, env': Env, events: seq<Event>, events': seq<Event>)
    requires Inv(a.peer) && a.mode.Frozen? && !a.stopped
    requires a.mode.since <= env.now && at <= env'.now && ClockReaches(a.peer, a.mode.since, at)
    requires EventsAgree(events, events', Clocks(env'.now - env.now, env.now, true))
    ensures SameResults(Run(Resumed(a, env).peer, events), Run(Resumed(Imported(a, at), env').peer, events'))
  {
    CycleAgrees(a, Imported(a, at), env, env', Clocks(env'.now - env.now, env.now, true));
    RunAgrees(Resumed(a, env).peer, Resumed(Imported(a, at), env').peer, events, events',
              Clocks(env'.now - env.now, env.now, true));
  }

  /** Without timers nothing is asked of any clock: every run of datagrams, sends and reads agrees. */
  lemma UntimedTransferIsTransparent(a: X.Actor, at: Instant, env: Env, env': Env,
                                     events: seq<Event>, events': seq<Event>)
    requires Inv(a.peer) && a.mode.Frozen? && !a.stopped
    requires EventsAgree(events, events', Clocks(0, 0, false))
    ensures SameResults(Run(Resumed(a, env).peer, events), Run(Resumed(Imported(a, at), env').peer, events'))
  {
    CycleAgrees(a, Imported(a, at), env, env', Clocks(0, 0, false));
    RunAgrees(Resumed(a, env).peer, Resumed(Imported(a, at), env').peer, events, events', Clocks(0, 0, false));
  }

  /** Both ways of resuming lead to running actors whose peers agree. */
  lemma CycleAgrees(a: X.Actor, b: X.Actor, env: Env, env': Env, c: Clocks)
    requires a.mode.Frozen? && !a.stopped && b.mode.Frozen? && !b.stopped
    requires b.peer == Rebase(a.peer, a.mode.since, b.mode.since)
    requires c.timed ==>
               && c == Clocks(env'.now - env.now, env.now, true) && a.mode.since <= env.now && b.mode.since <= env'.now
               && ClockReaches(a.peer, a.mode.since, b.mode.since)
    ensures
      var here, there := Resumed(a, env), Resumed(b, env');
      && here.mode.Running? && there.mode.Running? && !here.stopped && !there.stopped
      && here.deferred == a.deferred && there.deferred == b.deferred
      && here.replies == a.replies && there.replies == b.replies
      && PeersAgree(here.peer, there.peer, c)
  {
    X.ResumeStep(a, env);
    X.ResumeStep(b, env');
    PeersResumeAlike(a.peer, a.mode.since, env.now, b.mode.since, env'.now, c);
  }

  lemma PeersResumeAlike(p: Peer, since: Instant, resumed: Instant, at: Instant, later: Instant, c: Clocks)
    requires c.timed ==>
               && c == Clocks(later - resumed, resumed, true) && since <= resumed && at <= later
               && ClockReaches(p, since, at)
    ensures PeersAgree(X.ResumeTimers(p, since, resumed), X.ResumeTimers(Rebase(p, since, at), at, later), c)
  {
    if c.timed {
      ResumedAgrees(p, since, resumed, at, later);
    }
  }

  // ---- The loop ----

  ghost predicate ModesAgree(m: X.Mode, m': X.Mode, c: Clocks) {
    if m.Frozen? then m'.Frozen? && (c.timed ==> m.since == c.origin && m'.since == m.since + c.shift)
    else m'.Running?
  }

  /** Two actors no input can tell apart; `log` is what the first replied before they were compared. */
  ghost predicate ActorsAgree(a: X.Actor, b: X.Actor, log: seq<X.Reply>, c: Clocks) {
    && b.stopped == a.stopped
    && a.replies == log + b.replies
    && ModesAgree(a.mode, b.mode, c)
    && (a.stopped || b.deferred == a.deferred)
    && PeersAgree(a.peer, b.peer, c)
  }

  ghost predicate InputAgree(i: X.Input, i': X.Input, c: Clocks) {
    match i
    case Order(command, env) =>
      i'.Order? && i'.command == command && EnvAgree(env, i'.env, c) && (command.SealCommand? ==> c.timed)
    case Ingress(datagram, env) => i'.Ingress? && i'.datagram == datagram && EnvAgree(env, i'.env, c)
    case TimerFires(env) => c.timed && i'.TimerFires? && EnvAgree(env, i'.env, c)
    case Admitted(at) => i'.Admitted? && SameMoment(at, i'.at, c)
    case Proceed(env) => i'.Proceed? && EnvAgree(env, i'.env, c)
    case Collected => i'.Collected?
  }

  /** A freeze or a resume that takes effect is the new origin: no later input is older than it. */
  ghost function ClocksAfter(a: X.Actor, i: X.Input, c: Clocks): Clocks {
    if i.Order? && X.LoopStep(a, i).mode != a.mode then c.(origin := i.env.now) else c
  }

  lemma AgreeLater(p: Peer, q: Peer, c: Clocks, now: Instant)
    requires PeersAgree(p, q, c) && c.origin <= now
    ensures PeersAgree(p, q, c.(origin := now))
  {
    forall s | s in p.tx.unacked ensures UnackedAgree(p.tx.unacked[s], q.tx.unacked[s], c.(origin := now)) {
      assert UnackedAgree(p.tx.unacked[s], q.tx.unacked[s], c);
    }
  }

  lemma TimerResumesAlike(a: Instant, b: Instant, limit: nat, since: Instant, since': Instant, now: Instant,
                          now': Instant, c: Clocks)
    requires SameTimer(a, b, limit, c)
    requires c.timed ==> since == c.origin <= now && since' == since + c.shift && now' == now + c.shift
    ensures SameTimer(Rewind(now, SaturatingSub(since, a)), Rewind(now', SaturatingSub(since', b)), limit,
                      c.(origin := now))
  {
  }

  lemma ResumeAgrees(p: Peer, q: Peer, since: Instant, since': Instant, now: Instant, now': Instant, c: Clocks)
    requires PeersAgree(p, q, c)
    requires c.timed ==> since == c.origin <= now && since' == since + c.shift && now' == now + c.shift
    ensures PeersAgree(X.ResumeTimers(p, since, now), X.ResumeTimers(q, since', now'), c.(origin := now))
  {
    var m, m' := p.tx.unacked, q.tx.unacked;
    var r, r' := X.ResumeAll(m, since, now), X.ResumeAll(m', since', now');
    forall s | s in m ensures UnackedAgree(r[s], r'[s], c.(origin := now)) {
      assert UnackedAgree(m[s], m'[s], c);
      TimerResumesAlike(m[s].sentAt, m'[s].sentAt, RetransmitDelay(m[s].attempts), since, since', now, now', c);
    }
    TimerResumesAlike(p.lastObserved, q.lastObserved, PEER_TIMEOUT, since, since', now, now', c);
  }

  lemma RemainingAgrees(a: Instant, b: Instant, limit: nat, now: Instant, now': Instant, c: Clocks)
    requires SameTimer(a, b, limit, c) && c.timed && SameMoment(now, now', c)
    ensures Remaining(limit, a, now) == Remaining(limit, b, now')
  {
  }

  lemma ListingsAgree(m: map<u24, Unacked>, m': map<u24, Unacked>, now: Instant, now': Instant, c: Clocks)
    requires AllUnackedAgree(m, m', c) && c.timed && SameMoment(now, now', c)
    ensures ListUnacked(m, now) == ListUnacked(m', now')
  {
    var keys := SortedSequences(m.Keys);
    var list, list' := ListUnacked(m, now), ListUnacked(m', now');
    forall i | 0 <= i < |keys| ensures keys[i] in m && list[i] == list'[i] {
      var d, d' := m[keys[i]], m'[keys[i]];
      assert UnackedAgree(d, d', c);
      RemainingAgrees(d.sentAt, d'.sentAt, RetransmitDelay(d.attempts), now, now', c);
    }
  }

  /** Agreeing peers seal the same checkpoint. */
  lemma SnapshotsAgree(p: Peer, q: Peer, now: Instant, now': Instant, c: Clocks)
    requires PeersAgree(p, q, c) && c.timed && SameMoment(now, now', c)
    ensures TakeSnapshot(p, now) == TakeSnapshot(q, now')
  {
    ListingsAgree(p.tx.unacked, q.tx.unacked, now, now', c);
    RemainingAgrees(p.lastObserved, q.lastObserved, PEER_TIMEOUT, now, now', c);
  }

  lemma ReplyAgrees(log: seq<X.Reply>, replies: seq<X.Reply>, reply: X.Reply)
    ensures (log + replies) + [reply] == log + (replies + [reply])
  {
  }

  lemma ApplyAgrees(a: X.Actor, b: X.Actor, payload: bytes, env: Env, env': Env, log: seq<X.Reply>, c: Clocks)
    requires ActorsAgree(a, b, log, c) && EnvAgree(env, env', c) && a.mode.Running? && b.deferred == a.deferred
    ensures ActorsAgree(X.Apply(a, payload, env), X.Apply(b, payload, env'), log, c)
  {
    StepAgrees(a.peer, b.peer, Submit(payload, env), Submit(payload, env'), c);
    ReplyAgrees(log, b.replies, X.SendReply(SendApplication(a.peer, payload, env).error));
  }

  lemma CommandAgrees(a: X.Actor, b: X.Actor, command: X.Command, env: Env, env': Env, log: seq<X.Reply>, c: Clocks)
    requires ActorsAgree(a, b, log, c) && EnvAgree(env, env', c) && (command.SealCommand? ==> c.timed)
    requires a.mode.Running? && !a.stopped
    ensures
      var r, r' := X.ApplyCommand(a, command, env), X.ApplyCommand(b, command, env');
      ActorsAgree(r, r', log, if r.mode.Frozen? then c.(origin := env.now) else c)
  {
    match command
    case SendCommand(payload) =>
      ApplyAgrees(a.(admitted := a.admitted + [payload]), b.(admitted := b.admitted + [payload]), payload, env, env',
                  log, c);
    case FreezeCommand =>
      if c.timed {
        AgreeLater(a.peer, b.peer, c, env.now);
      }
      ReplyAgrees(log, b.replies, X.DoneReply);
    case SealCommand =>
      SnapshotsAgree(a.peer, b.peer, env.now, env'.now, c);
      ReplyAgrees(log, b.replies, X.SealReply(TakeSnapshot(a.peer, env.now)));
    case ResumeCommand =>
    case TransferCommand => ReplyAgrees(log, b.replies, X.DoneReply);
  }

  lemma FrozenCommandAgrees(a: X.Actor, b: X.Actor, command: X.Command, env: Env, env': Env, log: seq<X.Reply>,
                            c: Clocks)
    requires ActorsAgree(a, b, log, c) && EnvAgree(env, env', c) && (command.SealCommand? ==> c.timed)
    requires a.mode.Frozen? && !a.stopped
    ensures
      var r := X.FrozenCommand(a, a.mode.since, command, env);
      var r' := X.FrozenCommand(b, b.mode.since, command, env');
      ActorsAgree(r, r', log, if r.mode.Running? then c.(origin := env.now) else c)
  {
    match command
    case FreezeCommand => ReplyAgrees(log, b.replies, X.DoneReply);
    case SealCommand =>
      SnapshotsAgree(a.peer, b.peer, a.mode.since, b.mode.since, c);
      ReplyAgrees(log, b.replies, X.SealReply(TakeSnapshot(a.peer, a.mode.since)));
    case ResumeCommand => ResumeAgrees(a.peer, b.peer, a.mode.since, b.mode.since, env.now, env'.now, c);
    case TransferCommand => ReplyAgrees(log, b.replies, X.DoneReply);
    case SendCommand(_) => ReplyAgrees(log, b.replies, X.QueueFullReply);
  }

  lemma DeferredAgrees(a: X.Actor, b: X.Actor, env: Env, env': Env, log: seq<X.Reply>, c: Clocks)
    requires ActorsAgree(a, b, log, c) && EnvAgree(env, env', c) && a.mode.Running? && !a.stopped && a.deferred != []
    ensures ActorsAgree(X.Apply(a.(deferred := a.deferred[1..]), a.deferred[0], env),
                        X.Apply(b.(deferred := b.deferred[1..]), b.deferred[0], env'), log, c)
  {
    ApplyAgrees(a.(deferred := a.deferred[1..]), b.(deferred := b.deferred[1..]), a.deferred[0], env, env', log, c);
  }

  /** One iteration takes agreeing actors to agreeing actors, whatever the input. */
  lemma LoopStepAgrees(a: X.Actor, b: X.Actor, i: X.Input, i': X.Input, log: seq<X.Reply>, c: Clocks)
    requires ActorsAgree(a, b, log, c) && InputAgree(i, i', c)
    ensures ActorsAgree(X.LoopStep(a, i), X.LoopStep(b, i'), log, ClocksAfter(a, i, c))
  {
    match i
    case Admitted(_) =>
    case Collected => StepAgrees(a.peer, b.peer, Consume, Consume, c);
    case Order(command, env) =>
      if !a.stopped && a.mode.Frozen? {
        FrozenCommandAgrees(a, b, command, env, i'.env, log, c);
      } else if !a.stopped && a.deferred == [] {
        CommandAgrees(a, b, command, env, i'.env, log, c);
      }
    case Proceed(env) =>
      if !a.stopped && a.mode.Running? && a.deferred != [] {
        DeferredAgrees(a, b, env, i'.env, log, c);
      }
    case Ingress(datagram, env) =>
      StepAgrees(a.peer, b.peer, Arrive(datagram, env), Arrive(datagram, i'.env), c);
    case TimerFires(env) =>
      StepAgrees(a.peer, b.peer, Tick(env), Tick(i'.env), c);
  }

  ghost function ClocksAfterAll(a: X.Actor, inputs: seq<X.Input>, c: Clocks): Clocks
    decreases |inputs|
  {
    if inputs == [] then c else
    var before := inputs[..|inputs| - 1];
    ClocksAfter(X.Loop(a, before), inputs[|inputs| - 1], ClocksAfterAll(a, before, c))
  }

  /** The same inputs on the two clocks, none older than the last freeze or resume before it. */
  ghost predicate InputsAgree(a: X.Actor, inputs: seq<X.Input>, inputs': seq<X.Input>, c: Clocks) {
    && |inputs'| == |inputs|
    && forall k :: 0 <= k < |inputs| ==> InputAgree(inputs[k], inputs'[k], ClocksAfterAll(a, inputs[..k], c))
  }

  /** Agreement is kept by the whole loop: sends, datagrams, timers, further freezes, seals and resumes. */
  lemma {:induction false} LoopAgrees(a: X.Actor, b: X.Actor, inputs: seq<X.Input>, inputs': seq<X.Input>,
                                      log: seq<X.Reply>, c: Clocks)
    requires ActorsAgree(a, b, log, c) && InputsAgree(a, inputs, inputs', c)
    ensures ActorsAgree(X.Loop(a, inputs), X.Loop(b, inputs'), log, ClocksAfterAll(a, inputs, c))
    decreases |inputs|
  {
    if inputs != [] {
      var n := |inputs| - 1;
      assert forall k :: 0 <= k < n ==> inputs[..n][..k] == inputs[..k];
      LoopAgrees(a, b, inputs[..n], inputs'[..n], log, c);
      LoopStepAgrees(X.Loop(a, inputs[..n]), X.Loop(b, inputs'[..n]), inputs[n], inputs'[n], log,
                     ClocksAfterAll(a, inputs[..n], c));
    }
  }

  // ---- Sends that were waiting ----

  /** One loop takes a deferred send at each of these moments; the other is sent the same payload anew. */
  ghost predicate Resubmits(inputs: seq<X.Input>, inputs': seq<X.Input>, payloads: seq<bytes>, c: Clocks) {
    && |inputs| == |inputs'| <= |payloads|
    && forall k :: 0 <= k < |inputs| ==>
         && inputs[k].Proceed? && inputs'[k].Order? && EnvAgree(inputs[k].env, inputs'[k].env, c)
         && inputs'[k].command == X.SendCommand(payloads[k])
  }

  /** The first actor still has `rest` to send, which the second was not told of. */
  ghost predicate CatchingUp(a: X.Actor, b: X.Actor, rest: seq<bytes>, log: seq<X.Reply>, c: Clocks) {
    && a.mode.Running? && (!a.stopped ==> a.deferred == rest && b.deferred == [])
    && ActorsAgree(a, b.(deferred := a.deferred), log, c)
  }

  /** A deferred send and a new one of the same payload have the same effect. */
  lemma SubmissionAgrees(a: X.Actor, b: X.Actor, rest: seq<bytes>, env: Env, env': Env, log: seq<X.Reply>, c: Clocks)
    requires CatchingUp(a, b, rest, log, c) && rest != [] && EnvAgree(env, env', c)
    ensures CatchingUp(X.LoopStep(a, X.Proceed(env)), X.LoopStep(b, X.Order(X.SendCommand(rest[0]), env')), rest[1..],
                       log, c)
  {
    if !a.stopped {
      ApplyAgrees(a.(deferred := rest[1..]), b.(deferred := rest[1..], admitted := b.admitted + [rest[0]]), rest[0],
                  env, env', log, c);
    }
  }

  lemma {:induction false} SubmissionsAgree(a: X.Actor, b: X.Actor, rest: seq<bytes>, inputs: seq<X.Input>,
                                            inputs': seq<X.Input>, log: seq<X.Reply>, c: Clocks)
    requires CatchingUp(a, b, rest, log, c) && Resubmits(inputs, inputs', rest, c)
    ensures CatchingUp(X.Loop(a, inputs), X.Loop(b, inputs'), rest[|inputs|..], log, c)
    decreases |inputs|
  {
    if inputs != [] {
      var n := |inputs| - 1;
      SubmissionsAgree(a, b, rest, inputs[..n], inputs'[..n], log, c);
      assert rest[n..][1..] == rest[n + 1..];
      SubmissionAgrees(X.Loop(a, inputs[..n]), X.Loop(b, inputs'[..n]), rest[n..], inputs[n].env, inputs'[n].env, log,
                       c);
    }
  }

  /** Same mode, replies, datagrams, deliveries, accepted messages and queue, up to what was replied before. */
  ghost predicate SameBehaviour(a: X.Actor, b: X.Actor, log: seq<X.Reply>) {
    && b.stopped == a.stopped && (a.mode.Frozen? <==> b.mode.Frozen?)
    && a.replies == log + b.replies
    && b.peer.delivered == a.peer.delivered
    && b.peer.tx.output == a.peer.tx.output
    && b.peer.tx.sent == a.peer.tx.sent
    && b.peer.inbox == a.peer.inbox
  }

  /**
   * Transparency for the whole actor loop. The actor resumed in place sends what it had deferred;
   * the actor rebuilt elsewhere gets the same sends again. From then on no input tells them apart,
   * further freezes, sealed checkpoints and resumes included. With timers and checkpoints the new
   * clock has to reach back to the oldest timer; without them nothing is asked of the clocks.
   */
  lemma ActorTransferIsTransparent(a: X.Actor, at: Instant, env: Env, env': Env, first: seq<X.Input>,
                                   first': seq<X.Input>, inputs: seq<X.Input>, inputs': seq<X.Input>, timed: bool)
    requires Inv(a.peer) && a.mode.Frozen? && !a.stopped
    requires timed ==> a.mode.since <= env.now && at <= env'.now && ClockReaches(a.peer, a.mode.since, at)
    requires |first| == |a.deferred| &&
            Resubmits(first, first', a.deferred, Clocks(env'.now - env.now, env.now, timed))
    requires InputsAgree(X.Loop(Resumed(a, env), first), inputs, inputs', Clocks(env'.now - env.now, env.now, timed))
    ensures SameBehaviour(X.Loop(X.Loop(Resumed(a, env), first), inputs),
                          X.Loop(X.Loop(Resumed(Imported(a, at), env'), first'), inputs'), a.replies)
  {
    ReplacementBehavesAlike(a, Imported(a, at), env, env', first, first', inputs, inputs',
                            Clocks(env'.now - env.now, env.now, timed));
  }

  lemma ReplacementBehavesAlike(a: X.Actor, b: X.Actor, env: Env, env': Env, first: seq<X.Input>,
                                first': seq<X.Input>, inputs: seq<X.Input>, inputs': seq<X.Input>, c: Clocks)
    requires a.mode.Frozen? && !a.stopped && b.mode.Frozen?
    requires b == X.NewActor(Rebase(a.peer, a.mode.since, b.mode.since), b.mode)
    requires c.timed ==>
               && c == Clocks(env'.now - env.now, env.now, true) && a.mode.since <= env.now && b.mode.since <= env'.now
               && ClockReaches(a.peer, a.mode.since, b.mode.since)
    requires |first| == |a.deferred| && Resubmits(first, first', a.deferred, c)
    requires InputsAgree(X.Loop(Resumed(a, env), first), inputs, inputs', c)
    ensures SameBehaviour(X.Loop(X.Loop(Resumed(a, env), first), inputs),
                          X.Loop(X.Loop(Resumed(b, env'), first'), inputs'), a.replies)
  {
    CycleAgrees(a, b, env, env', c);
    ResumedBehaveAlike(Resumed(a, env), Resumed(b, env'), first, first', inputs, inputs', a.replies, c);
  }

  lemma ResumedBehaveAlike(a: X.Actor, b: X.Actor, first: seq<X.Input>, first': seq<X.Input>, inputs: seq<X.Input>,
                           inputs': seq<X.Input>, log: seq<X.Reply>, c: Clocks)
    requires CatchingUp(a, b, a.deferred, log, c)
    requires |first| == |a.deferred| && Resubmits(first, first', a.deferred, c)
    requires InputsAgree(X.Loop(a, first), inputs, inputs', c)
    ensures SameBehaviour(X.Loop(X.Loop(a, first), inputs), X.Loop(X.Loop(b, first'), inputs'), log)
  {
    SubmissionsAgree(a, b, a.deferred, first, first', log, c);
    LoopAgrees(X.Loop(a, first), X.Loop(b, first'), inputs, inputs', log, c);
  }
}
