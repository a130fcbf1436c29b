/** What every operation of a peer keeps, whatever bytes arrive and in whatever order. */
module PeerInvariant {
  import opened Wrappers
  import opened Bytes
  import opened Sequence
  import opened Budget
  import opened Wire
  import opened Peer
  import opened Reassembly

  // ---- Duplicate windows ----

  ghost predicate NoRepeats<T>(s: seq<T>) {
    forall i, j :: 0 <= i < j < |s| ==> s[i] != s[j]
  }

  ghost predicate WindowOk(w: Window, limit: usize) {
    && |w.order| <= limit
    && NoRepeats(w.order)
    && (forall s: u24 :: s in w.index <==> s in w.order)
  }

  /** The last `limit` entries of `s`. */
  function Recent(s: seq<u24>, limit: nat): seq<u24> { s[SaturatingSub(|s|, limit)..] }

  /** The window after an admission holds exactly the most recent entries. */
  lemma AdmitKeepsRecent(w: Window, s: u24, limit: usize)
    requires WindowOk(w, limit) && s !in w.index && 1 <= limit
    ensures WindowOk(Admit(w, s, limit), limit)
    ensures Admit(w, s, limit).order == Recent(w.order + [s], limit)
  {
    var grown := Window(w.index + {s}, w.order + [s]);
    if |grown.order| > limit {
      var evicted := Window(grown.index - {grown.order[0]}, grown.order[1..]);
      assert Evict(grown, limit) == evicted;
      assert grown.order == [grown.order[0]] + evicted.order;
      forall x: u24 ensures x in evicted.index <==> x in evicted.order {
        assert x in grown.index <==> x in grown.order;
      }
    }
  }

  /** The naive filter: an index passes unless it is among the last `limit` that passed. */
  function Passed(arrivals: seq<u24>, limit: nat): seq<u24> {
    if arrivals == [] then [] else
    var before := Passed(arrivals[..|arrivals| - 1], limit);
    var s := arrivals[|arrivals| - 1];
    if s in Recent(before, limit) then before else before + [s]
  }

  function Windowed(arrivals: seq<u24>, limit: usize): Window {
    if arrivals == [] then Window({}, []) else
    var w := Windowed(arrivals[..|arrivals| - 1], limit);
    var s := arrivals[|arrivals| - 1];
    if s in w.index then w else Admit(w, s, limit)
  }

  /** Over any run of arrivals, the set-and-queue window is the naive filter's recent tail. */
  lemma {:induction false} WindowRefinesNaiveFilter(arrivals: seq<u24>, limit: usize)
    requires 1 <= limit
    ensures WindowOk(Windowed(arrivals, limit), limit)
    ensures Windowed(arrivals, limit).order == Recent(Passed(arrivals, limit), limit)
  {
    if arrivals != [] {
      var init, s := arrivals[..|arrivals| - 1], arrivals[|arrivals| - 1];
      WindowRefinesNaiveFilter(init, limit);
      var w, before := Windowed(init, limit), Passed(init, limit);
      if s !in w.index {
        AdmitKeepsRecent(w, s, limit);
        assert Recent(Recent(before, limit) + [s], limit) == Recent(before + [s], limit);
      }
    }
  }

  // ---- Unacknowledged datagrams ----

  ghost predicate UnackedOk(d: Unacked, b: Budgets) {
    1 <= d.attempts <= MAX_RETRANSMIT_ATTEMPTS && |d.payload| <= b.maxDatagramBytes
  }

  ghost predicate TxOk(tx: Transmit, b: Budgets) {
    && |tx.unacked| <= b.maxUnacked
    && forall s <- tx.unacked :: UnackedOk(tx.unacked[s], b)
  }

  lemma UpdateSize<K, V>(m: map<K, V>, k: K, v: V)
    ensures |m[k := v]| == if k in m then |m| else |m| + 1
  {
    assert m[k := v].Keys == m.Keys + {k};
    assert |m[k := v].Keys| == |m[k := v]|;
    assert k in m ==> m.Keys + {k} == m.Keys;
  }

  lemma SendFrameKeepsTx(tx: Transmit, frame: Frame, b: Budgets, now: Instant)
    requires TxOk(tx, b)
    ensures TxOk(SendFrame(tx, frame, b, now).tx, b)
  {
    UpdateSize(tx.unacked, tx.nextDatagram, Unacked(EncodeDatagram(tx.nextDatagram, frame), now, 1));
  }

  lemma {:induction false} SendFragmentsKeepsTx(tx: Transmit, fragments: seq<bytes>, i: nat, order: u24, splitId: u16,
                                                b: Budgets, now: Instant)
    requires i <= |fragments| < 0x1_0000_0000 && TxOk(tx, b)
    ensures TxOk(SendFragments(tx, fragments, i, order, splitId, b, now).tx, b)
    decreases |fragments| - i
  {
    if i < |fragments| {
      var frame := FragmentFrame(fragments, i, tx.nextReliable, order, splitId);
      var tx1 := tx.(nextReliable := Next(tx.nextReliable));
      SendFrameKeepsTx(tx1, frame, b, now);
      var r := SendFrame(tx1, frame, b, now);
      if r.error.None? {
        SendFragmentsKeepsTx(r.tx, fragments, i + 1, order, splitId, b, now);
      }
    }
  }

  lemma SendKeepsTx(tx: Transmit, payload: bytes, mtu: u16, b: Budgets, now: Instant)
    requires TxOk(tx, b)
    ensures TxOk(SendReliableOrdered(tx, payload, mtu, b, now).tx, b)
  {
    var capacity := FragmentCapacity(mtu);
    if capacity != 0 && |Fragments(payload, capacity)| < 0x1_0000_0000 {
      var tx1 := tx.(nextOrdered := Next(tx.nextOrdered), sent := tx.sent + [payload],
                     nextSplitId := (tx.nextSplitId + 1) % 0x1_0000);
      SendFragmentsKeepsTx(tx1, Fragments(payload, capacity), 0, tx.nextOrdered, tx.nextSplitId, b, now);
    }
  }

  lemma {:induction false} RetransmitAllKeepsTx(tx: Transmit, sequences: seq<u24>, b: Budgets, now: Instant)
    requires TxOk(tx, b)
    ensures TxOk(RetransmitAll(tx, sequences, now).tx, b)
    decreases |sequences|
  {
    if sequences != [] {
      var r := Retransmit(tx, sequences[0], now);
      if sequences[0] in tx.unacked {
        UpdateSize(tx.unacked, sequences[0], tx.unacked[sequences[0]].(sentAt := now));
      }
      if r.error.None? {
        RetransmitAllKeepsTx(r.tx, sequences[1..], b, now);
      }
    }
  }

  lemma AcknowledgeKeepsTx(tx: Transmit, ranges: seq<(u24, u24)>, b: Budgets)
    requires TxOk(tx, b)
    ensures TxOk(tx.(unacked := Acknowledge(tx.unacked, ranges)), b)
  {
    var kept := Acknowledge(tx.unacked, ranges);
    assert kept.Keys <= tx.unacked.Keys;
    SubsetSize(kept.Keys, tx.unacked.Keys);
    assert |kept.Keys| == |kept| && |tx.unacked.Keys| == |tx.unacked|;
  }

  lemma SubsetSize<T>(a: set<T>, b: set<T>)
    requires a <= b
    ensures |a| <= |b|
  {
    assert b == a + (b - a);
  }

  // ---- Ordered channels ----

  /** The ordered deliveries on one channel, oldest first. */
  function ChannelLog(delivered: seq<Delivery>, channel: byte): seq<Delivery> {
    if delivered == [] then [] else
    var init, last := ChannelLog(delivered[..|delivered| - 1], channel), delivered[|delivered| - 1];
    if last.InOrder? && last.channel == channel then init + [last] else init
  }

  lemma LogSnoc(delivered: seq<Delivery>, d: Delivery, channel: byte)
    ensures ChannelLog(delivered + [d], channel) ==
            ChannelLog(delivered, channel) + if d.InOrder? && d.channel == channel then [d] else []
  {
    assert (delivered + [d])[..|delivered|] == delivered;
  }

  /** The k-th delivery on a channel carries index k modulo 2^24, and the next expected one follows. */
  ghost predicate ChannelOk(delivered: seq<Delivery>, o: Ordering, channel: byte) {
    var log := ChannelLog(delivered, channel);
    && Expected(o, channel) == Wrap(|log|)
    && forall k :: 0 <= k < |log| ==> log[k].InOrder? && log[k].index == Wrap(k)
  }

  ghost predicate LogOk(delivered: seq<Delivery>, o: Ordering) {
    forall channel: byte :: ChannelOk(delivered, o, channel)
  }

  lemma LogDependsOnExpected(delivered: seq<Delivery>, o: Ordering, o': Ordering)
    requires LogOk(delivered, o) && forall channel: byte :: Expected(o', channel) == Expected(o, channel)
    ensures LogOk(delivered, o')
  {
    forall channel: byte ensures ChannelOk(delivered, o', channel) {
      assert ChannelOk(delivered, o, channel);
    }
  }

  lemma LogAfterImmediate(delivered: seq<Delivery>, o: Ordering, payload: bytes)
    requires LogOk(delivered, o)
    ensures LogOk(delivered + [Immediate(payload)], o)
  {
    forall channel: byte ensures ChannelOk(delivered + [Immediate(payload)], o, channel) {
      assert ChannelOk(delivered, o, channel);
      LogSnoc(delivered, Immediate(payload), channel);
    }
  }

  lemma LogAfterInOrder(delivered: seq<Delivery>, o: Ordering, channel: byte, payload: bytes)
    requires LogOk(delivered, o)
    ensures
      var index := Expected(o, channel);
      LogOk(delivered + [InOrder(channel, index, payload)], o.(expected := o.expected[channel := Next(index)]))
  {
    var index := Expected(o, channel);
    var d := InOrder(channel, index, payload);
    var o' := o.(expected := o.expected[channel := Next(index)]);
    forall c: byte ensures ChannelOk(delivered + [d], o', c) {
      assert ChannelOk(delivered, o, c);
      LogSnoc(delivered, d, c);
      if c == channel {
        WrapStep(|ChannelLog(delivered, channel)|);
      }
    }
  }

  /** Every held-back index is strictly newer than its channel's expected one. */
  ghost predicate HeldOk(o: Ordering) {
    forall key <- o.holdback :: IsNewer(key.1, Expected(o, key.0))
  }

  /** The same, except that `channel` may hold its expected index itself. */
  ghost predicate HeldWhileDraining(o: Ordering, channel: byte) {
    forall key <- o.holdback ::
      if key.0 == channel then Distance(key.1, Expected(o, key.0)) < HALF_RANGE
      else IsNewer(key.1, Expected(o, key.0))
  }

  // ---- The invariant ----

  /** Holds in every reachable state, running or stopped by an error. */
  ghost predicate Accountable(p: Peer) {
    && WindowOk(p.datagrams, WindowLimit(p.budgets))
    && WindowOk(p.reliable, WindowLimit(p.budgets))
    && Accounted(p.assemblies, p.budgets)
    && AllIncomplete(p.assemblies)
    && TxOk(p.tx, p.budgets)
    && |p.inbox| <= p.budgets.applicationQueue
    && |p.ordering.holdback| <= p.budgets.maxOrderedHoldback
    && LogOk(p.delivered, p.ordering)
  }

  /** Holds whenever the actor is running. */
  ghost predicate Inv(p: Peer) { Accountable(p) && HeldOk(p.ordering) }

  /** The full invariant after a success, the bookkeeping even after an error. */
  ghost predicate Settled(r: Outcome) {
    match r.error
    case None => Inv(r.peer)
    case Some(_) => Accountable(r.peer)
  }

  lemma NewPeerInv(remoteAddr: bytes, mtu: u16, b: Budgets, now: Instant)
    ensures Inv(NewPeer(remoteAddr, mtu, b, now))
  {
  }

  lemma DeliverPayloadKeeps(p: Peer, payload: bytes, env: Env)
    requires Accountable(p)
    ensures Accountable(DeliverPayload(p, payload, env).peer)
  {
    if |payload| >= 18 {
      SendKeepsTx(p.tx, ConnectionAccept(p.remoteAddr, payload[9..17], env.epochMillis), p.mtu, p.budgets, env.now);
    }
    if |payload| >= 9 {
      SendKeepsTx(p.tx, ConnectedPong(payload[1..9], env.epochMillis), p.mtu, p.budgets, env.now);
    }
  }

  lemma ImmediateKeeps(p: Peer, payload: bytes, env: Env)
    requires Inv(p)
    ensures Inv(Deliver(p, Immediate(payload), env).peer)
  {
    LogAfterImmediate(p.delivered, p.ordering, payload);
    DeliverPayloadKeeps(p.(delivered := p.delivered + [Immediate(payload)]), payload, env);
  }

  lemma DeliverInOrderKeeps(p: Peer, channel: byte, payload: bytes, env: Env)
    requires Accountable(p)
    ensures Accountable(DeliverInOrder(p, channel, Expected(p.ordering, channel), payload, env).peer)
  {
    var index := Expected(p.ordering, channel);
    LogAfterInOrder(p.delivered, p.ordering, channel, payload);
    DeliverPayloadKeeps(p.(ordering := p.ordering.(expected := p.ordering.expected[channel := Next(index)]),
                           delivered := p.delivered + [InOrder(channel, index, payload)]), payload, env);
  }

  /** Taking the expected payload and moving on leaves the others newer, or due next. */
  lemma AdvanceKeepsHeld(o: Ordering, channel: byte)
    requires HeldWhileDraining(o, channel)
    ensures
      var index := Expected(o, channel);
      HeldWhileDraining(Ordering(o.expected[channel := Next(index)], o.holdback - {(channel, index)}), channel)
  {
  }

  lemma DrainStepKeeps(p: Peer, channel: byte, env: Env)
    requires Accountable(p) && HeldWhileDraining(p.ordering, channel)
    requires (channel, Expected(p.ordering, channel)) in p.ordering.holdback
    ensures
      var index := Expected(p.ordering, channel);
      var p1 := p.(ordering := p.ordering.(holdback := p.ordering.holdback - {(channel, index)}));
      var r := DeliverInOrder(p1, channel, index, p.ordering.holdback[(channel, index)], env);
      Accountable(r.peer) && HeldWhileDraining(r.peer.ordering, channel)
  {
    var index := Expected(p.ordering, channel);
    var p1 := p.(ordering := p.ordering.(holdback := p.ordering.holdback - {(channel, index)}));
    LogDependsOnExpected(p.delivered, p.ordering, p1.ordering);
    DeliverInOrderKeeps(p1, channel, p.ordering.holdback[(channel, index)], env);
    AdvanceKeepsHeld(p.ordering, channel);
  }

  /** Draining keeps the invariant; when it ends without error nothing held is still expected. */
  lemma {:induction false} DrainKeeps(p: Peer, channel: byte, env: Env)
    requires Accountable(p) && HeldWhileDraining(p.ordering, channel)
    ensures Settled(Drain(p, channel, env))
    decreases |p.ordering.holdback|
  {
    var index := Expected(p.ordering, channel);
    var key := (channel, index);
    if key in p.ordering.holdback {
      RemoveShrinks(p.ordering.holdback, key);
      var p1 := p.(ordering := p.ordering.(holdback := p.ordering.holdback - {key}));
      DrainStepKeeps(p, channel, env);
      var r := DeliverInOrder(p1, channel, index, p.ordering.holdback[key], env);
      if r.error.None? {
        DrainKeeps(r.peer, channel, env);
        assert Drain(p, channel, env) == Drain(r.peer, channel, env);
      } else {
        assert Drain(p, channel, env) == r;
      }
    } else {
      NothingDue(p.ordering, channel);
    }
  }

  lemma NothingDue(o: Ordering, channel: byte)
    requires HeldWhileDraining(o, channel) && (channel, Expected(o, channel)) !in o.holdback
    ensures HeldOk(o)
  {
  }

  lemma TouchKeeps(p: Peer, channel: byte)
    requires Inv(p)
    ensures
      var expected := p.ordering.expected[channel := Expected(p.ordering, channel)];
      Inv(p.(ordering := p.ordering.(expected := expected)))
  {
    var o := p.ordering.(expected := p.ordering.expected[channel := Expected(p.ordering, channel)]);
    LogDependsOnExpected(p.delivered, p.ordering, o);
  }

  lemma AcceptExpectedKeeps(p: Peer, channel: byte, payload: bytes, env: Env)
    requires Inv(p)
    ensures
      var r := DeliverInOrder(p, channel, Expected(p.ordering, channel), payload, env);
      && Accountable(r.peer)
      && HeldWhileDraining(r.peer.ordering, channel)
  {
    DeliverInOrderKeeps(p, channel, payload, env);
    AdvanceKeepsHeld(p.ordering, channel);
    assert p.ordering.holdback - {(channel, Expected(p.ordering, channel))} == p.ordering.holdback;
  }

  lemma HoldKeeps(p: Peer, channel: byte, index: u24, payload: bytes)
    requires Inv(p) && IsNewer(index, Expected(p.ordering, channel))
    requires |p.ordering.holdback| + 1 <= p.budgets.maxOrderedHoldback
    ensures Inv(p.(ordering := p.ordering.(holdback := p.ordering.holdback[(channel, index) := payload])))
  {
    UpdateSize(p.ordering.holdback, (channel, index), payload);
    LogDependsOnExpected(p.delivered, p.ordering,
                         p.ordering.(holdback := p.ordering.holdback[(channel, index) := payload]));
  }

  lemma AcceptOrderedKeeps(p: Peer, channel: byte, index: u24, payload: bytes, env: Env)
    requires Inv(p)
    ensures Settled(AcceptOrdered(p, channel, index, payload, env))
  {
    var expected := Expected(p.ordering, channel);
    var p1 := p.(ordering := p.ordering.(expected := p.ordering.expected[channel := expected]));
    TouchKeeps(p, channel);
    if index == expected {
      AcceptExpectedKeeps(p1, channel, payload, env);
      var r := DeliverInOrder(p1, channel, index, payload, env);
      if r.error.None? {
        DrainKeeps(r.peer, channel, env);
      }
    } else if IsNewer(index, expected) && |p1.ordering.holdback| + 1 <= p.budgets.maxOrderedHoldback {
      HoldKeeps(p1, channel, index, payload);
    }
  }

  lemma DispatchKeeps(p: Peer, f: Frame, env: Env)
    requires Inv(p)
    ensures Settled(Dispatch(p, f, env))
  {
    if f.reliability.IsSequenced() {
      if f.sequenceIndex.Some? {
        var p1 := p.(sequencedLatest := p.sequencedLatest[f.orderChannel := f.sequenceIndex.value]);
        ImmediateKeeps(p1, f.payload, env);
      }
    } else if f.reliability.IsOrdered() {
      if f.orderIndex.Some? {
        AcceptOrderedKeeps(p, f.orderChannel, f.orderIndex.value, f.payload, env);
      }
    } else {
      ImmediateKeeps(p, f.payload, env);
    }
  }

  lemma ReassembleKeeps(p: Peer, f: Frame, env: Env)
    requires Inv(p) && FitsFrame(f.payload, p.budgets.maxPayloadBytes)
    ensures Settled(Reassemble(p, f, env))
  {
    if f.split.None? {
      DispatchKeeps(p, f, env);
    } else {
      AcceptFragmentAccounts(p.assemblies, f.split.value, f.payload, p.budgets);
      var (assemblies, result) := AcceptFragment(p.assemblies, f.split.value, f.payload, p.budgets);
      var p1 := p.(assemblies := assemblies);
      if result.Complete? {
        DispatchKeeps(p1, f.(split := None, payload := result.payload), env);
      }
    }
  }

  lemma ReceiveFrameKeeps(p: Peer, f: Frame, env: Env)
    requires Inv(p) && FitsFrame(f.payload, p.budgets.maxPayloadBytes)
    ensures Settled(ReceiveFrame(p, f, env))
  {
    if f.reliableIndex.None? {
      ReassembleKeeps(p, f, env);
    } else if f.reliableIndex.value !in p.reliable.index {
      AdmitKeepsRecent(p.reliable, f.reliableIndex.value, WindowLimit(p.budgets));
      var p1 := p.(reliable := Admit(p.reliable, f.reliableIndex.value, WindowLimit(p.budgets)));
      ReassembleKeeps(p1, f, env);
    }
  }

  lemma {:induction false} ReceiveFramesKeeps(p: Peer, frames: seq<Frame>, env: Env)
    requires Inv(p) && forall f <- frames :: FitsFrame(f.payload, p.budgets.maxPayloadBytes)
    ensures Settled(ReceiveFrames(p, frames, env))
    decreases |frames|
  {
    if frames != [] {
      assert frames[0] in frames;
      ReceiveFrameKeeps(p, frames[0], env);
      var r := ReceiveFrame(p, frames[0], env);
      if r.error.None? {
        ReceiveFramesKeeps(r.peer, frames[1..], env);
      }
    }
  }

  lemma AcceptDatagramKeeps(p: Peer, d: Datagram, env: Env)
    requires Inv(p) && forall f <- d.frames :: FitsFrame(f.payload, p.budgets.maxPayloadBytes)
    ensures Settled(AcceptDatagram(p, d, env))
  {
    if d.sequence !in p.datagrams.index {
      AdmitKeepsRecent(p.datagrams, d.sequence, WindowLimit(p.budgets));
      ReceiveFramesKeeps(Register(p, d.sequence), d.frames, env);
    }
  }

  lemma ReceiveDatagramKeeps(p: Peer, datagram: bytes, env: Env)
    requires Inv(p)
    ensures Settled(ReceiveDatagram(p, datagram, env))
  {
    var p1 := Observe(p, env.now);
    match DecodeAcknowledgement(datagram)
    case Err(_) =>
    case Ok(Some(Ack(ranges))) =>
      AcknowledgeKeepsTx(p1.tx, ranges, p1.budgets);
    case Ok(Some(Nack(ranges))) =>
      var sequences := Requested(env.order, p1.tx.unacked, ranges);
      RetransmitAllKeepsTx(p1.tx, sequences, p1.budgets, env.now);
    case Ok(None) =>
      if DecodeDatagram(datagram, p.budgets).Ok? {
        AcceptDatagramKeeps(p1, DecodeDatagram(datagram, p.budgets).value, env);
      }
  }

  /** Every event keeps the invariant; a failing one still keeps all the books. */
  lemma StepKeeps(p: Peer, e: Event)
    requires Inv(p)
    ensures Settled(Step(p, e))
  {
    match e
    case Arrive(datagram, env) => ReceiveDatagramKeeps(p, datagram, env);
    case Submit(payload, env) =>
      SendKeepsTx(p.tx, payload, p.mtu, p.budgets, env.now);
    case Tick(env) =>
      var due := Due(env.order, p.tx.unacked, env.now);
      RetransmitAllKeepsTx(p.tx, due, p.budgets, env.now);
    case Consume =>
  }

  /** Over every run of any events, from any state that satisfies the invariant. */
  lemma {:induction false} RunKeeps(p: Peer, events: seq<Event>)
    requires Inv(p)
    ensures Settled(Run(p, events))
    decreases |events|
  {
    if events != [] {
      StepKeeps(p, events[0]);
      if Step(p, events[0]).error.None? {
        RunKeeps(Step(p, events[0]).peer, events[1..]);
      }
    }
  }
}
