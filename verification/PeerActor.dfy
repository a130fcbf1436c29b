/** The peer actor itself: mutable fields updated step by step, proved against the Peer module. */
module PeerActor {
  import opened Wrappers
  import opened Bytes
  import opened Sequence
  import opened Budget
  import opened Wire
  import P = Peer
  import S = Snapshot
  import X = Execution
  import Sorting
  import WireReader

  // ---- Facts that tie the loops to the recursive definitions ----

  lemma {:induction false} ChunkCount(payload: bytes, capacity: nat)
    requires 0 < capacity
    ensures |P.Chunks(payload, capacity)| == (|payload| + capacity - 1) / capacity
    decreases |payload|
  {
    var n := |payload|;
    if n == 0 {
      SmallQuotient(capacity - 1, capacity);
    } else if n <= capacity {
      QuotientStep(n - 1, capacity);
      SmallQuotient(n - 1, capacity);
    } else {
      ChunkCount(payload[capacity..], capacity);
      QuotientStep(n - 1, capacity);
    }
  }

  lemma SmallQuotient(a: nat, d: nat)
    requires a < d
    ensures a / d == 0
  {
  }

  lemma QuotientStep(a: nat, d: nat)
    requires 0 < d
    ensures (a + d) / d == a / d + 1
  {
    QuotientBounds((a + d) / d - a / d - 1, d, a % d - (a + d) % d);
  }

  /** A multiple of `d` smaller than `d` is zero. */
  lemma QuotientBounds(k: int, d: int, r: int)
    requires k * d == r && -d < r < d
    ensures k == 0
  {
    MultipleGrows(k, d);
  }

  lemma MultipleGrows(k: int, d: int)
    requires 0 < d
    ensures k >= 1 ==> k * d >= d
    ensures k <= -1 ==> k * d <= -d
  {
  }

  /** An unsplit message is one frame. */
  lemma OneFragment(tx: P.Transmit, payload: bytes, order: u24, splitId: u16, b: Budgets, now: P.Instant)
    ensures P.SendFragments(tx, [payload], 0, order, splitId, b, now) ==
            P.SendFrame(tx.(nextReliable := Next(tx.nextReliable)),
                        Frame(ReliableOrdered, Some(tx.nextReliable), None, Some(order), 0, None, payload), b, now)
  {
    var f := P.FragmentFrame([payload], 0, tx.nextReliable, order, splitId);
    var r := P.SendFrame(tx.(nextReliable := Next(tx.nextReliable)), f, b, now);
    assert P.SendFragments(r.tx, [payload], 1, order, splitId, b, now) == P.TxOutcome(r.tx, None);
  }

  class PeerActor {
    const remoteAddr: bytes
    const mtu: u16
    const budgets: Budgets
    var accepted: bool
    var nextDatagram: u24
    var nextReliable: u24
    var nextOrdered: u24
    var nextSplitId: u16
    var lastDatagram: Option<u24>
    var seenDatagrams: set<u24>
    var seenDatagramOrder: seq<u24>
    var seenReliable: set<u24>
    var seenReliableOrder: seq<u24>
    var orderedExpected: map<byte, u24>
    var sequencedLatest: map<byte, u24>
    var orderedHoldback: map<(byte, u24), bytes>
    var reassembly: map<u16, P.Parts>
    var reassemblyBytes: usize
    var reassemblyParts: usize
    var unacked: map<u24, P.Unacked>
    var inbox: seq<bytes>
    var lastObserved: P.Instant

    ghost var output: seq<bytes>
    ghost var sent: seq<bytes>
    ghost var delivered: seq<P.Delivery>

    ghost function Tx(): P.Transmit
      reads this
    {
      P.Transmit(nextDatagram, nextReliable, nextOrdered, nextSplitId, unacked, output, sent)
    }

    ghost function Pending(): P.Assemblies
      reads this
    {
      P.Assemblies(reassembly, reassemblyBytes, reassemblyParts)
    }

    ghost function Order(): P.Ordering
      reads this
    {
      P.Ordering(orderedExpected, orderedHoldback)
    }

    ghost function View(): P.Peer
      reads this
    {
      P.Peer(remoteAddr, mtu, budgets, accepted, lastDatagram,
             P.Window(seenDatagrams, seenDatagramOrder), P.Window(seenReliable, seenReliableOrder),
             sequencedLatest, Order(), Pending(), Tx(), inbox, lastObserved, delivered)
    }

    constructor (remoteAddr: bytes, mtu: u16, budgets: Budgets, now: P.Instant)
      ensures View() == P.NewPeer(remoteAddr, mtu, budgets, now)
    {
      this.remoteAddr, this.mtu, this.budgets := remoteAddr, mtu, budgets;
      accepted, nextDatagram, nextReliable, nextOrdered, nextSplitId := false, 0, 0, 0, 0;
      lastDatagram := None;
      seenDatagrams, seenDatagramOrder, seenReliable, seenReliableOrder := {}, [], {}, [];
      orderedExpected, sequencedLatest, orderedHoldback := map[], map[], map[];
      reassembly, reassemblyBytes, reassemblyParts, unacked := map[], 0, 0, map[];
      inbox, lastObserved := [], now;
      output, sent, delivered := [], [], [];
    }

    // ---- Sending ----

    method SendFrame(frame: Frame, now: P.Instant) returns (error: Option<RakNetError>)
      modifies `nextDatagram, `unacked, `output
      ensures P.TxOutcome(Tx(), error) == P.SendFrame(old(Tx()), frame, budgets, now)
    {
      if |unacked| + 1 > budgets.maxUnacked {
        return Some(BudgetExceeded(|unacked| + 1, budgets.maxUnacked));
      }
      var sequence := nextDatagram;
      nextDatagram := Next(sequence);
      var datagram := EncodeDatagram(sequence, frame);
      if |datagram| > budgets.maxDatagramBytes {
        return Some(BudgetExceeded(|datagram|, budgets.maxDatagramBytes));
      }
      output := output + [datagram];
      unacked := unacked[sequence := P.Unacked(datagram, now, 1)];
      error := None;
    }

    method SendReliableOrdered(payload: bytes, now: P.Instant) returns (error: Option<RakNetError>)
      modifies `nextDatagram, `nextReliable, `nextOrdered, `nextSplitId, `unacked, `output, `sent
      ensures P.TxOutcome(Tx(), error) == P.SendReliableOrdered(old(Tx()), payload, mtu, budgets, now)
    {
      var capacity := P.FragmentCapacity(mtu);
      if capacity == 0 {
        return Some(RakNetError.Wire);
      }
      var order := nextOrdered;
      nextOrdered := Next(order);
      sent := sent + [payload];
      var count := Max((|payload| + capacity - 1) / capacity, 1);
      ghost var fragments := P.Fragments(payload, capacity);
      ChunkCount(payload, capacity);
      if count >= 0x1_0000_0000 {
        return Some(RakNetError.Wire);
      }
      var splitId := nextSplitId;
      nextSplitId := (splitId as int + 1) % 0x1_0000;
      if payload == [] {
        OneFragment(Tx(), [], order, splitId, budgets, now);
        var frame := Frame(ReliableOrdered, Some(nextReliable), None, Some(order), 0, None, payload);
        nextReliable := Next(nextReliable);
        error := SendFrame(frame, now);
      } else {
        error := SendChunks(payload, capacity, count, order, splitId, now);
      }
    }

    method SendChunks(payload: bytes, capacity: nat, count: nat, order: u24, splitId: u16, now: P.Instant)
      returns (error: Option<RakNetError>)
      requires 0 < capacity && |P.Chunks(payload, capacity)| == count < 0x1_0000_0000
      modifies `nextDatagram, `nextReliable, `unacked, `output
      ensures P.TxOutcome(Tx(), error) ==
              P.SendFragments(old(Tx()), P.Chunks(payload, capacity), 0, order, splitId, budgets, now)
    {
      ghost var fragments := P.Chunks(payload, capacity);
      var offset, i := 0, 0;
      assert payload[0..] == payload && fragments[0..] == fragments;
      while offset < |payload|
        invariant offset <= |payload| && i <= count
        invariant fragments[i..] == P.Chunks(payload[offset..], capacity)
        invariant P.SendFragments(old(Tx()), fragments, 0, order, splitId, budgets, now) ==
                  P.SendFragments(Tx(), fragments, i, order, splitId, budgets, now)
        decreases |payload| - offset
      {
        var end := Min(offset + capacity, |payload|);
        var chunk := payload[offset..end];
        NextChunk(payload, capacity, offset, end, i, fragments);
        ghost var tx := Tx();
        var reliable := nextReliable;
        nextReliable := Next(nextReliable);
        var frame := Frame(ReliableOrdered, Some(reliable), None, Some(order), 0,
                           if count > 1 then Some(SplitHeader(count, splitId, i)) else None, chunk);
        error := SendFrame(frame, now);
        P.FragmentStep(tx, fragments, i, order, splitId, budgets, now);
        if error.Some? {
          return;
        }
        offset, i := end, i + 1;
      }
      assert fragments[i..] == [];
      error := None;
    }

    // ---- Acknowledgements and retransmission ----

    method Retransmit(sequence: u24, now: P.Instant) returns (error: Option<RakNetError>)
      modifies `unacked, `output
      ensures P.TxOutcome(Tx(), error) == P.Retransmit(old(Tx()), sequence, now)
    {
      if sequence !in unacked {
        return None;
      }
      var d := unacked[sequence];
      if d.attempts >= P.MAX_RETRANSMIT_ATTEMPTS {
        return Some(RetransmitExhausted(sequence, d.attempts));
      }
      output := output + [d.payload];
      unacked := unacked[sequence := d.(sentAt := now, attempts := d.attempts + 1)];
      error := None;
    }

    method RetransmitAll(sequences: seq<u24>, now: P.Instant) returns (error: Option<RakNetError>)
      modifies `unacked, `output
      ensures P.TxOutcome(Tx(), error) == P.RetransmitAll(old(Tx()), sequences, now)
    {
      for i := 0 to |sequences|
        invariant P.RetransmitAll(old(Tx()), sequences, now) == P.RetransmitAll(Tx(), sequences[i..], now)
      {
        assert sequences[i..][1..] == sequences[i + 1..];
        error := Retransmit(sequences[i], now);
        if error.Some? {
          return;
        }
      }
      error := None;
    }

    /** The unacknowledged sequences due at `now`, in the map's iteration order. */
    method CollectDue(order: seq<u24>, now: P.Instant) returns (due: seq<u24>)
      ensures due == P.Due(order, unacked, now)
    {
      due := [];
      for i := 0 to |order|
        invariant due + P.Due(order[i..], unacked, now) == P.Due(order, unacked, now)
      {
        assert order[i..][1..] == order[i + 1..];
        if order[i] in unacked && P.IsDue(unacked[order[i]], now) {
          due := due + [order[i]];
        }
      }
    }

    method CollectRequested(order: seq<u24>, ranges: seq<(u24, u24)>) returns (requested: seq<u24>)
      ensures requested == P.Requested(order, unacked, ranges)
    {
      requested := [];
      for i := 0 to |order|
        invariant requested + P.Requested(order[i..], unacked, ranges) == P.Requested(order, unacked, ranges)
      {
        assert order[i..][1..] == order[i + 1..];
        if order[i] in unacked && InAnyRange(order[i], ranges) {
          requested := requested + [order[i]];
        }
      }
    }

    method ApplyAcknowledgement(a: Acknowledgement, env: P.Env) returns (error: Option<RakNetError>)
      modifies `unacked, `output
      ensures P.Outcome(View(), error) == P.ApplyAcknowledgement(old(View()), a, env)
    {
      match a
      case Ack(ranges) =>
        unacked := map s | s in unacked && !InAnyRange(s, ranges) :: unacked[s];
        error := None;
      case Nack(ranges) =>
        var sequences := CollectRequested(env.order, ranges);
        error := RetransmitAll(sequences, env.now);
    }

    method OnTimer(env: P.Env) returns (error: Option<RakNetError>)
      modifies `unacked, `output
      ensures P.Outcome(View(), error) == P.OnTimer(old(View()), env)
    {
      if SaturatingSub(env.now, lastObserved) >= P.PEER_TIMEOUT {
        return Some(RakNetError.PeerTimeout);
      }
      var due := CollectDue(env.order, env.now);
      error := RetransmitAll(due, env.now);
    }

    // ---- Delivery ----

    method Respond(payload: bytes, env: P.Env) returns (error: Option<RakNetError>)
      modifies `nextDatagram, `nextReliable, `nextOrdered, `nextSplitId, `unacked, `output, `sent
      ensures P.Outcome(View(), error) == P.Send(old(View()), payload, env)
    {
      error := SendReliableOrdered(payload, env.now);
    }

    method DeliverPayload(payload: bytes, env: P.Env) returns (error: Option<RakNetError>)
      modifies `nextDatagram, `nextReliable, `nextOrdered, `nextSplitId, `unacked, `output, `sent, `accepted, `inbox
      ensures P.Outcome(View(), error) == P.DeliverPayload(old(View()), payload, env)
    {
      var id := if payload == [] then None else Some(payload[0]);
      if id == Some(0x09) {
        if |payload| < 18 {
          return Some(RakNetError.Wire);
        }
        error := Respond(P.ConnectionAccept(remoteAddr, payload[9..17], env.epochMillis), env);
      } else if id == Some(0x00) {
        if |payload| < 9 {
          return Some(RakNetError.Wire);
        }
        error := Respond(P.ConnectedPong(payload[1..9], env.epochMillis), env);
      } else if id == Some(0x13) && !accepted {
        accepted := true;
        error := if env.acceptOpen then None else Some(RakNetError.Closed);
      } else if id == Some(0x13) || id == Some(0x03) {
        error := None;
      } else if id == Some(0x15) || id == Some(0x1C) {
        error := Some(RakNetError.Closed);
      } else if accepted {
        if |inbox| + 1 > budgets.applicationQueue {
          return Some(BudgetExceeded(|inbox| + 1, budgets.applicationQueue));
        }
        inbox := inbox + [payload];
        error := None;
      } else {
        error := None;
      }
    }

    /** Delivers what was held back, one expected index after another. */
    method Drain(channel: byte, env: P.Env) returns (error: Option<RakNetError>)
      requires channel in orderedExpected
      modifies `nextDatagram, `nextReliable, `nextOrdered, `nextSplitId, `unacked, `output, `sent, `accepted, `inbox
      modifies `orderedExpected, `orderedHoldback, `delivered
      ensures P.Outcome(View(), error) == P.Drain(old(View()), channel, env)
    {
      while true
        invariant channel in orderedExpected
        invariant P.Drain(old(View()), channel, env) == P.Drain(View(), channel, env)
        decreases |orderedHoldback|
      {
        var index := orderedExpected[channel];
        if (channel, index) !in orderedHoldback {
          return None;
        }
        var held := orderedHoldback[(channel, index)];
        P.RemoveShrinks(orderedHoldback, (channel, index));
        orderedHoldback := orderedHoldback - {(channel, index)};
        error := DeliverInOrder(channel, index, held, env);
        if error.Some? {
          return;
        }
      }
    }

    method DeliverInOrder(channel: byte, index: u24, payload: bytes, env: P.Env) returns (error: Option<RakNetError>)
      modifies `nextDatagram, `nextReliable, `nextOrdered, `nextSplitId, `unacked, `output, `sent, `accepted, `inbox
      modifies `orderedExpected, `delivered
      ensures P.Outcome(View(), error) == P.DeliverInOrder(old(View()), channel, index, payload, env)
    {
      orderedExpected := orderedExpected[channel := Next(index)];
      delivered := delivered + [P.InOrder(channel, index, payload)];
      error := DeliverPayload(payload, env);
    }

    method AcceptOrdered(channel: byte, index: u24, payload: bytes, env: P.Env) returns (error: Option<RakNetError>)
      modifies `nextDatagram, `nextReliable, `nextOrdered, `nextSplitId, `unacked, `output, `sent, `accepted, `inbox
      modifies `orderedExpected, `orderedHoldback, `delivered
      ensures P.Outcome(View(), error) == P.AcceptOrdered(old(View()), channel, index, payload, env)
    {
      var expected := if channel in orderedExpected then orderedExpected[channel] else 0;
      orderedExpected := orderedExpected[channel := expected];
      if index == expected {
        error := DeliverInOrder(channel, index, payload, env);
        if error.Some? {
          return;
        }
        error := Drain(channel, env);
        return;
      } else if IsNewer(index, expected) {
        if |orderedHoldback| + 1 > budgets.maxOrderedHoldback {
          return Some(BudgetExceeded(|orderedHoldback| + 1, budgets.maxOrderedHoldback));
        }
        if (channel, index) !in orderedHoldback {
          orderedHoldback := orderedHoldback[(channel, index) := payload];
        }
      }
      error := None;
    }

    // ---- Reassembly ----

    method AcceptFragment(split: SplitHeader, payload: bytes) returns (result: P.Assembled)
      modifies `reassembly, `reassemblyBytes, `reassemblyParts
      ensures (Pending(), result) == P.AcceptFragment(old(Pending()), split, payload, budgets)
    {
      if split.count == 0 || split.index >= split.count {
        return P.Refused(RakNetError.Wire);
      }
      var isNew := split.id !in reassembly;
      var requested := SaturatingAdd(reassemblyParts, if isNew then split.count else 0);
      if requested > budgets.maxReassemblyParts {
        return P.Refused(BudgetExceeded(requested, budgets.maxReassemblyParts));
      }
      if isNew {
        reassemblyParts := SaturatingAdd(reassemblyParts, split.count);
        reassembly := reassembly[split.id := P.Missing(split.count)];
      }
      if |reassembly[split.id]| != split.count {
        return P.Refused(RakNetError.Wire);
      }
      if reassembly[split.id][split.index].None? {
        var total := SaturatingAdd(reassemblyBytes, |payload|);
        if total > budgets.maxReassemblyBytes {
          return P.Refused(BudgetExceeded(total, budgets.maxReassemblyBytes));
        }
        reassemblyBytes := total;
        reassembly := reassembly[split.id := reassembly[split.id][split.index := Some(payload)]];
      }
      result := Finish(split.id);
    }

    method Finish(id: u16) returns (result: P.Assembled)
      requires id in reassembly
      modifies `reassembly, `reassemblyBytes, `reassemblyParts
      ensures (Pending(), result) == P.Finish(old(Pending()), id)
    {
      var completed := reassembly[id];
      var i := 0;
      while i < |completed| && completed[i].Some?
        invariant i <= |completed| && forall j :: 0 <= j < i ==> completed[j].Some?
      {
        i := i + 1;
      }
      if i < |completed| {
        assert completed[i] in completed;
        return P.Assembled.Pending;
      }
      reassembly := reassembly - {id};
      reassemblyParts := SaturatingSub(reassemblyParts, |completed|);
      var joined: bytes := [];
      for k := 0 to |completed|
        invariant joined == P.Join(completed[..k])
      {
        assert completed[..k + 1][..k] == completed[..k];
        joined := joined + completed[k].value;
      }
      assert completed[..|completed|] == completed;
      reassemblyBytes := SaturatingSub(reassemblyBytes, |joined|);
      result := P.Complete(joined);
    }

    // ---- Receiving ----

    /** Enters a new index in the reliable window and forgets the oldest ones beyond its limit. */
    method AdmitReliable(index: u24)
      modifies `seenReliable, `seenReliableOrder
      ensures P.Window(seenReliable, seenReliableOrder) ==
              P.Admit(old(P.Window(seenReliable, seenReliableOrder)), index, WindowLimit(budgets))
    {
      seenReliable := seenReliable + {index};
      seenReliableOrder := seenReliableOrder + [index];
      ghost var grown := P.Window(seenReliable, seenReliableOrder);
      var limit := WindowLimit(budgets);
      while |seenReliableOrder| > limit
        invariant P.Evict(grown, limit) == P.Evict(P.Window(seenReliable, seenReliableOrder), limit)
      {
        var expired := seenReliableOrder[0];
        seenReliableOrder := seenReliableOrder[1..];
        seenReliable := seenReliable - {expired};
      }
    }

    method AdmitDatagram(sequence: u24)
      modifies `seenDatagrams, `seenDatagramOrder
      ensures P.Window(seenDatagrams, seenDatagramOrder) ==
              P.Admit(old(P.Window(seenDatagrams, seenDatagramOrder)), sequence, WindowLimit(budgets))
    {
      seenDatagrams := seenDatagrams + {sequence};
      seenDatagramOrder := seenDatagramOrder + [sequence];
      ghost var grown := P.Window(seenDatagrams, seenDatagramOrder);
      var limit := WindowLimit(budgets);
      while |seenDatagramOrder| > limit
        invariant P.Evict(grown, limit) == P.Evict(P.Window(seenDatagrams, seenDatagramOrder), limit)
      {
        var expired := seenDatagramOrder[0];
        seenDatagramOrder := seenDatagramOrder[1..];
        seenDatagrams := seenDatagrams - {expired};
      }
    }

    method DeliverImmediate(payload: bytes, env: P.Env) returns (error: Option<RakNetError>)
      modifies this
      ensures P.Outcome(View(), error) == P.Deliver(old(View()), P.Immediate(payload), env)
    {
      delivered := delivered + [P.Immediate(payload)];
      error := DeliverPayload(payload, env);
    }

    method Dispatch(f: Frame, env: P.Env) returns (error: Option<RakNetError>)
      modifies this
      ensures P.Outcome(View(), error) == P.Dispatch(old(View()), f, env)
    {
      if f.reliability.IsSequenced() {
        if f.sequenceIndex.None? {
          return Some(RakNetError.Wire);
        }
        var sequence := f.sequenceIndex.value;
        if f.orderChannel in sequencedLatest && !IsNewer(sequence, sequencedLatest[f.orderChannel]) {
          return None;
        }
        sequencedLatest := sequencedLatest[f.orderChannel := sequence];
        error := DeliverImmediate(f.payload, env);
      } else if f.reliability.IsOrdered() {
        if f.orderIndex.None? {
          return Some(RakNetError.Wire);
        }
        error := AcceptOrdered(f.orderChannel, f.orderIndex.value, f.payload, env);
      } else {
        error := DeliverImmediate(f.payload, env);
      }
    }

    method ReceiveFrame(f: Frame, env: P.Env) returns (error: Option<RakNetError>)
      modifies this
      ensures P.Outcome(View(), error) == P.ReceiveFrame(old(View()), f, env)
    {
      if f.reliableIndex.Some? {
        if f.reliableIndex.value in seenReliable {
          return None;
        }
        AdmitReliable(f.reliableIndex.value);
      }
      error := Reassemble(f, env);
    }

    method Reassemble(f: Frame, env: P.Env) returns (error: Option<RakNetError>)
      modifies this
      ensures P.Outcome(View(), error) == P.Reassemble(old(View()), f, env)
    {
      if f.split.None? {
        error := Dispatch(f, env);
        return;
      }
      var result := AcceptFragment(f.split.value, f.payload);
      match result
      case Pending => error := None;
      case Refused(e) => error := Some(e);
      case Complete(payload) => error := Dispatch(f.(split := None, payload := payload), env);
    }

    method Emit(datagram: bytes)
      modifies `output
      ensures View() == P.Emit(old(View()), datagram)
    {
      output := output + [datagram];
    }

    method Register(sequence: u24)
      modifies `seenDatagrams, `seenDatagramOrder, `lastDatagram, `output
      ensures View() == P.Register(old(View()), sequence)
    {
      Emit(EncodeAck(sequence));
      if sequence in seenDatagrams {
        return;
      }
      AdmitDatagram(sequence);
      NoteGap(sequence);
    }

    method NoteGap(sequence: u24)
      modifies `lastDatagram, `output
      ensures View() == P.NoteGap(old(View()), sequence)
    {
      if lastDatagram.Some? {
        var previous := lastDatagram.value;
        if IsNewer(sequence, previous) {
          if Distance(sequence, previous) > 1 {
            Emit(EncodeNack(Next(previous), Previous(sequence)));
          }
          lastDatagram := Some(sequence);
        }
      } else {
        lastDatagram := Some(sequence);
      }
    }

    method ReceiveFrames(frames: seq<Frame>, env: P.Env) returns (error: Option<RakNetError>)
      modifies this
      ensures P.Outcome(View(), error) == P.ReceiveFrames(old(View()), frames, env)
    {
      for i := 0 to |frames|
        invariant P.ReceiveFrames(old(View()), frames, env) == P.ReceiveFrames(View(), frames[i..], env)
      {
        assert frames[i..][1..] == frames[i + 1..];
        error := ReceiveFrame(frames[i], env);
        if error.Some? {
          return;
        }
      }
      error := None;
    }

    method Observe(at: P.Instant)
      modifies `lastObserved
      ensures View() == P.Observe(old(View()), at)
    {
      if at > lastObserved {
        lastObserved := at;
      }
    }

    method ReceiveDatagram(datagram: bytes, env: P.Env) returns (error: Option<RakNetError>)
      modifies this
      ensures P.Outcome(View(), error) == P.ReceiveDatagram(old(View()), datagram, env)
    {
      Observe(env.now);
      var acknowledgement := WireReader.DecodeAcknowledgement(datagram);
      if acknowledgement.Err? {
        return Some(acknowledgement.error);
      }
      if acknowledgement.value.Some? {
        error := ApplyAcknowledgement(acknowledgement.value.value, env);
        return;
      }
      var decoded := WireReader.DecodeDatagram(datagram, budgets);
      if decoded.Err? {
        return Some(decoded.error);
      }
      var d := decoded.value;
      var repeated := d.sequence in seenDatagrams;
      Register(d.sequence);
      if repeated {
        return None;
      }
      error := ReceiveFrames(d.frames, env);
    }

    method SendApplication(payload: bytes, env: P.Env) returns (error: Option<RakNetError>)
      modifies `nextDatagram, `nextReliable, `nextOrdered, `nextSplitId, `unacked, `output, `sent
      ensures P.Outcome(View(), error) == P.SendApplication(old(View()), payload, env)
    {
      if !accepted {
        return Some(RakNetError.Wire);
      }
      if |payload| > budgets.maxPayloadBytes {
        return Some(BudgetExceeded(|payload|, budgets.maxPayloadBytes));
      }
      error := Respond(payload, env);
    }

    // ---- Freezing, resuming and running ----

    method ResumeTimers(since: P.Instant, now: P.Instant)
      modifies `lastObserved, `unacked
      ensures View() == X.ResumeTimers(old(View()), since, now)
    {
      lastObserved := S.Rewind(now, SaturatingSub(since, lastObserved));
      unacked := map s | s in unacked :: X.ResumeUnacked(unacked[s], since, now);
    }

    method TakeSnapshot(now: P.Instant) returns (s: S.PeerSnapshot)
      ensures s == S.TakeSnapshot(View(), now)
    {
      var pending := ListUnacked(unacked, now);
      var assemblies := ListAssemblies(reassembly);
      var held := ListHeld(orderedHoldback);
      var expected := ListChannels(orderedExpected);
      var latest := ListChannels(sequencedLatest);
      var datagrams := FromSequences(seenDatagramOrder);
      var reliable := FromSequences(seenReliableOrder);
      s := S.PeerSnapshot(remoteAddr, mtu, accepted, nextDatagram, nextReliable, nextOrdered, nextSplitId, lastDatagram,
                          datagrams, reliable, expected, latest, inbox, pending, assemblies, held,
                          S.Remaining(P.PEER_TIMEOUT, lastObserved, now));
    }

    /** Rebuilds the actor from an admitted checkpoint and the indexes admission built from it. */
    constructor FromValidatedSnapshot(s: S.PeerSnapshot, datagrams: set<u24>, reliable: set<u24>,
                                      budgets: Budgets, at: P.Instant, ghost logs: S.Logs)
      requires S.SumBytes(s.reassembly) <= budgets.maxReassemblyBytes
      requires S.SumParts(s.reassembly) <= budgets.maxReassemblyParts
      requires datagrams == S.RestoreWindow(s.seenDatagrams).index
      requires reliable == S.RestoreWindow(s.seenReliable).index
      ensures View() == S.Restore(s, budgets, at, logs)
    {
      remoteAddr, mtu, this.budgets := s.remoteAddr, s.mtu, budgets;
      accepted, nextDatagram, nextReliable := s.accepted, s.nextDatagram, s.nextReliable;
      nextOrdered, nextSplitId, lastDatagram := s.nextOrdered, s.nextSplitId, s.lastDatagram;
      seenDatagrams, seenDatagramOrder := datagrams, Sequences(s.seenDatagrams);
      seenReliable, seenReliableOrder := reliable, Sequences(s.seenReliable);
      orderedExpected := Sorting.Collect<byte, u24>(S.Channels(s.orderedExpected), S.Indexes(s.orderedExpected));
      sequencedLatest := Sorting.Collect<byte, u24>(S.Channels(s.sequencedLatest), S.Indexes(s.sequencedLatest));
      orderedHoldback := Sorting.Collect<(byte, u24), bytes>(S.HeldKeys(s.holdback), S.HeldPayloads(s.holdback));
      reassemblyBytes, reassemblyParts := S.SumBytes(s.reassembly), S.SumParts(s.reassembly);
      reassembly := Sorting.Collect<u16, P.Parts>(S.SplitIds(s.reassembly), S.SplitParts(s.reassembly));
      unacked := Sorting.Collect<u24, P.Unacked>(S.UnackedKeys(s.unacked), S.UnackedValues(s.unacked, at));
      inbox := s.queued;
      lastObserved := S.Rewind(at, SaturatingSub(P.PEER_TIMEOUT, s.timeoutRemaining));
      output, sent, delivered := logs.output, logs.sent, logs.delivered;
    }

    /** The application takes the oldest queued payload. */
    method Consume()
      modifies `inbox
      ensures View() == P.Step(old(View()), P.Consume).peer
    {
      if inbox != [] {
        inbox := inbox[1..];
      }
    }

    /** The actor loop over whatever its queues and timer offer, one input at a time. */
    method RunWithState(inputs: seq<X.Input>, initial: X.Mode)
      returns (execution: X.Mode, deferred: seq<bytes>, stopped: bool, replies: seq<X.Reply>, ghost actor: X.Actor)
      modifies this
      ensures actor == X.Loop(X.NewActor(old(View()), initial), inputs)
      ensures View() == actor.peer && execution == actor.mode && deferred == actor.deferred
      ensures stopped == actor.stopped && replies == actor.replies
    {
      execution, deferred, stopped, replies := initial, [], false, [];
      actor := X.NewActor(View(), initial);
      for i := 0 to |inputs|
        invariant actor == X.Loop(X.NewActor(old(View()), initial), inputs[..i])
        invariant View() == actor.peer && execution == actor.mode && deferred == actor.deferred
        invariant stopped == actor.stopped && replies == actor.replies
      {
        assert inputs[..i + 1][..i] == inputs[..i];
        ghost var before := actor;
        actor := X.LoopStep(actor, inputs[i]);
        var answer;
        execution, deferred, stopped, answer := Iterate(inputs[i], execution, deferred, stopped, before);
        replies := replies + answer;
      }
      assert inputs[..|inputs|] == inputs;
    }

    /** One iteration of the loop; `answer` is what it replies, if anything. */
    method Iterate(input: X.Input, mode: X.Mode, queue: seq<bytes>, halted: bool, ghost a: X.Actor)
      returns (execution: X.Mode, deferred: seq<bytes>, stopped: bool, answer: seq<X.Reply>)
      requires View() == a.peer && mode == a.mode && queue == a.deferred && halted == a.stopped
      modifies this
      ensures
        var r := X.LoopStep(a, input);
        && View() == r.peer && execution == r.mode && deferred == r.deferred && stopped == r.stopped
        && r.replies == a.replies + answer
    {
      execution, deferred, stopped, answer := mode, queue, halted, [];
      if input.Admitted? {
        Observe(input.at);
      } else if input.Collected? {
        Consume();
      } else if !stopped {
        if execution.Frozen? {
          if input.Order? {
            execution, deferred, stopped, answer :=
                FrozenCommand(input.command, input.env, execution.since, deferred, a);
          }
        } else if deferred != [] {
          if input.Proceed? {
            var payload := deferred[0];
            deferred := deferred[1..];
            var error := SendApplication(payload, input.env);
            stopped, answer := error.Some?, [X.SendReply(error)];
          }
        } else if input.Order? {
          execution, stopped, answer := ApplyCommand(input.command, input.env, execution, a);
        } else if input.Ingress? {
          var error := ReceiveDatagram(input.datagram, input.env);
          stopped := error.Some?;
        } else if input.TimerFires? {
          var error := OnTimer(input.env);
          stopped := error.Some?;
        }
      }
      assert a.replies + [] == a.replies;
    }

    /** A command to a frozen actor, with the reply it gets. */
    method FrozenCommand(command: X.Command, env: P.Env, since: P.Instant, queue: seq<bytes>, ghost a: X.Actor)
      returns (execution: X.Mode, deferred: seq<bytes>, stopped: bool, answer: seq<X.Reply>)
      requires View() == a.peer && a.mode == X.Frozen(since) && a.deferred == queue && !a.stopped
      modifies `lastObserved, `unacked
      ensures
        var r := X.FrozenCommand(a, since, command, env);
        && View() == r.peer && execution == r.mode && deferred == r.deferred && stopped == r.stopped
        && r.replies == a.replies + answer
    {
      execution, deferred, stopped, answer := X.Frozen(since), queue, false, [];
      match command
      case FreezeCommand => answer := [X.DoneReply];
      case SealCommand =>
        var sealed := TakeSnapshot(since);
        answer := [X.SealReply(sealed)];
      case ResumeCommand =>
        ResumeTimers(since, env.now);
        execution := X.Running;
        assert a.replies + [] == a.replies;
      case TransferCommand => stopped, answer := true, [X.DoneReply];
      case SendCommand(payload) =>
        if |deferred| < budgets.peerCommandQueue {
          deferred := deferred + [payload];
          assert a.replies + [] == a.replies;
        } else {
          answer := [X.QueueFullReply];
        }
    }

    /** A command to a running actor, with the reply it gets. */
    method ApplyCommand(command: X.Command, env: P.Env, mode: X.Mode, ghost a: X.Actor)
      returns (execution: X.Mode, stopped: bool, answer: seq<X.Reply>)
      requires View() == a.peer && a.mode == mode && !a.stopped
      modifies `nextDatagram, `nextReliable, `nextOrdered, `nextSplitId, `unacked, `output, `sent
      ensures
        var r := X.ApplyCommand(a, command, env);
        && View() == r.peer && execution == r.mode && stopped == r.stopped && r.deferred == a.deferred
        && r.replies == a.replies + answer
    {
      execution, stopped, answer := mode, false, [];
      match command
      case SendCommand(payload) =>
        var error := SendApplication(payload, env);
        stopped, answer := error.Some?, [X.SendReply(error)];
      case FreezeCommand => execution, answer := X.Frozen(env.now), [X.DoneReply];
      case SealCommand =>
        var sealed := TakeSnapshot(env.now);
        answer := [X.SealReply(sealed)];
      case ResumeCommand => assert a.replies + [] == a.replies;
      case TransferCommand => stopped, answer := true, [X.DoneReply];
    }
  }

  // ---- Listings, in key order ----

  method ListUnacked(m: map<u24, P.Unacked>, now: P.Instant) returns (list: seq<S.UnackedSnapshot>)
    ensures list == S.ListUnacked(m, now)
  {
    assert Sorting.Injective(m.Keys, S.SequenceKey);
    var keys := Sorting.Sort(m.Keys, S.SequenceKey);
    list := S.ListedUnacked(keys, m, now);
  }

  method ListAssemblies(m: map<u16, P.Parts>) returns (list: seq<S.AssemblySnapshot>)
    ensures list == S.ListAssemblies(m)
  {
    assert Sorting.Injective(m.Keys, S.SplitKey);
    var keys := Sorting.Sort(m.Keys, S.SplitKey);
    list := S.ListedAssemblies(keys, m);
  }

  method ListHeld(m: map<(byte, u24), bytes>) returns (list: seq<S.HeldSnapshot>)
    ensures list == S.ListHeld(m)
  {
    assert Sorting.Injective(m.Keys, S.HeldKey);
    var keys := Sorting.Sort(m.Keys, S.HeldKey);
    list := S.ListedHeld(keys, m);
  }

  method ListChannels(m: map<byte, u24>) returns (list: seq<(byte, u24)>)
    ensures list == S.ListChannels(m)
  {
    assert Sorting.Injective(m.Keys, S.ChannelKey);
    var keys := Sorting.Sort(m.Keys, S.ChannelKey);
    list := S.ListedChannels(keys, m);
  }

  lemma ChunkStep(payload: bytes, capacity: nat)
    requires 0 < capacity && payload != []
    ensures
      var n := Min(capacity, |payload|);
      P.Chunks(payload, capacity) == [payload[..n]] + P.Chunks(payload[n..], capacity)
  {
    if |payload| <= capacity {
      assert payload[..|payload|] == payload && payload[|payload|..] == [];
    }
  }

  lemma NextChunk(payload: bytes, capacity: nat, offset: nat, end: nat, i: nat, fragments: seq<bytes>)
    requires 0 < capacity && offset < |payload| && end == Min(offset + capacity, |payload|)
    requires i <= |fragments| && fragments[i..] == P.Chunks(payload[offset..], capacity)
    ensures i < |fragments| && fragments[i] == payload[offset..end]
    ensures fragments[i + 1..] == P.Chunks(payload[end..], capacity)
  {
    var tail := payload[offset..];
    ChunkStep(tail, capacity);
    assert tail[..end - offset] == payload[offset..end] && tail[end - offset..] == payload[end..];
    assert fragments[i] == fragments[i..][0];
    assert fragments[i + 1..] == fragments[i..][1..];
  }
}
