/**
 * Nothing is lost: once every datagram a sender wrote has arrived, in whatever order and however
 * often, the receiver has delivered every message, unless it has stopped.
 *
 * A fragment is named by its message and its index in it. `got` is the set of fragments that have
 * arrived so far.
 */
module Completeness {
  import opened Wrappers
  import opened Bytes
  import opened Sequence
  import opened Budget
  import opened Wire
  import opened Peer
  import opened Reassembly
  import opened D = Delivery

  type FragmentName = (nat, nat)

  // ---- Numbers tell fragments apart ----

  lemma {:induction false} PrefixCounts(sent: seq<bytes>, capacity: nat, j: nat)
    requires 0 < capacity && j <= |sent|
    ensures FrameCount(sent[..j], capacity) <= FrameCount(sent, capacity)
  {
    if j == |sent| {
      assert sent[..j] == sent;
    } else {
      var init := sent[..|sent| - 1];
      PrefixCounts(init, capacity, j);
      assert init[..j] == sent[..j];
    }
  }

  lemma FrameCountGrows(sent: seq<bytes>, capacity: nat, j: nat, k: nat)
    requires 0 < capacity && j <= k <= |sent|
    ensures FrameCount(sent[..j], capacity) <= FrameCount(sent[..k], capacity)
  {
    PrefixCounts(sent[..k], capacity, j);
    assert sent[..k][..j] == sent[..j];
  }

  lemma FrameCountStep(sent: seq<bytes>, capacity: nat, k: nat)
    requires 0 < capacity && k < |sent|
    ensures FrameCount(sent[..k + 1], capacity) == FrameCount(sent[..k], capacity) + |Fragments(sent[k], capacity)|
  {
    assert sent[..k + 1][..k] == sent[..k];
  }

  lemma PlaceIsWithin(sent: seq<bytes>, capacity: nat, k: nat, i: nat)
    requires HasFragment(sent, capacity, k, i)
    ensures Place(sent, capacity, k, i) < FrameCount(sent[..k + 1], capacity) <= FrameCount(sent, capacity)
  {
    FrameCountStep(sent, capacity, k);
    FrameCountGrows(sent, capacity, k + 1, |sent|);
    assert sent[..|sent|] == sent;
  }

  lemma PlaceIsUnique(sent: seq<bytes>, capacity: nat, k: nat, i: nat, j: nat, h: nat)
    requires HasFragment(sent, capacity, k, i) && HasFragment(sent, capacity, j, h)
    requires Place(sent, capacity, k, i) == Place(sent, capacity, j, h)
    ensures k == j && i == h
  {
    PlaceIsWithin(sent, capacity, k, i);
    PlaceIsWithin(sent, capacity, j, h);
    if k < j {
      FrameCountGrows(sent, capacity, k + 1, j);
    } else if j < k {
      FrameCountGrows(sent, capacity, j + 1, k);
    }
  }

  lemma SmallNumbersAreTheirOwn(m: nat, n: nat)
    requires m < MODULUS && n < MODULUS && Wrap(m) == Wrap(n)
    ensures m == n
  {
  }

  /** While the fragments are no more than the numbers, a number names one fragment. */
  lemma NumberIsUnique(sent: seq<bytes>, capacity: nat, k: nat, i: nat, j: nat, h: nat)
    requires HasFragment(sent, capacity, k, i) && HasFragment(sent, capacity, j, h)
    requires FrameCount(sent, capacity) <= MODULUS
    requires Wrap(Place(sent, capacity, k, i)) == Wrap(Place(sent, capacity, j, h))
    ensures k == j && i == h
  {
    PlaceIsWithin(sent, capacity, k, i);
    PlaceIsWithin(sent, capacity, j, h);
    SmallNumbersAreTheirOwn(Place(sent, capacity, k, i), Place(sent, capacity, j, h));
    PlaceIsUnique(sent, capacity, k, i, j, h);
  }

  lemma SequenceShows(s: u24, f: Frame, s': u24, f': Frame)
    requires EncodeDatagram(s, f) == EncodeDatagram(s', f')
    ensures s == s'
  {
    assert EncodeDatagram(s, f)[1..4] == LE24(s) && EncodeDatagram(s', f')[1..4] == LE24(s');
    LE24RoundTrip(s);
    LE24RoundTrip(s');
  }

  lemma DatagramIsUnique(sent: seq<bytes>, capacity: nat, k: nat, i: nat, j: nat, h: nat)
    requires HasFragment(sent, capacity, k, i) && HasFragment(sent, capacity, j, h)
    requires FrameCount(sent, capacity) <= MODULUS
    requires DatagramOf(sent, capacity, k, i) == DatagramOf(sent, capacity, j, h)
    ensures k == j && i == h
  {
    SequenceShows(Wrap(Place(sent, capacity, k, i)), FrameOf(sent, capacity, k, i),
                  Wrap(Place(sent, capacity, j, h)), FrameOf(sent, capacity, j, h));
    NumberIsUnique(sent, capacity, k, i, j, h);
  }

  // ---- What has arrived, and what the receiver made of it ----

  /** `s` is the number of fragment i of message k. */
  ghost predicate Numbers(s: u24, sent: seq<bytes>, capacity: nat, k: nat, i: nat) {
    HasFragment(sent, capacity, k, i) && s == Wrap(Place(sent, capacity, k, i))
  }

  /** Every number in the window is the number of a fragment that arrived. */
  ghost predicate Seen(index: set<u24>, sent: seq<bytes>, capacity: nat, got: iset<FragmentName>) {
    forall s: u24 :: s in index ==> exists k: nat, i: nat :: (k, i) in got && Numbers(s, sent, capacity, k, i)
  }

  ghost predicate AllGot(got: iset<FragmentName>, k: nat, count: nat) {
    forall i: nat :: i < count ==> (k, i) in got
  }

  /** Message k is delivered, or waits for an earlier one. */
  ghost predicate Handed(o: Ordering, delivered: seq<Delivery>, k: nat) {
    k < |delivered| || (0, Wrap(k)) in o.holdback
  }

  ghost predicate NothingDue(o: Ordering) { (0, Expected(o, 0)) !in o.holdback }

  /** A split message's assembly holds only what arrived and, until all has arrived, everything that did. */
  ghost predicate CollectedFor(a: Assemblies, sent: seq<bytes>, capacity: nat, got: iset<FragmentName>, k: nat)
    requires 0 < capacity && k < |sent|
  {
    var id, count := k % 0x1_0000, |Fragments(sent[k], capacity)|;
    && (id in a.pending ==>
          && |a.pending[id]| == count
          && forall i: nat :: i < count && a.pending[id][i].Some? ==> (k, i) in got)
    && (!AllGot(got, k, count) ==>
          forall i: nat :: i < count && (k, i) in got ==> id in a.pending && a.pending[id][i].Some?)
  }

  ghost predicate Collected(a: Assemblies, sent: seq<bytes>, capacity: nat, got: iset<FragmentName>) {
    0 < capacity ==> forall k: nat :: k < |sent| && capacity < |sent[k]| ==> CollectedFor(a, sent, capacity, got, k)
  }

  ghost predicate AllHanded(o: Ordering, delivered: seq<Delivery>, sent: seq<bytes>, capacity: nat,
                            got: iset<FragmentName>)
  {
    0 < capacity ==>
      forall k: nat :: k < |sent| && AllGot(got, k, |Fragments(sent[k], capacity)|) ==> Handed(o, delivered, k)
  }

  /** Every message all of whose fragments arrived has been delivered or waits for an earlier one. */
  ghost predicate Progress(p: Peer, sent: seq<bytes>, capacity: nat, got: iset<FragmentName>) {
    Seen(p.datagrams.index, sent, capacity, got) && FrameProgress(p, sent, capacity, got)
  }

  ghost predicate FrameProgress(p: Peer, sent: seq<bytes>, capacity: nat, got: iset<FragmentName>) {
    && Seen(p.reliable.index, sent, capacity, got)
    && Collected(p.assemblies, sent, capacity, got)
    && AllHanded(p.ordering, p.delivered, sent, capacity, got)
    && NothingDue(p.ordering)
  }

  /** Few enough messages and fragments for every number to mean one thing. */
  ghost predicate Numberable(sent: seq<bytes>, capacity: nat) {
    0 < capacity && |sent| <= HALF_RANGE && FrameCount(sent, capacity) <= MODULUS
  }

  // ---- Windows ----

  lemma {:induction false} EvictShrinks(w: Window, limit: usize)
    ensures Evict(w, limit).index <= w.index
    decreases |w.order|
  {
    if |w.order| > limit {
      EvictShrinks(Window(w.index - {w.order[0]}, w.order[1..]), limit);
    }
  }

  lemma AdmitSeen(w: Window, limit: usize, sent: seq<bytes>, capacity: nat, got: iset<FragmentName>, k: nat, i: nat)
    requires Seen(w.index, sent, capacity, got) && HasFragment(sent, capacity, k, i)
    ensures Seen(Admit(w, Wrap(Place(sent, capacity, k, i)), limit).index, sent, capacity, got + iset{(k, i)})
  {
    var s := Wrap(Place(sent, capacity, k, i));
    EvictShrinks(Window(w.index + {s}, w.order + [s]), limit);
    assert Numbers(s, sent, capacity, k, i);
    SeenGrows(w.index, sent, capacity, got, got + iset{(k, i)});
  }

  lemma SeenGrows(index: set<u24>, sent: seq<bytes>, capacity: nat, got: iset<FragmentName>, got': iset<FragmentName>)
    requires Seen(index, sent, capacity, got) && got <= got'
    ensures Seen(index, sent, capacity, got')
  {
  }

  /** A number already in the window is a fragment that already arrived. */
  lemma RepeatWasGot(index: set<u24>, sent: seq<bytes>, capacity: nat, got: iset<FragmentName>, k: nat, i: nat)
    requires Seen(index, sent, capacity, got) && HasFragment(sent, capacity, k, i)
    requires FrameCount(sent, capacity) <= MODULUS && Wrap(Place(sent, capacity, k, i)) in index
    ensures got + iset{(k, i)} == got
  {
    var s := Wrap(Place(sent, capacity, k, i));
    var j: nat, h: nat :| (j, h) in got && Numbers(s, sent, capacity, j, h);
    NumberIsUnique(sent, capacity, k, i, j, h);
    assert (k, i) in got;
  }

  // ---- Ordered channels ----

  /** From one state to the other no message is lost. */
  ghost predicate KeepsHanded(p: Peer, q: Peer, count: nat) {
    forall m: nat :: m < count && Handed(p.ordering, p.delivered, m) ==> Handed(q.ordering, q.delivered, m)
  }

  lemma {:induction false} DrainHands(p: Peer, sent: seq<bytes>, env: Env)
    requires OrderOk(p.ordering, p.delivered, sent) && |sent| <= HALF_RANGE
    ensures
      var r := Drain(p, 0, env);
      r.error.None? ==> KeepsHanded(p, r.peer, |sent|) && NothingDue(r.peer.ordering)
    decreases |p.ordering.holdback|
  {
    var index := Expected(p.ordering, 0);
    if (0, index) in p.ordering.holdback {
      RemoveShrinks(p.ordering.holdback, (0, index));
      var payload := p.ordering.holdback[(0, index)];
      var p1 := p.(ordering := p.ordering.(holdback := p.ordering.holdback - {(0, index)}));
      var r := DeliverInOrder(p1, 0, index, payload, env);
      DrainOne(p, r.peer, sent, index);
      if r.error.None? {
        DrainHands(r.peer, sent, env);
        HandedTrans(p, r.peer, Drain(r.peer, 0, env).peer, |sent|);
      }
    }
  }

  lemma HandedTrans(p: Peer, q: Peer, r: Peer, count: nat)
    requires KeepsHanded(p, q, count)
    ensures KeepsHanded(q, r, count) ==> KeepsHanded(p, r, count)
  {
  }

  /** Delivering the message that is due. */
  lemma DrainOne(p: Peer, q: Peer, sent: seq<bytes>, index: u24)
    requires OrderOk(p.ordering, p.delivered, sent) && |sent| <= HALF_RANGE
    requires index == Expected(p.ordering, 0) && (0, index) in p.ordering.holdback
    requires q.ordering == Ordering(p.ordering.expected[0 := Next(index)], p.ordering.holdback - {(0, index)})
    requires q.delivered == p.delivered + [InOrder(0, index, p.ordering.holdback[(0, index)])]
    ensures OrderOk(q.ordering, q.delivered, sent) && KeepsHanded(p, q, |sent|)
  {
    DueMessage(p, q, sent, index);
    TakenOutIsDelivered(p, q, sent);
  }

  lemma TakenOutIsDelivered(p: Peer, q: Peer, sent: seq<bytes>)
    requires OrderOk(p.ordering, p.delivered, sent) && |sent| <= HALF_RANGE
    requires q.ordering.holdback == p.ordering.holdback - {(0, Expected(p.ordering, 0))}
    requires |q.delivered| == |p.delivered| + 1
    ensures KeepsHanded(p, q, |sent|)
  {
  }

  /** An accepted message is delivered or held, and none before it is lost. */
  lemma OrderedHands(p: Peer, sent: seq<bytes>, k: nat, env: Env)
    requires OrderOk(p.ordering, p.delivered, sent) && k < |sent| <= HALF_RANGE && NothingDue(p.ordering)
    ensures
      var r := AcceptOrdered(p, 0, Wrap(k), sent[k], env);
      r.error.None? ==>
        Handed(r.peer.ordering, r.peer.delivered, k) && KeepsHanded(p, r.peer, |sent|) && NothingDue(r.peer.ordering)
  {
    var expected := Expected(p.ordering, 0);
    var p1 := p.(ordering := p.ordering.(expected := p.ordering.expected[0 := expected]));
    if Wrap(k) == expected {
      ExpectedHands(p1, sent, k, env);
    } else {
      OldOrHeld(p1, sent, k);
    }
  }

  /** What is neither expected nor newer was delivered before; what is newer is held. */
  lemma OldOrHeld(p: Peer, sent: seq<bytes>, k: nat)
    requires OrderOk(p.ordering, p.delivered, sent) && k < |sent| <= HALF_RANGE && Wrap(k) != Expected(p.ordering, 0)
    ensures !IsNewer(Wrap(k), Expected(p.ordering, 0)) ==> k < |p.delivered|
    ensures
      var q := p.(ordering := p.ordering.(holdback := p.ordering.holdback[(0, Wrap(k)) := sent[k]]));
      Handed(q.ordering, q.delivered, k) && KeepsHanded(p, q, |sent|)
  {
  }

  lemma ExpectedHands(p: Peer, sent: seq<bytes>, k: nat, env: Env)
    requires OrderOk(p.ordering, p.delivered, sent) && k < |sent| <= HALF_RANGE && Wrap(k) == Expected(p.ordering, 0)
    ensures
      var r := DeliverInOrder(p, 0, Wrap(k), sent[k], env);
      var d := Drain(r.peer, 0, env);
      r.error.None? && d.error.None? ==>
        Handed(d.peer.ordering, d.peer.delivered, k) && KeepsHanded(p, d.peer, |sent|) && NothingDue(d.peer.ordering)
  {
    var q := DeliverInOrder(p, 0, Wrap(k), sent[k], env).peer;
    NotHeld(p.ordering, p.delivered, sent, k);
    DeliveredIsHanded(p, q, sent, k);
    DrainHands(q, sent, env);
  }

  lemma DeliveredIsHanded(p: Peer, q: Peer, sent: seq<bytes>, k: nat)
    requires OrderOk(p.ordering, p.delivered, sent) && k < |sent| <= HALF_RANGE && Wrap(k) == Expected(p.ordering, 0)
    requires q.ordering.holdback == p.ordering.holdback && |q.delivered| == |p.delivered| + 1
    ensures Handed(q.ordering, q.delivered, k) && KeepsHanded(p, q, |sent|)
  {
    SmallNumbersAreTheirOwn(k, |p.delivered|);
  }

  // ---- Assemblies ----

  /** Storing fragment i of message k in its open assembly. */
  lemma StoreCollects(a: Assemblies, sent: seq<bytes>, capacity: nat, got: iset<FragmentName>, k: nat, i: nat,
                      b: Budgets)
    requires HasFragment(sent, capacity, k, i) && k % 0x1_0000 in a.pending && CollectedFor(a, sent, capacity, got, k)
    ensures
      var count, payload := |Fragments(sent[k], capacity)|, Fragments(sent[k], capacity)[i];
      var (a', result) := Store(a, k % 0x1_0000, i, payload, b);
      !result.Refused? ==>
        && CollectedFor(a', sent, capacity, got + iset{(k, i)}, k)
        && a'.pending - {k % 0x1_0000} == a.pending - {k % 0x1_0000}
        && (AllGot(got + iset{(k, i)}, k, count) && !AllGot(got, k, count) ==> result.Complete?)
  {
    var id, count := k % 0x1_0000, |Fragments(sent[k], capacity)|;
    var parts := a.pending[id];
    var updated := if parts[i].Some? then parts else parts[i := Some(Fragments(sent[k], capacity)[i])];
    var got' := got + iset{(k, i)};
    assert forall h: nat :: h < count && updated[h].Some? ==> (k, h) in got';
    assert !AllGot(got, k, count) ==> forall h: nat :: h < count && (k, h) in got' ==> updated[h].Some?;
    assert AllGot(got', k, count) && !AllGot(got, k, count) ==> AllPresent(updated);
    if AllPresent(updated) {
      forall h: nat | h < count ensures (k, h) in got' { assert updated[h] in updated; }
    }
  }

  lemma FragmentCollects(a: Assemblies, sent: seq<bytes>, capacity: nat, got: iset<FragmentName>, k: nat, i: nat,
                         b: Budgets)
    requires HasFragment(sent, capacity, k, i) && CollectedFor(a, sent, capacity, got, k)
    ensures
      var count, payload := |Fragments(sent[k], capacity)|, Fragments(sent[k], capacity)[i];
      var (a', result) := AcceptFragment(a, SplitHeader(count, k % 0x1_0000, i), payload, b);
      !result.Refused? ==>
        && CollectedFor(a', sent, capacity, got + iset{(k, i)}, k)
        && a'.pending - {k % 0x1_0000} == a.pending - {k % 0x1_0000}
        && (AllGot(got + iset{(k, i)}, k, count) && !AllGot(got, k, count) ==> result.Complete?)
  {
    var id, count := k % 0x1_0000, |Fragments(sent[k], capacity)|;
    var a1 := Open(a, id, count);
    assert a1.pending - {id} == a.pending - {id};
    assert CollectedFor(a1, sent, capacity, got, k);
    StoreCollects(a1, sent, capacity, got, k, i, b);
  }

  /** What happens under one split id is no concern of the other split messages. */
  lemma OthersCollected(a: Assemblies, a': Assemblies, sent: seq<bytes>, capacity: nat, got: iset<FragmentName>,
                        k: nat, i: nat)
    requires 0 < capacity && k < |sent| && capacity < |sent[k]| && SplitIdsDistinct(sent, capacity)
    requires Collected(a, sent, capacity, got) && CollectedFor(a', sent, capacity, got + iset{(k, i)}, k)
    requires a'.pending - {k % 0x1_0000} == a.pending - {k % 0x1_0000}
    ensures Collected(a', sent, capacity, got + iset{(k, i)})
  {
    forall j: nat | j < |sent| && capacity < |sent[j]| ensures CollectedFor(a', sent, capacity, got + iset{(k, i)}, j) {
      if j != k {
        OtherCollected(a, a', sent, capacity, got, k, i, j);
      }
    }
  }

  lemma OtherCollected(a: Assemblies, a': Assemblies, sent: seq<bytes>, capacity: nat, got: iset<FragmentName>,
                       k: nat, i: nat, j: nat)
    requires 0 < capacity && k < |sent| && j < |sent| && k % 0x1_0000 != j % 0x1_0000
    requires CollectedFor(a, sent, capacity, got, j)
    requires a'.pending - {k % 0x1_0000} == a.pending - {k % 0x1_0000}
    ensures CollectedFor(a', sent, capacity, got + iset{(k, i)}, j)
  {
    var id := j % 0x1_0000;
    assert id in a'.pending <==> id in a'.pending - {k % 0x1_0000};
    assert id in a.pending <==> id in a.pending - {k % 0x1_0000};
    assert id in a.pending ==> (a'.pending - {k % 0x1_0000})[id] == (a.pending - {k % 0x1_0000})[id];
    assert AllGot(got + iset{(k, i)}, j, |Fragments(sent[j], capacity)|) <==>
           AllGot(got, j, |Fragments(sent[j], capacity)|);
  }

  // ---- One frame, one datagram ----

  lemma NowHanded(p: Peer, q: Peer, sent: seq<bytes>, capacity: nat, got: iset<FragmentName>, k: nat, i: nat)
    requires 0 < capacity && k < |sent| && AllHanded(p.ordering, p.delivered, sent, capacity, got)
    requires KeepsHanded(p, q, |sent|)
    requires
      var count := |Fragments(sent[k], capacity)|;
      AllGot(got + iset{(k, i)}, k, count) && !AllGot(got, k, count) ==> Handed(q.ordering, q.delivered, k)
    ensures AllHanded(q.ordering, q.delivered, sent, capacity, got + iset{(k, i)})
  {
    forall m: nat | m < |sent| && AllGot(got + iset{(k, i)}, m, |Fragments(sent[m], capacity)|)
      ensures Handed(q.ordering, q.delivered, m)
    {
      if m != k {
        assert AllGot(got, m, |Fragments(sent[m], capacity)|);
      }
    }
  }

  lemma WholeCounts(p: Peer, f: Frame, sent: seq<bytes>, capacity: nat, got: iset<FragmentName>, k: nat, i: nat,
                    env: Env)
    requires OrderOk(p.ordering, p.delivered, sent) && Numberable(sent, capacity) && k < |sent|
    requires f.reliability.ReliableOrdered? && f.orderIndex == Some(Wrap(k)) && f.orderChannel == 0
    requires f.payload == sent[k] && NothingDue(p.ordering)
    requires AllHanded(p.ordering, p.delivered, sent, capacity, got)
    ensures
      var r := Dispatch(p, f, env);
      r.error.None? ==>
        && AllHanded(r.peer.ordering, r.peer.delivered, sent, capacity, got + iset{(k, i)})
        && NothingDue(r.peer.ordering)
        && r.peer.assemblies == p.assemblies && r.peer.reliable == p.reliable && r.peer.datagrams == p.datagrams
  {
    OrderedHands(p, sent, k, env);
    var r := Dispatch(p, f, env);
    assert r == AcceptOrdered(p, 0, Wrap(k), sent[k], env);
    if r.error.None? {
      NowHanded(p, r.peer, sent, capacity, got, k, i);
    }
  }

  lemma UnsplitCollected(a: Assemblies, sent: seq<bytes>, capacity: nat, got: iset<FragmentName>, k: nat, i: nat)
    requires 0 < capacity && k < |sent| && |sent[k]| <= capacity && Collected(a, sent, capacity, got)
    ensures Collected(a, sent, capacity, got + iset{(k, i)})
  {
    forall j: nat | j < |sent| && capacity < |sent[j]| ensures CollectedFor(a, sent, capacity, got + iset{(k, i)}, j) {
      assert CollectedFor(a, sent, capacity, got, j);
      assert AllGot(got + iset{(k, i)}, j, |Fragments(sent[j], capacity)|) <==>
             AllGot(got, j, |Fragments(sent[j], capacity)|);
    }
  }

  lemma UnsplitFrameCounts(p: Peer, sent: seq<bytes>, capacity: nat, got: iset<FragmentName>, k: nat, i: nat, env: Env)
    requires ReceiverOk(p, sent, capacity) && Numberable(sent, capacity) && HasFragment(sent, capacity, k, i)
    requires |Fragments(sent[k], capacity)| == 1
    requires Collected(p.assemblies, sent, capacity, got) && NothingDue(p.ordering)
    requires AllHanded(p.ordering, p.delivered, sent, capacity, got)
    ensures
      var r := Reassemble(p, FrameOf(sent, capacity, k, i), env);
      r.error.None? ==>
        && AllHanded(r.peer.ordering, r.peer.delivered, sent, capacity, got + iset{(k, i)})
        && NothingDue(r.peer.ordering) && Collected(r.peer.assemblies, sent, capacity, got + iset{(k, i)})
        && r.peer.reliable == p.reliable && r.peer.datagrams == p.datagrams
  {
    SplitMeansLong(sent[k], capacity);
    OneFragmentIsAll(sent[k], capacity);
    WholeCounts(p, FrameOf(sent, capacity, k, i), sent, capacity, got, k, i, env);
    UnsplitCollected(p.assemblies, sent, capacity, got, k, i);
  }

  lemma OneFragmentIsAll(payload: bytes, capacity: nat)
    requires 0 < capacity && |Fragments(payload, capacity)| == 1
    ensures Fragments(payload, capacity)[0] == payload
  {
    var fragments := Fragments(payload, capacity);
    FragmentsConcat(payload, capacity);
    assert fragments == [fragments[0]];
    assert Concat(fragments) == Concat([]) + fragments[0];
  }

  lemma SplitFrameCounts(p: Peer, sent: seq<bytes>, capacity: nat, got: iset<FragmentName>, k: nat, i: nat, env: Env)
    requires ReceiverOk(p, sent, capacity) && Deliverable(sent, capacity) && Numberable(sent, capacity)
    requires HasFragment(sent, capacity, k, i) && 1 < |Fragments(sent[k], capacity)|
    requires Collected(p.assemblies, sent, capacity, got) && NothingDue(p.ordering)
    requires AllHanded(p.ordering, p.delivered, sent, capacity, got)
    ensures
      var r := Reassemble(p, FrameOf(sent, capacity, k, i), env);
      r.error.None? ==>
        && AllHanded(r.peer.ordering, r.peer.delivered, sent, capacity, got + iset{(k, i)})
        && NothingDue(r.peer.ordering) && Collected(r.peer.assemblies, sent, capacity, got + iset{(k, i)})
        && r.peer.reliable == p.reliable && r.peer.datagrams == p.datagrams
  {
    var f, count := FrameOf(sent, capacity, k, i), |Fragments(sent[k], capacity)|;
    assert f.split == Some(SplitHeader(count, k % 0x1_0000, i));
    FragmentIsTaken(p.assemblies, sent, capacity, got, k, i, p.budgets);
    AssembledCounts(p, f, sent, capacity, got, k, i, env);
  }

  lemma FragmentIsTaken(a: Assemblies, sent: seq<bytes>, capacity: nat, got: iset<FragmentName>, k: nat, i: nat,
                        b: Budgets)
    requires PendingOk(a, sent, capacity) && SplitIdsDistinct(sent, capacity) && Collected(a, sent, capacity, got)
    requires HasFragment(sent, capacity, k, i) && 1 < |Fragments(sent[k], capacity)|
    ensures
      var count, payload := |Fragments(sent[k], capacity)|, Fragments(sent[k], capacity)[i];
      var (a', result) := AcceptFragment(a, SplitHeader(count, k % 0x1_0000, i), payload, b);
      !result.Refused? ==>
        && Collected(a', sent, capacity, got + iset{(k, i)})
        && (AllGot(got + iset{(k, i)}, k, count) && !AllGot(got, k, count) ==> result.Complete?)
        && (result.Complete? ==> result.payload == sent[k])
  {
    SplitMeansLong(sent[k], capacity);
    var count, payload := |Fragments(sent[k], capacity)|, Fragments(sent[k], capacity)[i];
    var (a', result) := AcceptFragment(a, SplitHeader(count, k % 0x1_0000, i), payload, b);
    FragmentCollects(a, sent, capacity, got, k, i, b);
    FragmentArrives(a, sent, capacity, k, i, b);
    if !result.Refused? {
      OthersCollected(a, a', sent, capacity, got, k, i);
    }
  }

  lemma AssembledCounts(p: Peer, f: Frame, sent: seq<bytes>, capacity: nat, got: iset<FragmentName>, k: nat, i: nat,
                        env: Env)
    requires OrderOk(p.ordering, p.delivered, sent) && Numberable(sent, capacity) && k < |sent| && f.split.Some?
    requires f.reliability.ReliableOrdered? && f.orderIndex == Some(Wrap(k)) && f.orderChannel == 0
    requires NothingDue(p.ordering) && AllHanded(p.ordering, p.delivered, sent, capacity, got)
    requires
      var count := |Fragments(sent[k], capacity)|;
      var (a', result) := AcceptFragment(p.assemblies, f.split.value, f.payload, p.budgets);
      !result.Refused? ==>
        && Collected(a', sent, capacity, got + iset{(k, i)})
        && (AllGot(got + iset{(k, i)}, k, count) && !AllGot(got, k, count) ==> result.Complete?)
        && (result.Complete? ==> result.payload == sent[k])
    ensures
      var r := Reassemble(p, f, env);
      r.error.None? ==>
        && AllHanded(r.peer.ordering, r.peer.delivered, sent, capacity, got + iset{(k, i)})
        && NothingDue(r.peer.ordering) && Collected(r.peer.assemblies, sent, capacity, got + iset{(k, i)})
        && r.peer.reliable == p.reliable && r.peer.datagrams == p.datagrams
  {
    var (a', result) := AcceptFragment(p.assemblies, f.split.value, f.payload, p.budgets);
    var p1 := p.(assemblies := a');
    if result.Complete? {
      WholeCounts(p1, f.(split := None, payload := result.payload), sent, capacity, got, k, i, env);
    } else if result.Pending? {
      NowHanded(p, p1, sent, capacity, got, k, i);
    }
  }

  lemma FrameCounts(p: Peer, sent: seq<bytes>, capacity: nat, got: iset<FragmentName>, k: nat, i: nat, env: Env)
    requires ReceiverOk(p, sent, capacity) && Deliverable(sent, capacity) && Numberable(sent, capacity)
    requires HasFragment(sent, capacity, k, i) && FrameProgress(p, sent, capacity, got)
    ensures
      var r := ReceiveFrame(p, FrameOf(sent, capacity, k, i), env);
      r.error.None? ==> FrameProgress(r.peer, sent, capacity, got + iset{(k, i)}) && r.peer.datagrams == p.datagrams
  {
    var s := Wrap(Place(sent, capacity, k, i));
    if s in p.reliable.index {
      RepeatWasGot(p.reliable.index, sent, capacity, got, k, i);
    } else {
      AdmitSeen(p.reliable, WindowLimit(p.budgets), sent, capacity, got, k, i);
      var p1 := p.(reliable := Admit(p.reliable, s, WindowLimit(p.budgets)));
      if |Fragments(sent[k], capacity)| == 1 {
        UnsplitFrameCounts(p1, sent, capacity, got, k, i, env);
      } else {
        SplitFrameCounts(p1, sent, capacity, got, k, i, env);
      }
    }
  }

  lemma DatagramCounts(p: Peer, sent: seq<bytes>, capacity: nat, got: iset<FragmentName>, k: nat, i: nat, env: Env)
    requires ReceiverOk(p, sent, capacity) && Deliverable(sent, capacity) && Numberable(sent, capacity)
    requires HasFragment(sent, capacity, k, i) && Progress(p, sent, capacity, got)
    ensures
      var r := AcceptDatagram(p, Datagram(Wrap(Place(sent, capacity, k, i)), [FrameOf(sent, capacity, k, i)]), env);
      r.error.None? ==> Progress(r.peer, sent, capacity, got + iset{(k, i)})
  {
    var s, f := Wrap(Place(sent, capacity, k, i)), FrameOf(sent, capacity, k, i);
    var p1 := Register(p, s);
    if s in p.datagrams.index {
      RepeatWasGot(p.datagrams.index, sent, capacity, got, k, i);
    } else {
      AdmitSeen(p.datagrams, WindowLimit(p.budgets), sent, capacity, got, k, i);
      assert p1.datagrams == Admit(p.datagrams, s, WindowLimit(p.budgets));
      FrameCounts(p1, sent, capacity, got, k, i, env);
      SingleFrame(p1, f, env);
    }
  }

  // ---- One event ----

  lemma DataCounts(p: Peer, sent: seq<bytes>, capacity: nat, got: iset<FragmentName>, k: nat, i: nat, env: Env)
    requires ReceiverOk(p, sent, capacity) && Deliverable(sent, capacity) && Numberable(sent, capacity)
    requires HasFragment(sent, capacity, k, i) && Progress(p, sent, capacity, got)
    ensures
      var r := ReceiveDatagram(p, DatagramOf(sent, capacity, k, i), env);
      r.error.None? ==> Progress(r.peer, sent, capacity, got + iset{(k, i)})
  {
    var sequence, f := Wrap(Place(sent, capacity, k, i)), FrameOf(sent, capacity, k, i);
    FormatsAreDisjoint(sequence, f, 0xA0, 0, 0, p.budgets);
    FragmentFitsFrame(sent, capacity, k, i);
    DatagramDecodesOrIsRefused(sequence, f, p.budgets);
    DatagramCounts(Observe(p, env.now), sent, capacity, got, k, i, env);
  }

  /** Everything but a data datagram leaves the receiving side alone. */
  lemma OtherEventsKeep(p: Peer, e: Event, sent: seq<bytes>, capacity: nat, got: iset<FragmentName>)
    requires Progress(p, sent, capacity, got) && (e.Arrive? ==> IsAcknowledgement(e.datagram))
    ensures Progress(Step(p, e).peer, sent, capacity, got)
  {
    if e.Arrive? {
      AcknowledgementArrives(p, e.datagram, e.env);
    }
  }

  // ---- The sender sends more ----

  /** Every fragment that arrived belongs to a message sent so far. */
  ghost predicate Named(got: iset<FragmentName>, sent: seq<bytes>, capacity: nat) {
    forall k: nat, i: nat :: (k, i) in got ==> HasFragment(sent, capacity, k, i)
  }

  lemma SeenSurvives(index: set<u24>, sent: seq<bytes>, sent': seq<bytes>, capacity: nat, got: iset<FragmentName>)
    requires Seen(index, sent, capacity, got) && sent <= sent'
    ensures Seen(index, sent', capacity, got)
  {
    forall s: u24 | s in index
      ensures exists k: nat, i: nat :: (k, i) in got && Numbers(s, sent', capacity, k, i)
    {
      var k: nat, i: nat :| (k, i) in got && Numbers(s, sent, capacity, k, i);
      FragmentSurvives(sent, sent', capacity, k, i);
      PlaceSurvives(sent, sent', capacity, k, i);
      assert Numbers(s, sent', capacity, k, i);
    }
  }

  lemma CollectedSurvives(a: Assemblies, sent: seq<bytes>, sent': seq<bytes>, capacity: nat, got: iset<FragmentName>)
    requires PendingOk(a, sent, capacity) && SplitIdsDistinct(sent', capacity) && sent <= sent'
    requires Collected(a, sent, capacity, got) && Named(got, sent, capacity) && 0 < capacity
    ensures Collected(a, sent', capacity, got)
  {
    forall k: nat | k < |sent'| && capacity < |sent'[k]| ensures CollectedFor(a, sent', capacity, got, k) {
      if k < |sent| {
        assert CollectedFor(a, sent, capacity, got, k);
      } else if k % 0x1_0000 in a.pending {
        var j: nat :| Assembles(a.pending[k % 0x1_0000], sent, capacity, k % 0x1_0000, j);
      }
    }
  }

  lemma AllHandedSurvives(o: Ordering, delivered: seq<Delivery>, sent: seq<bytes>, sent': seq<bytes>, capacity: nat,
                          got: iset<FragmentName>)
    requires AllHanded(o, delivered, sent, capacity, got) && Named(got, sent, capacity) && sent <= sent' && 0 < capacity
    ensures AllHanded(o, delivered, sent', capacity, got)
  {
    forall k: nat | k < |sent'| && AllGot(got, k, |Fragments(sent'[k], capacity)|) ensures Handed(o, delivered, k) {
      assert (k, 0) in got;
      assert sent'[k] == sent[k];
    }
  }

  lemma ProgressSurvives(p: Peer, sent: seq<bytes>, sent': seq<bytes>, capacity: nat, got: iset<FragmentName>)
    requires PendingOk(p.assemblies, sent, capacity) && SplitIdsDistinct(sent', capacity) && sent <= sent'
    requires Progress(p, sent, capacity, got) && Named(got, sent, capacity) && 0 < capacity
    ensures Progress(p, sent', capacity, got)
  {
    SeenSurvives(p.datagrams.index, sent, sent', capacity, got);
    SeenSurvives(p.reliable.index, sent, sent', capacity, got);
    CollectedSurvives(p.assemblies, sent, sent', capacity, got);
    AllHandedSurvives(p.ordering, p.delivered, sent, sent', capacity, got);
  }

  // ---- The link ----

  /** The datagrams of the left side that have arrived at the right side while it was running. */
  function Arrived(l: Link, happenings: seq<Happening>): set<bytes>
    decreases |happenings|
  {
    if happenings == [] then {} else
    var init, last := happenings[..|happenings| - 1], happenings[|happenings| - 1];
    Arrived(l, init) + Arrives(RunLink(l, init), last)
  }

  function Arrives(l: Link, h: Happening): set<bytes> {
    if h.AtRight? && h.event.Arrive? && !l.right.stopped && h.event.datagram in l.left.peer.tx.output
    then {h.event.datagram} else {}
  }

  /** The fragments among them. */
  ghost function GotOf(arrived: set<bytes>, sent: seq<bytes>, capacity: nat): iset<FragmentName> {
    iset k: nat, i: nat | HasFragment(sent, capacity, k, i) && DatagramOf(sent, capacity, k, i) in arrived :: (k, i)
  }

  ghost predicate AllGenuine(arrived: set<bytes>, sent: seq<bytes>, capacity: nat) {
    forall d <- arrived :: Genuine(d, sent, capacity)
  }

  lemma NotAnAcknowledgement(sent: seq<bytes>, capacity: nat, k: nat, i: nat)
    requires HasFragment(sent, capacity, k, i)
    ensures !IsAcknowledgement(DatagramOf(sent, capacity, k, i))
  {
  }

  /** New messages have no fragments among what arrived before. */
  lemma GotSurvives(arrived: set<bytes>, sent: seq<bytes>, sent': seq<bytes>, capacity: nat)
    requires AllGenuine(arrived, sent, capacity) && sent <= sent' && 0 < capacity
    requires FrameCount(sent', capacity) <= MODULUS
    ensures GotOf(arrived, sent', capacity) == GotOf(arrived, sent, capacity)
  {
    forall k: nat, i: nat
      ensures (k, i) in GotOf(arrived, sent', capacity) <==> (k, i) in GotOf(arrived, sent, capacity)
    {
      if HasFragment(sent, capacity, k, i) {
        FragmentSurvives(sent, sent', capacity, k, i);
      } else if HasFragment(sent', capacity, k, i) {
        NewIsNotAmong(arrived, sent, sent', capacity, k, i);
      }
    }
  }

  lemma NewIsNotAmong(arrived: set<bytes>, sent: seq<bytes>, sent': seq<bytes>, capacity: nat, k: nat, i: nat)
    requires AllGenuine(arrived, sent, capacity) && sent <= sent' && 0 < capacity
    requires FrameCount(sent', capacity) <= MODULUS
    requires HasFragment(sent', capacity, k, i) && !HasFragment(sent, capacity, k, i)
    ensures DatagramOf(sent', capacity, k, i) !in arrived
  {
    var d := DatagramOf(sent', capacity, k, i);
    NotAnAcknowledgement(sent', capacity, k, i);
    if d in arrived {
      var j: nat, h: nat :| HasFragment(sent, capacity, j, h) && d == DatagramOf(sent, capacity, j, h);
      FragmentSurvives(sent, sent', capacity, j, h);
      DatagramIsUnique(sent', capacity, k, i, j, h);
    }
  }

  lemma GotGrows(arrived: set<bytes>, sent: seq<bytes>, capacity: nat, k: nat, i: nat)
    requires HasFragment(sent, capacity, k, i) && FrameCount(sent, capacity) <= MODULUS
    ensures GotOf(arrived + {DatagramOf(sent, capacity, k, i)}, sent, capacity)
            == GotOf(arrived, sent, capacity) + iset{(k, i)}
  {
    var d := DatagramOf(sent, capacity, k, i);
    forall j: nat, h: nat
      ensures (j, h) in GotOf(arrived + {d}, sent, capacity) <==>
              (j, h) in GotOf(arrived, sent, capacity) + iset{(k, i)}
    {
      if HasFragment(sent, capacity, j, h) && DatagramOf(sent, capacity, j, h) == d {
        DatagramIsUnique(sent, capacity, k, i, j, h);
      }
    }
  }

  lemma AcknowledgementsAreNotGot(arrived: set<bytes>, d: bytes, sent: seq<bytes>, capacity: nat)
    requires IsAcknowledgement(d)
    ensures GotOf(arrived + {d}, sent, capacity) == GotOf(arrived, sent, capacity)
  {
    forall k: nat, i: nat | HasFragment(sent, capacity, k, i) ensures DatagramOf(sent, capacity, k, i) != d {
      NotAnAcknowledgement(sent, capacity, k, i);
    }
  }

  ghost predicate Countable(sent: seq<bytes>, capacity: nat) {
    Deliverable(sent, capacity) && Numberable(sent, capacity)
  }

  lemma CountablePrefix(sent: seq<bytes>, sent': seq<bytes>, capacity: nat)
    requires Countable(sent', capacity) && sent <= sent'
    ensures Countable(sent, capacity)
  {
    DeliverablePrefix(sent, sent', capacity);
    assert sent'[..|sent|] == sent && sent'[..|sent'|] == sent';
    FrameCountGrows(sent', capacity, |sent|, |sent'|);
  }

  /** One direction of the link, with what has arrived. */
  ghost predicate ArrivalsOk(sender: Endpoint, receiver: Endpoint, arrived: set<bytes>) {
    var sent, capacity := sender.peer.tx.sent, FragmentCapacity(sender.peer.mtu);
    && AllGenuine(arrived, sent, capacity)
    && (Countable(sent, capacity) && !receiver.stopped ==>
          Progress(receiver.peer, sent, capacity, GotOf(arrived, sent, capacity)))
  }

  lemma SenderAdvances(sender: Endpoint, receiver: Endpoint, e: Event, arrived: set<bytes>)
    requires DirectionOk(sender, receiver) && ArrivalsOk(sender, receiver, arrived)
    ensures ArrivalsOk(D.Advance(sender, e, receiver), receiver, arrived)
  {
    var sender' := D.Advance(sender, e, receiver);
    if sender' != sender {
      MtuIsFixed(sender.peer, e);
      StepEvolves(sender.peer, e);
      var sent, sent', capacity := sender.peer.tx.sent, sender'.peer.tx.sent, FragmentCapacity(sender.peer.mtu);
      StaysGenuine(arrived, sent, sent', capacity);
      if Countable(sent', capacity) && !receiver.stopped {
        CountablePrefix(sent, sent', capacity);
        GotSurvives(arrived, sent, sent', capacity);
        ProgressSurvives(receiver.peer, sent, sent', capacity, GotOf(arrived, sent, capacity));
      }
    }
  }

  lemma StaysGenuine(arrived: set<bytes>, sent: seq<bytes>, sent': seq<bytes>, capacity: nat)
    requires AllGenuine(arrived, sent, capacity) && sent <= sent'
    ensures AllGenuine(arrived, sent', capacity)
  {
    forall d | d in arrived ensures Genuine(d, sent', capacity) {
      GenuineSurvives([d], sent, sent', capacity);
      assert d in [d];
    }
  }

  lemma ReceiverAdvances(sender: Endpoint, receiver: Endpoint, e: Event, arrived: set<bytes>)
    requires DirectionOk(sender, receiver) && ArrivalsOk(sender, receiver, arrived) && !receiver.stopped
    requires e.Arrive? ==> e.datagram in sender.peer.tx.output
    ensures ArrivalsOk(sender, D.Advance(receiver, e, sender), if e.Arrive? then arrived + {e.datagram} else arrived)
  {
    var sent, capacity := sender.peer.tx.sent, FragmentCapacity(sender.peer.mtu);
    if Countable(sent, capacity) && Step(receiver.peer, e).error.None? {
      EventCounts(receiver.peer, e, sent, capacity, arrived);
    }
  }

  lemma EventCounts(p: Peer, e: Event, sent: seq<bytes>, capacity: nat, arrived: set<bytes>)
    requires ReceiverOk(p, sent, capacity) && Countable(sent, capacity)
    requires Progress(p, sent, capacity, GotOf(arrived, sent, capacity))
    requires e.Arrive? ==> Genuine(e.datagram, sent, capacity)
    ensures Step(p, e).error.None? ==>
              Progress(Step(p, e).peer, sent, capacity,
                       GotOf(if e.Arrive? then arrived + {e.datagram} else arrived, sent, capacity))
  {
    if !e.Arrive? || IsAcknowledgement(e.datagram) {
      OtherEventsKeep(p, e, sent, capacity, GotOf(arrived, sent, capacity));
      if e.Arrive? {
        AcknowledgementsAreNotGot(arrived, e.datagram, sent, capacity);
      }
    } else {
      var k: nat, i: nat :| HasFragment(sent, capacity, k, i) && e.datagram == DatagramOf(sent, capacity, k, i);
      GotGrows(arrived, sent, capacity, k, i);
      DataCounts(p, sent, capacity, GotOf(arrived, sent, capacity), k, i, e.env);
    }
  }

  lemma {:induction false} LinkCounts(l: Link, happenings: seq<Happening>)
    requires DirectionOk(l.left, l.right) && DirectionOk(l.right, l.left) && ArrivalsOk(l.left, l.right, {})
    ensures
      var r := RunLink(l, happenings);
      ArrivalsOk(r.left, r.right, Arrived(l, happenings))
    decreases |happenings|
  {
    if happenings != [] {
      var init := happenings[..|happenings| - 1];
      LinkKeeps(l, init);
      LinkCounts(l, init);
      HappeningCounts(RunLink(l, init), happenings[|happenings| - 1], Arrived(l, init));
    }
  }

  lemma HappeningCounts(l: Link, h: Happening, arrived: set<bytes>)
    requires DirectionOk(l.left, l.right) && ArrivalsOk(l.left, l.right, arrived)
    ensures
      var r := Happen(l, h);
      ArrivalsOk(r.left, r.right, arrived + Arrives(l, h))
  {
    match h
    case AtLeft(e) =>
      SenderAdvances(l.left, l.right, e, arrived);
      assert arrived + {} == arrived;
    case AtRight(e) =>
      if !l.right.stopped && (e.Arrive? ==> e.datagram in l.left.peer.tx.output) {
        ReceiverAdvances(l.left, l.right, e, arrived);
      }
      assert arrived + {} == arrived;
  }

  /** With every message handed over and nothing due, everything is delivered. */
  lemma AllHandedIsDelivered(p: Peer, sent: seq<bytes>, capacity: nat, got: iset<FragmentName>)
    requires ReceiverOk(p, sent, capacity) && Numberable(sent, capacity) && Progress(p, sent, capacity, got)
    requires forall k: nat :: k < |sent| ==> AllGot(got, k, |Fragments(sent[k], capacity)|)
    ensures Payloads(p.delivered) == sent
  {
    assert forall k: nat :: k < |sent| ==> Handed(p.ordering, p.delivered, k);
    assert |p.delivered| < |sent| ==> Handed(p.ordering, p.delivered, |p.delivered|);
  }

  /**
   * Nothing is lost. If every data datagram the left side wrote has arrived at the right side, in
   * whatever order and with whatever repeats, and neither side has stopped, the right side has
   * delivered exactly the messages of the left side, in order, each once and whole.
   */
  lemma EverythingIsDelivered(left: Party, right: Party, happenings: seq<Happening>)
    ensures
      var l := Link(Begin(left), Begin(right));
      var r := RunLink(l, happenings);
      var sent, capacity := r.left.peer.tx.sent, FragmentCapacity(left.mtu);
      && Countable(sent, capacity) && !r.left.stopped && !r.right.stopped
      && (forall d <- r.left.peer.tx.output :: IsData(d, sent, capacity) ==> d in Arrived(l, happenings))
      ==> Payloads(r.right.peer.delivered) == sent
  {
    var l := Link(Begin(left), Begin(right));
    LinkKeeps(l, happenings);
    LinkFixesMtu(l, happenings);
    LinkCounts(l, happenings);
    var r := RunLink(l, happenings);
    var sent, capacity := r.left.peer.tx.sent, FragmentCapacity(left.mtu);
    if && Countable(sent, capacity) && !r.left.stopped && !r.right.stopped
       && (forall d <- r.left.peer.tx.output :: IsData(d, sent, capacity) ==> d in Arrived(l, happenings))
    {
      WrittenIsGot(r.left.peer.tx, capacity, Arrived(l, happenings));
      AllHandedIsDelivered(r.right.peer, sent, capacity, GotOf(Arrived(l, happenings), sent, capacity));
    }
  }

  lemma WrittenIsGot(tx: Transmit, capacity: nat, arrived: set<bytes>)
    requires WrittenUpTo(tx, capacity, |tx.sent|, 0)
    requires forall d <- tx.output :: IsData(d, tx.sent, capacity) ==> d in arrived
    ensures forall k: nat :: k < |tx.sent| ==>
              AllGot(GotOf(arrived, tx.sent, capacity), k, |Fragments(tx.sent[k], capacity)|)
  {
    forall k: nat, i: nat | k < |tx.sent| && i < |Fragments(tx.sent[k], capacity)|
      ensures (k, i) in GotOf(arrived, tx.sent, capacity)
    {
      assert HasFragment(tx.sent, capacity, k, i);
      assert IsData(DatagramOf(tx.sent, capacity, k, i), tx.sent, capacity);
    }
  }
}
