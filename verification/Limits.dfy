/** Where the laws about snapshots and delivery end, and that they are not empty: concrete runs. */
module Limits {
  import opened Wrappers
  import opened Bytes
  import opened Sequence
  import opened Budget
  import opened Wire
  import opened Peer
  import opened PeerInvariant
  import opened Snapshot
  import opened Reassembly
  import C = Completeness
  import D = Delivery

  // ---- Reassembly outgrows the payload budget ----

  /** One byte per frame, two per assembly. */
  function TightBudgets(): Budgets { Budgets(1, 1, 1500, 1, 2, 2, 1, 1) }

  /** Fragment `i` of a two-byte message with order index one, sent ahead of message zero. */
  function Fragment(i: u24, content: byte): Frame
    requires i < 2
  {
    Frame(ReliableOrdered, Some(i), None, Some(1), 0, Some(SplitHeader(2, 0, i)), [content])
  }

  lemma FragmentDecodes(i: u24, content: byte)
    requires i < 2
    ensures DecodeAcknowledgement(EncodeDatagram(i, Fragment(i, content))) == Ok(None)
    ensures DecodeDatagram(EncodeDatagram(i, Fragment(i, content)), TightBudgets()) ==
            Ok(Datagram(i, [Fragment(i, content)]))
  {
    FormatsAreDisjoint(i, Fragment(i, content), 0xA0, 0, 0, TightBudgets());
    DatagramRoundTrip(i, Fragment(i, content), TightBudgets());
  }

  lemma ReceivesOneFrame(p: Peer, i: u24, content: byte, env: Env)
    requires p.budgets == TightBudgets() && i < 2 && i !in p.datagrams.index
    ensures
      var p1 := Register(Observe(p, env.now), i);
      Step(p, Arrive(EncodeDatagram(i, Fragment(i, content)), env)) == ReceiveFrame(p1, Fragment(i, content), env)
  {
    FragmentDecodes(i, content);
    var p1, f := Register(Observe(p, env.now), i), Fragment(i, content);
    assert [f][1..] == [];
    assert ReceiveFrames(p1, [f], env) == ReceiveFrame(p1, f, env);
  }

  lemma FirstIsStored(p: Peer, x: byte, env: Env)
    requires p.budgets == TightBudgets() && p.assemblies == Assemblies(map[], 0, 0) && 0 !in p.reliable.index
    ensures
      var r := ReceiveFrame(p, Fragment(0, x), env);
      && r.error.None? && r.peer.assemblies == Assemblies(map[0 := [Some([x]), None]], 1, 2)
      && r.peer == p.(assemblies := r.peer.assemblies, reliable := Admit(p.reliable, 0, WindowLimit(p.budgets)))
  {
    assert Missing(2)[0 := Some([x])] == [Some([x]), None];
    assert !AllPresent([Some([x]), None]) by { assert [Some([x]), None][1] in [Some([x]), None]; }
  }

  lemma SecondIsHeld(p: Peer, x: byte, y: byte, env: Env)
    requires p.budgets == TightBudgets() && p.assemblies == Assemblies(map[0 := [Some([x]), None]], 1, 2)
    requires p.ordering == Ordering(map[], map[]) && 1 !in p.reliable.index
    ensures
      var r := ReceiveFrame(p, Fragment(1, y), env);
      r.error.None? && (0, 1) in r.peer.ordering.holdback && r.peer.ordering.holdback[(0, 1)] == [x, y]
  {
    var parts: Parts := [Some([x]), Some([y])];
    assert [Some([x]), None][1 := Some([y])] == parts;
    assert Join(parts) == [x, y] by {
      assert parts[..1] == [Some([x])] && parts[..1][..0] == [];
      assert Join(parts[..1]) == Join(parts[..1][..0]) + [x];
    }
    assert IsNewer(1, 0);
  }

  /**
   * A peer can reach, by two genuine datagrams, a state whose own snapshot its own budgets refuse:
   * two frames that each fit the payload budget are joined and held back as one that does not.
   */
  lemma ReassemblyOutgrowsTheBudget(remoteAddr: bytes, mtu: u16, now: Instant, x: byte, y: byte, env: Env)
    requires MtuOk(mtu, TightBudgets())
    ensures
      var events := [Arrive(EncodeDatagram(0, Fragment(0, x)), env), Arrive(EncodeDatagram(1, Fragment(1, y)), env)];
      var r := Run(NewPeer(remoteAddr, mtu, TightBudgets(), now), events);
      r.error.None? && !PayloadsFit(r.peer) && !Valid(TakeSnapshot(r.peer, env.now), r.peer.budgets)
  {
    var p := NewPeer(remoteAddr, mtu, TightBudgets(), now);
    var first, second := Arrive(EncodeDatagram(0, Fragment(0, x)), env), Arrive(EncodeDatagram(1, Fragment(1, y)), env);
    ReceivesOneFrame(p, 0, x, env);
    FirstIsStored(Register(Observe(p, env.now), 0), x, env);
    var p1 := Step(p, first).peer;
    assert p1.datagrams.index == {0} && p1.reliable.index == {0};
    ReceivesOneFrame(p1, 1, y, env);
    SecondIsHeld(Register(Observe(p1, env.now), 1), x, y, env);
    TwoSteps(p, first, second);
    var r := Run(p, [first, second]);
    NewPeerInv(remoteAddr, mtu, TightBudgets(), now);
    RunKeeps(p, [first, second]);
    SnapshotIsAdmitted(r.peer, env.now);
  }

  lemma TwoSteps(p: Peer, e: Event, e': Event)
    requires Step(p, e).error.None?
    ensures Run(p, [e, e']) == Step(Step(p, e).peer, e')
  {
    assert [e, e'][1..] == [e'] && [e'][1..] == [];
    var r := Step(Step(p, e).peer, e');
    assert Run(r.peer, []) == Outcome(r.peer, None);
  }

  // ---- One message across a link ----

  /** A message short enough for one frame goes out as one datagram. */
  lemma SendsOneDatagram(p: Peer, payload: bytes, env: Env)
    requires p.accepted && |payload| <= p.budgets.maxPayloadBytes && |payload| <= FragmentCapacity(p.mtu)
    requires 0 < FragmentCapacity(p.mtu) && p.tx.unacked == map[] && 1 <= p.budgets.maxUnacked
    requires p.tx.nextDatagram == p.tx.nextReliable == p.tx.nextOrdered == 0 && p.tx.sent == [] && p.tx.output == []
    requires |EncodeDatagram(0, Whole(payload))| <= p.budgets.maxDatagramBytes
    ensures
      var r := Step(p, Submit(payload, env));
      r.error.None? && r.peer.tx.sent == [payload] && r.peer.tx.output == [EncodeDatagram(0, Whole(payload))]
  {
    var fragments := Fragments(payload, FragmentCapacity(p.mtu));
    assert fragments == [payload];
    var tx := p.tx.(nextOrdered := 1, sent := [payload], nextSplitId := (p.tx.nextSplitId + 1) % 0x1_0000);
    assert FragmentFrame(fragments, 0, 0, 0, p.tx.nextSplitId) == Whole(payload);
    assert p.tx.sent + [payload] == [payload] &&
        p.tx.output + [EncodeDatagram(0, Whole(payload))] == [EncodeDatagram(0, Whole(payload))];
    var r := SendFrame(tx.(nextReliable := 1), Whole(payload), p.budgets, env.now);
    assert r.error.None?;
    assert SendFragments(r.tx, fragments, 1, 0, p.tx.nextSplitId, p.budgets, env.now) == TxOutcome(r.tx, None);
    assert SendFragments(tx, fragments, 0, 0, p.tx.nextSplitId, p.budgets, env.now) == TxOutcome(r.tx, None);
    assert SendReliableOrdered(p.tx, payload, p.mtu, p.budgets, env.now) == TxOutcome(r.tx, None);
  }

  /** The first message of a peer, unsplit. */
  function Whole(payload: bytes): Frame { Frame(ReliableOrdered, Some(0), None, Some(0), 0, None, payload) }

  /** A fresh receiver delivers the frame of message zero at once. */
  lemma FirstFrameIsDelivered(p: Peer, content: bytes, more: seq<Frame>, env: Env)
    requires p.reliable.index == {} && p.ordering == Ordering(map[], map[]) && p.delivered == []
    ensures
      var r := ReceiveFrames(p, [Whole(content)] + more, env);
      r.peer.delivered != [] && r.peer.delivered[0] == InOrder(0, 0, content)
  {
    var f := Whole(content);
    assert ([f] + more)[1..] == more;
    var p1 := p.(reliable := Admit(p.reliable, 0, WindowLimit(p.budgets)));
    var r := ReceiveFrame(p, f, env);
    assert r == AcceptOrdered(p1, 0, 0, content, env);
    AcceptedIsLogged(p1, 0, content, env);
    if r.error.None? {
      FramesKeepLog(r.peer, more, env);
    }
  }

  /** A payload under the expected index is delivered next. */
  lemma AcceptedIsLogged(p: Peer, index: u24, content: bytes, env: Env)
    requires index == Expected(p.ordering, 0)
    ensures p.delivered + [InOrder(0, index, content)] <= AcceptOrdered(p, 0, index, content, env).peer.delivered
  {
    var p1 := p.(ordering := p.ordering.(expected := p.ordering.expected[0 := index]));
    var r := DeliverInOrder(p1, 0, index, content, env);
    if r.error.None? {
      DrainKeepsLog(r.peer, 0, env);
    }
  }

  lemma DispatchKeepsLog(p: Peer, f: Frame, env: Env)
    ensures p.delivered <= Dispatch(p, f, env).peer.delivered
  {
    if f.reliability.IsOrdered() && !f.reliability.IsSequenced() && f.orderIndex.Some? {
      var expected := Expected(p.ordering, f.orderChannel);
      if f.orderIndex.value == expected {
        var p1 := p.(ordering := p.ordering.(expected := p.ordering.expected[f.orderChannel := expected]));
        var r := DeliverInOrder(p1, f.orderChannel, expected, f.payload, env);
        if r.error.None? {
          DrainKeepsLog(r.peer, f.orderChannel, env);
        }
      }
    }
  }

  lemma {:induction false} DrainKeepsLog(p: Peer, channel: byte, env: Env)
    ensures p.delivered <= Drain(p, channel, env).peer.delivered
    decreases |p.ordering.holdback|
  {
    var key := (channel, Expected(p.ordering, channel));
    if key in p.ordering.holdback {
      RemoveShrinks(p.ordering.holdback, key);
      var p1 := p.(ordering := p.ordering.(holdback := p.ordering.holdback - {key}));
      var r := DeliverInOrder(p1, channel, key.1, p.ordering.holdback[key], env);
      if r.error.None? {
        DrainKeepsLog(r.peer, channel, env);
      }
    }
  }

  lemma FrameKeepsLog(p: Peer, f: Frame, env: Env)
    ensures p.delivered <= ReceiveFrame(p, f, env).peer.delivered
  {
    if f.reliableIndex.None? || f.reliableIndex.value !in p.reliable.index {
      var p1 := if f.reliableIndex.None? then p
                else p.(reliable := Admit(p.reliable, f.reliableIndex.value, WindowLimit(p.budgets)));
      if f.split.None? {
        DispatchKeepsLog(p1, f, env);
      } else {
        var (assemblies, result) := AcceptFragment(p1.assemblies, f.split.value, f.payload, p1.budgets);
        if result.Complete? {
          DispatchKeepsLog(p1.(assemblies := assemblies), f.(split := None, payload := result.payload), env);
        }
      }
    }
  }

  lemma {:induction false} FramesKeepLog(p: Peer, frames: seq<Frame>, env: Env)
    ensures p.delivered <= ReceiveFrames(p, frames, env).peer.delivered
    decreases |frames|
  {
    if frames != [] {
      FrameKeepsLog(p, frames[0], env);
      var r := ReceiveFrame(p, frames[0], env);
      if r.error.None? {
        FramesKeepLog(r.peer, frames[1..], env);
      }
    }
  }

  /** The submission at one end and the arrival of its datagram at the other. */
  function SendAndReceive(payload: bytes, sentAt: Env, receivedAt: Env): seq<D.Happening> {
    [D.AtLeft(Submit(payload, sentAt)), D.AtRight(Arrive(EncodeDatagram(0, Whole(payload)), receivedAt))]
  }

  /** The two ends can carry this message in one datagram. */
  ghost predicate CanCarry(left: D.Party, right: D.Party, payload: bytes) {
    && left.accepted && |payload| <= left.budgets.maxPayloadBytes && 1 <= left.budgets.maxUnacked
    && 0 < FragmentCapacity(left.mtu) && |payload| <= FragmentCapacity(left.mtu)
    && |EncodeDatagram(0, Whole(payload))| <= left.budgets.maxDatagramBytes
    && |EncodeDatagram(0, Whole(payload))| <= right.budgets.maxDatagramBytes
  }

  lemma TwoHappen(l: D.Link, a: D.Happening, b: D.Happening)
    ensures D.RunLink(l, [a, b]) == D.Happen(D.Happen(l, a), b)
  {
    assert [a, b][..1] == [a] && [a][..0] == [];
    assert D.RunLink(l, [a]) == D.Happen(l, a);
  }

  /** What the receiver decodes is what it delivers first. */
  lemma DecodedIsDelivered(left: D.Party, right: D.Party, payload: bytes, content: bytes, more: seq<Frame>,
                           sentAt: Env, receivedAt: Env)
    requires CanCarry(left, right, payload)
    requires DecodeDatagram(EncodeDatagram(0, Whole(payload)), right.budgets) ==
            Ok(Datagram(0, [Whole(content)] + more))
    ensures
      var r := D.RunLink(D.Link(D.Begin(left), D.Begin(right)), SendAndReceive(payload, sentAt, receivedAt));
      && r.left.peer.tx.sent == [payload]
      && r.right.peer.delivered != [] && r.right.peer.delivered[0] == InOrder(0, 0, content)
  {
    var l, r, d := D.Begin(left), D.Begin(right), EncodeDatagram(0, Whole(payload));
    SendsOneDatagram(l.peer, payload, sentAt);
    var l' := D.Advance(l, Submit(payload, sentAt), r);
    assert l'.peer.tx.output[0] == d;
    FormatsAreDisjoint(0, Whole(payload), 0xA0, 0, 0, right.budgets);
    var p := Register(Observe(r.peer, receivedAt.now), 0);
    FirstFrameIsDelivered(p, content, more, receivedAt);
    assert Step(r.peer, Arrive(d, receivedAt)) == ReceiveFrames(p, [Whole(content)] + more, receivedAt);
    TwoHappen(D.Link(l, r), D.AtLeft(Submit(payload, sentAt)), D.AtRight(Arrive(d, receivedAt)));
  }

  /** The delivery theorem is not empty: a message that fits is delivered, unchanged. */
  lemma MessageGetsThrough(left: D.Party, right: D.Party, payload: bytes, sentAt: Env, receivedAt: Env)
    requires CanCarry(left, right, payload) && FitsFrame(payload, right.budgets.maxPayloadBytes)
    ensures
      var r := D.RunLink(D.Link(D.Begin(left), D.Begin(right)), SendAndReceive(payload, sentAt, receivedAt));
      r.left.peer.tx.sent == [payload] && r.right.peer.delivered != [] &&
          r.right.peer.delivered[0] == InOrder(0, 0, payload)
  {
    DatagramRoundTrip(0, Whole(payload), right.budgets);
    assert [Whole(payload)] + [] == [Whole(payload)];
    DecodedIsDelivered(left, right, payload, payload, [], sentAt, receivedAt);
  }

  /** The tail that a frame cannot count is read as a second, empty frame. */
  lemma LongFrameIsMisread(first: bytes, b: Budgets)
    requires |first| == MAX_FRAME_PAYLOAD <= b.maxPayloadBytes
    requires |EncodeDatagram(0, Whole(first + [0, 0, 0]))| <= b.maxDatagramBytes
    ensures
      var empty := Frame(Unreliable, None, None, None, 0, None, []);
      DecodeDatagram(EncodeDatagram(0, Whole(first + [0, 0, 0])), b) == Ok(Datagram(0, [Whole(first)] + [empty]))
  {
    var f, limit := Whole(first + [0, 0, 0]), b.maxPayloadBytes;
    DecodeEncodedHeader(0, f, b);
    DecodeEncodedFrame(f, limit);
    assert f.payload[..MAX_FRAME_PAYLOAD] == first && f.payload[MAX_FRAME_PAYLOAD..] == [0, 0, 0];
    assert DecodeFrame(EncodeFrame(f), limit) == Parsed(Whole(first), [0, 0, 0]);
    ZerosAreAFrame(limit);
  }

  lemma ZerosAreAFrame(limit: usize)
    ensures DecodeFrames([0, 0, 0], limit) == Ok([Frame(Unreliable, None, None, None, 0, None, [])])
  {
    var s: bytes := [0, 0, 0];
    assert s[..1] == [0] && s[1..] == [0, 0] && s[1..][..2] == [0, 0] && s[1..][2..] == [];
    var empty := Frame(Unreliable, None, None, None, 0, None, []);
    assert FromBE16([0, 0]) == 0 && ByteLength(0) == 0;
    assert DecodeFrame(s, limit) == Parsed(empty, []);
    assert [empty] + [] == [empty];
  }

  /** Beyond that size delivery fails: under a large MTU a message arrives cut short, as another one. */
  lemma LongMessageIsCorrupted(left: D.Party, right: D.Party, first: bytes, sentAt: Env, receivedAt: Env)
    requires |first| == MAX_FRAME_PAYLOAD <= right.budgets.maxPayloadBytes
    requires CanCarry(left, right, first + [0, 0, 0])
    ensures
      var r := D.RunLink(D.Link(D.Begin(left), D.Begin(right)), SendAndReceive(first + [0, 0, 0], sentAt, receivedAt));
      && r.left.peer.tx.sent == [first + [0, 0, 0]] && !D.FragmentsFit(r.left.peer.tx.sent, FragmentCapacity(left.mtu))
      && !(D.Payloads(r.right.peer.delivered) <= r.left.peer.tx.sent)
  {
    var payload := first + [0, 0, 0];
    LongFrameIsMisread(first, right.budgets);
    DecodedIsDelivered(left, right, payload, first, [Frame(Unreliable, None, None, None, 0, None, [])], sentAt,
        receivedAt);
    var r := D.RunLink(D.Link(D.Begin(left), D.Begin(right)), SendAndReceive(payload, sentAt, receivedAt));
    assert |r.left.peer.tx.sent[0]| > LONGEST_SAFE_FRAGMENT;
    assert D.Payloads(r.right.peer.delivered)[0] == first != payload;
  }

  /** Budgets that refuse neither message nor datagram of the sizes in question. */
  ghost predicate Roomy(left: D.Party, right: D.Party) {
    && left.accepted && 1 <= left.budgets.maxUnacked
    && LONGEST_SAFE_FRAGMENT < left.budgets.maxPayloadBytes && MAX_FRAME_PAYLOAD <= right.budgets.maxPayloadBytes
    && LONGEST_SAFE_FRAGMENT + 100 <= left.budgets.maxDatagramBytes
    && LONGEST_SAFE_FRAGMENT + 100 <= right.budgets.maxDatagramBytes
  }

  /** In every run of up to 65,536 messages, what the right side delivers is a prefix of what the left side sent. */
  ghost predicate AlwaysInOrder(left: D.Party, right: D.Party) {
    forall happenings: seq<D.Happening> ::
      var r := D.RunLink(D.Link(D.Begin(left), D.Begin(right)), happenings);
      |r.left.peer.tx.sent| <= 0x1_0000 ==> D.Payloads(r.right.peer.delivered) <= r.left.peer.tx.sent
  }

  /** Ordered delivery holds exactly up to an MTU of 8,258: the law for every pair of peers with room. */
  lemma DeliveryHoldsIff(left: D.Party, right: D.Party)
    requires Roomy(left, right)
    ensures AlwaysInOrder(left, right) <==> FragmentCapacity(left.mtu) <= LONGEST_SAFE_FRAGMENT
  {
    if FragmentCapacity(left.mtu) <= LONGEST_SAFE_FRAGMENT {
      forall happenings: seq<D.Happening>
        ensures
          var r := D.RunLink(D.Link(D.Begin(left), D.Begin(right)), happenings);
          |r.left.peer.tx.sent| <= 0x1_0000 ==> D.Payloads(r.right.peer.delivered) <= r.left.peer.tx.sent
      {
        var r := D.RunLink(D.Link(D.Begin(left), D.Begin(right)), happenings);
        D.EndToEndOrderedDelivery(left, right, happenings);
        if |r.left.peer.tx.sent| <= 0x1_0000 {
          D.FewMessagesAreDeliverable(r.left.peer.tx.sent, FragmentCapacity(left.mtu));
        }
      }
    } else {
      var env := Env(0, [], true, []);
      var first: bytes := seq(MAX_FRAME_PAYLOAD, _ => 0);
      var happenings := SendAndReceive(first + [0, 0, 0], env, env);
      LongMessageIsCorrupted(left, right, first, env, env);
      var r := D.RunLink(D.Link(D.Begin(left), D.Begin(right)), happenings);
      assert r.left.peer.tx.sent == [first + [0, 0, 0]];
    }
  }

  // ---- Order indexes come round again ----

  /**
   * Once 2^24 messages or more are delivered, a late copy of an unsplit message is taken for a new
   * one, if the duplicate window has forgotten it.
   */
  lemma LateCopyIsDeliveredAgain(p: Peer, sent: seq<bytes>, capacity: nat, j: nat, env: Env)
    requires D.DeliveredOk(p.ordering, p.delivered, sent) && |p.delivered| == |sent| == MODULUS + j
    requires D.HasFragment(sent, capacity, j, 0) && |Fragments(sent[j], capacity)| == 1
    requires D.FrameOf(sent, capacity, j, 0).reliableIndex.value !in p.reliable.index
    ensures !(D.Payloads(ReceiveFrame(p, D.FrameOf(sent, capacity, j, 0), env).peer.delivered) <= sent)
  {
    var f := D.FrameOf(sent, capacity, j, 0);
    WrapsRound(j);
    WholeFrameIsLogged(p, f, env);
  }

  lemma DistanceOfWraps(newer: nat, older: nat)
    requires older <= newer < older + MODULUS
    ensures Distance(Wrap(newer), Wrap(older)) == newer - older
  {
    var q, r, d := older / MODULUS, older % MODULUS, newer - older;
    assert newer == q * MODULUS + (r + d);
    if r + d < MODULUS {
      assert newer % MODULUS == r + d;
    } else {
      assert newer == (q + 1) * MODULUS + (r + d - MODULUS);
      assert newer % MODULUS == r + d - MODULUS;
    }
  }

  /**
   * A message 2^23 or more ahead of the next one looks old: it is dropped without an error, though
   * its datagram has been acknowledged.
   */
  lemma FarMessageIsDropped(p: Peer, sent: seq<bytes>, k: nat, env: Env)
    requires D.DeliveredOk(p.ordering, p.delivered, sent) && k < |sent|
    requires |p.delivered| + HALF_RANGE <= k < |p.delivered| + MODULUS
    ensures
      var r := AcceptOrdered(p, 0, Wrap(k), sent[k], env);
      && r.error.None? && r.peer.delivered == p.delivered && r.peer.ordering.holdback == p.ordering.holdback
      && r.peer.tx == p.tx
  {
    DistanceOfWraps(k, |p.delivered|);
  }

  lemma WrapsRound(j: nat)
    ensures Wrap(MODULUS + j) == Wrap(j)
  {
  }

  /** An unsplit frame under the expected index is delivered next. */
  lemma WholeFrameIsLogged(p: Peer, f: Frame, env: Env)
    requires f.reliability == ReliableOrdered && f.orderChannel == 0 && f.split.None?
    requires f.orderIndex == Some(Expected(p.ordering, 0))
    requires f.reliableIndex.Some? && f.reliableIndex.value !in p.reliable.index
    ensures p.delivered + [InOrder(0, f.orderIndex.value, f.payload)] <= ReceiveFrame(p, f, env).peer.delivered
  {
    var p1 := p.(reliable := Admit(p.reliable, f.reliableIndex.value, WindowLimit(p.budgets)));
    AcceptedIsLogged(p1, f.orderIndex.value, f.payload, env);
  }

  // ---- Split ids come round again ----

  /** `f` carries fragment i of the message. */
  ghost predicate IsFragment(f: Frame, fragments: seq<bytes>, id: u16, i: nat) {
    && i < |fragments| < 0x1_0000_0000
    && f.reliability == ReliableOrdered && f.orderChannel == 0 && f.reliableIndex.Some?
    && f.split == Some(SplitHeader(|fragments|, id, i)) && f.payload == fragments[i]
  }

  ghost predicate AreFragments(frames: seq<Frame>, fragments: seq<bytes>, id: u16) {
    |frames| == |fragments| && forall i: nat :: i < |frames| ==> IsFragment(frames[i], fragments, id, i)
  }

  /** The window knows none of these frames, and no two of them carry the same number. */
  ghost predicate AllNew(frames: seq<Frame>, known: set<u24>) {
    && (forall i :: 0 <= i < |frames| ==> frames[i].reliableIndex.Some? && frames[i].reliableIndex.value !in known)
    && (forall i, h :: 0 <= i < h < |frames| ==> frames[i].reliableIndex != frames[h].reliableIndex)
  }

  lemma UptoIsPartial(i: nat, n: nat)
    requires i < n
    ensures Upto(i) < Upto(n) && Upto(i) + {i} == Upto(i + 1) && (Upto(i + 1) == Upto(n) <==> i + 1 == n)
  {
    assert i !in Upto(i) && i in Upto(n);
    assert i + 1 < n ==> i + 1 in Upto(n) && i + 1 !in Upto(i + 1);
  }

  lemma FragmentIsStored(p: Peer, base: Assemblies, fragments: seq<bytes>, id: u16, i: nat, f: Frame, env: Env)
    requires IsFragment(f, fragments, id, i) && i + 1 < |fragments| && id !in base.pending
    requires f.reliableIndex.value !in p.reliable.index
    requires RoomFor(base, fragments, p.budgets) && InProgress(p.assemblies, fragments, id, Upto(i), base)
    ensures
      var r := ReceiveFrame(p, f, env);
      && r.error.None? && r.peer.ordering == p.ordering && r.peer.delivered == p.delivered
      && InProgress(r.peer.assemblies, fragments, id, Upto(i + 1), base)
      && r.peer.reliable.index <= p.reliable.index + {f.reliableIndex.value}
  {
    UptoIsPartial(i, |fragments|);
    OneArrival(p.assemblies, base, fragments, id, Upto(i), i, p.budgets);
    C.EvictShrinks(Window(p.reliable.index + {f.reliableIndex.value}, p.reliable.order + [f.reliableIndex.value]),
                   WindowLimit(p.budgets));
  }

  lemma LastFragmentDelivers(p: Peer, base: Assemblies, fragments: seq<bytes>, id: u16, i: nat, f: Frame, env: Env)
    requires IsFragment(f, fragments, id, i) && i + 1 == |fragments| && id !in base.pending
    requires f.reliableIndex.value !in p.reliable.index && f.orderIndex == Some(Expected(p.ordering, 0))
    requires RoomFor(base, fragments, p.budgets) && InProgress(p.assemblies, fragments, id, Upto(i), base)
    ensures p.delivered + [InOrder(0, Expected(p.ordering, 0), Concat(fragments))]
            <= ReceiveFrame(p, f, env).peer.delivered
  {
    UptoIsPartial(i, |fragments|);
    OneArrival(p.assemblies, base, fragments, id, Upto(i), i, p.budgets);
    var p1 := p.(reliable := Admit(p.reliable, f.reliableIndex.value, WindowLimit(p.budgets)), assemblies := base);
    AcceptedIsLogged(p1, f.orderIndex.value, Concat(fragments), env);
  }

  lemma FirstFrame(p: Peer, frames: seq<Frame>, i: nat, env: Env)
    requires i < |frames|
    ensures
      var r := ReceiveFrame(p, frames[i], env);
      ReceiveFrames(p, frames[i..], env) == if r.error.Some? then r else ReceiveFrames(r.peer, frames[i + 1..], env)
  {
    assert frames[i..][1..] == frames[i + 1..];
  }

  lemma LastFrame(p: Peer, frames: seq<Frame>, env: Env)
    requires frames != []
    ensures ReceiveFrames(p, frames[|frames| - 1..], env) == ReceiveFrame(p, frames[|frames| - 1], env)
  {
    assert frames[|frames| - 1..] == [frames[|frames| - 1]];
    D.SingleFrame(p, frames[|frames| - 1], env);
  }

  lemma RestIsNew(frames: seq<Frame>, i: nat, known: set<u24>, known': set<u24>)
    requires i < |frames| && AllNew(frames[i..], known) && known' <= known + {frames[i].reliableIndex.value}
    ensures AllNew(frames[i + 1..], known')
  {
    assert frames[i..][0] == frames[i] && frames[i..][1..] == frames[i + 1..];
  }

  /** Fragments that arrive in order are joined, and the last one's order index decides where they go. */
  lemma {:induction false} FragmentsArrive(p: Peer, base: Assemblies, fragments: seq<bytes>, id: u16, i: nat,
                                           frames: seq<Frame>, env: Env)
    requires i < |frames| && AreFragments(frames, fragments, id) && id !in base.pending
    requires AllNew(frames[i..], p.reliable.index)
    requires RoomFor(base, fragments, p.budgets) && InProgress(p.assemblies, fragments, id, Upto(i), base)
    requires frames[|frames| - 1].orderIndex == Some(Expected(p.ordering, 0))
    ensures p.delivered + [InOrder(0, Expected(p.ordering, 0), Concat(fragments))]
            <= ReceiveFrames(p, frames[i..], env).peer.delivered
    decreases |frames| - i
  {
    assert frames[i] == frames[i..][0];
    if i + 1 == |fragments| {
      LastFragmentDelivers(p, base, fragments, id, i, frames[i], env);
      LastFrame(p, frames, env);
    } else {
      var q := ReceiveFrame(p, frames[i], env).peer;
      FragmentIsStored(p, base, fragments, id, i, frames[i], env);
      RestIsNew(frames, i, p.reliable.index, q.reliable.index);
      FragmentsArrive(q, base, fragments, id, i + 1, frames, env);
      FirstFrame(p, frames, i, env);
    }
  }

  lemma DifferentStartsDiffer(first: bytes, other: bytes, rest: seq<bytes>)
    requires first != other
    ensures Concat([first] + rest) != Concat([other] + rest)
  {
    D.ConcatCons(first, rest);
    D.ConcatCons(other, rest);
    var a, b := first + Concat(rest), other + Concat(rest);
    assert a[..|first|] == first && b[..|other|] == other;
  }

  /** A stale fragment 0 of message j, then fragments 1 onwards of message k. */
  ghost predicate Mixed(frames: seq<Frame>, sent: seq<bytes>, capacity: nat, j: nat, k: nat) {
    && D.HasFragment(sent, capacity, j, 0) && D.HasFragment(sent, capacity, k, 0)
    && |frames| == |Fragments(sent[j], capacity)| == |Fragments(sent[k], capacity)|
    && frames[0] == D.FrameOf(sent, capacity, j, 0)
    && forall i: nat :: 1 <= i < |frames| ==> frames[i] == D.FrameOf(sent, capacity, k, i)
  }

  lemma MixedAreFragments(frames: seq<Frame>, sent: seq<bytes>, capacity: nat, j: nat, k: nat)
    requires Mixed(frames, sent, capacity, j, k) && 1 < |frames| && j % 0x1_0000 == k % 0x1_0000
    ensures AreFragments(frames, Fragments(sent[k], capacity)[0 := Fragments(sent[j], capacity)[0]], k % 0x1_0000)
    ensures frames[|frames| - 1].orderIndex == Some(Wrap(k))
  {
    var fragments := Fragments(sent[k], capacity)[0 := Fragments(sent[j], capacity)[0]];
    forall i: nat | i < |frames| ensures IsFragment(frames[i], fragments, k % 0x1_0000, i) {
      assert i == 0 || frames[i] == D.FrameOf(sent, capacity, k, i);
    }
  }

  /**
   * Two split messages 65,536 apart share a split id. If a forgotten fragment of the earlier one
   * opens the assembly of the later one, what is delivered as the later message is neither.
   */
  lemma StaleFragmentCorrupts(p: Peer, sent: seq<bytes>, capacity: nat, j: nat, k: nat, frames: seq<Frame>, env: Env)
    requires D.DeliveredOk(p.ordering, p.delivered, sent) && |p.delivered| == k && j < k < |sent|
    requires j % 0x1_0000 == k % 0x1_0000 && k % 0x1_0000 !in p.assemblies.pending
    requires Mixed(frames, sent, capacity, j, k)
    requires 1 < |frames| && Fragments(sent[j], capacity)[0] != Fragments(sent[k], capacity)[0]
    requires AllNew(frames, p.reliable.index)
    requires RoomFor(p.assemblies, Fragments(sent[k], capacity)[0 := Fragments(sent[j], capacity)[0]], p.budgets)
    ensures !(D.Payloads(ReceiveFrames(p, frames, env).peer.delivered) <= sent)
  {
    var first, own := Fragments(sent[j], capacity)[0], Fragments(sent[k], capacity);
    var fragments := own[0 := first];
    assert InProgress(p.assemblies, fragments, k % 0x1_0000, Upto(0), p.assemblies) by {
      UptoIsPartial(0, |fragments|);
    }
    MixedAreFragments(frames, sent, capacity, j, k);
    assert frames[0..] == frames;
    FragmentsArrive(p, p.assemblies, fragments, k % 0x1_0000, 0, frames, env);
    assert fragments == [first] + own[1..] && own == [own[0]] + own[1..];
    DifferentStartsDiffer(first, own[0], own[1..]);
    D.FragmentsConcat(sent[k], capacity);
    var r := ReceiveFrames(p, frames, env).peer.delivered;
    assert D.Payloads(r)[k] == Concat(fragments);
  }
}
