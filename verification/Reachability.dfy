/** What the invariants say, spelled out for every state a fresh peer can reach. */
module Reachability {
  import opened Wrappers
  import opened Bytes
  import opened Sequence
  import opened Budget
  import opened Wire
  import opened Peer
  import opened Reassembly
  import opened PeerInvariant

  // ---- Duplicate windows over whole runs ----

  /** The window after a run of offers; one already remembered is passed over. */
  function Offered(w: Window, arrivals: seq<u24>, limit: usize): Window
    decreases |arrivals|
  {
    if arrivals == [] then w
    else Offered(if arrivals[0] in w.index then w else Admit(w, arrivals[0], limit), arrivals[1..], limit)
  }

  lemma {:induction false} OfferedContinues(before: seq<u24>, arrivals: seq<u24>, limit: usize)
    ensures Offered(Windowed(before, limit), arrivals, limit) == Windowed(before + arrivals, limit)
    decreases |arrivals|
  {
    if arrivals == [] {
      assert before + arrivals == before;
    } else {
      var longer := before + [arrivals[0]];
      assert longer[..|before|] == before;
      assert longer + arrivals[1..] == before + arrivals;
      OfferedContinues(longer, arrivals[1..], limit);
    }
  }

  lemma {:induction false} OfferedAppends(w: Window, a: seq<u24>, b: seq<u24>, limit: usize)
    ensures Offered(w, a + b, limit) == Offered(Offered(w, a, limit), b, limit)
    decreases |a|
  {
    if a == [] {
      assert a + b == b;
    } else {
      assert (a + b)[1..] == a[1..] + b;
      OfferedAppends(if a[0] in w.index then w else Admit(w, a[0], limit), a[1..], b, limit);
    }
  }

  /** The reliable indexes among the frames that are looked at before an error stops the rest. */
  function FrameIndexes(p: Peer, frames: seq<Frame>, env: Env): seq<u24>
    decreases |frames|
  {
    if frames == [] then [] else
    var r := ReceiveFrame(p, frames[0], env);
    (if frames[0].reliableIndex.Some? then [frames[0].reliableIndex.value] else []) +
    if r.error.Some? then [] else FrameIndexes(r.peer, frames[1..], env)
  }

  /** The reliable indexes one event offers to the window. */
  function StepIndexes(p: Peer, e: Event): seq<u24> {
    if !e.Arrive? || DecodeAcknowledgement(e.datagram) != Ok(None) then [] else
    match DecodeDatagram(e.datagram, p.budgets)
    case Err(_) => []
    case Ok(d) =>
      var p1 := Observe(p, e.env.now);
      if d.sequence in p1.datagrams.index then [] else FrameIndexes(Register(p1, d.sequence), d.frames, e.env)
  }

  function RunIndexes(p: Peer, events: seq<Event>): seq<u24>
    decreases |events|
  {
    if events == [] then [] else
    var r := Step(p, events[0]);
    StepIndexes(p, events[0]) + if r.error.Some? then [] else RunIndexes(r.peer, events[1..])
  }

  lemma ReassembleKeepsWindow(p: Peer, f: Frame, env: Env)
    ensures Reassemble(p, f, env).peer.reliable == p.reliable
  {
  }

  lemma FrameOffers(p: Peer, f: Frame, env: Env)
    ensures ReceiveFrame(p, f, env).peer.reliable ==
            Offered(p.reliable, if f.reliableIndex.Some? then [f.reliableIndex.value] else [], WindowLimit(p.budgets))
  {
    ReassembleKeepsWindow(p, f, env);
    if f.reliableIndex.Some? {
      var admitted := p.(reliable := Admit(p.reliable, f.reliableIndex.value, WindowLimit(p.budgets)));
      ReassembleKeepsWindow(admitted, f, env);
    }
  }

  lemma {:induction false} FramesOffer(p: Peer, frames: seq<Frame>, env: Env)
    ensures ReceiveFrames(p, frames, env).peer.reliable ==
            Offered(p.reliable, FrameIndexes(p, frames, env), WindowLimit(p.budgets))
    ensures ReceiveFrames(p, frames, env).peer.budgets == p.budgets
    decreases |frames|
  {
    if frames != [] {
      var r := ReceiveFrame(p, frames[0], env);
      var first := if frames[0].reliableIndex.Some? then [frames[0].reliableIndex.value] else [];
      FrameOffers(p, frames[0], env);
      if r.error.None? {
        FramesOffer(r.peer, frames[1..], env);
        OfferedAppends(p.reliable, first, FrameIndexes(r.peer, frames[1..], env), WindowLimit(p.budgets));
      } else {
        assert first + [] == first;
      }
    }
  }

  lemma StepOffers(p: Peer, e: Event)
    ensures Step(p, e).peer.reliable == Offered(p.reliable, StepIndexes(p, e), WindowLimit(p.budgets))
    ensures Step(p, e).peer.budgets == p.budgets
  {
    if e.Arrive? {
      match DecodeAcknowledgement(e.datagram)
      case Err(_) =>
      case Ok(Some(_)) =>
      case Ok(None) =>
        match DecodeDatagram(e.datagram, p.budgets)
        case Err(_) =>
        case Ok(d) => FramesOffer(Register(Observe(p, e.env.now), d.sequence), d.frames, e.env);
    }
  }

  lemma {:induction false} RunOffers(p: Peer, events: seq<Event>)
    ensures Run(p, events).peer.reliable == Offered(p.reliable, RunIndexes(p, events), WindowLimit(p.budgets))
    ensures Run(p, events).peer.budgets == p.budgets
    decreases |events|
  {
    if events != [] {
      var r := Step(p, events[0]);
      StepOffers(p, events[0]);
      if r.error.None? {
        RunOffers(r.peer, events[1..]);
        OfferedAppends(p.reliable, StepIndexes(p, events[0]), RunIndexes(r.peer, events[1..]), WindowLimit(p.budgets));
      } else {
        assert StepIndexes(p, events[0]) + [] == StepIndexes(p, events[0]);
      }
    }
  }

  /**
   * Over any run of a fresh peer: a reliable index is remembered exactly if it is among the last N
   * that a naive search would have let through, N being the window limit, and the set and the
   * queue agree. So a reliable frame is processed if and only if that search does not find it.
   */
  lemma DuplicatesAreExactlyTheRecent(remoteAddr: bytes, mtu: u16, b: Budgets, now: Instant, events: seq<Event>, s: u24)
    ensures
      var p := NewPeer(remoteAddr, mtu, b, now);
      var w := Run(p, events).peer.reliable;
      var passed := Passed(RunIndexes(p, events), WindowLimit(b));
      && w.order == Recent(passed, WindowLimit(b)) && |w.order| <= WindowLimit(b) && NoRepeats(w.order)
      && (s in w.index <==> s in Recent(passed, WindowLimit(b)))
  {
    var p := NewPeer(remoteAddr, mtu, b, now);
    RunOffers(p, events);
    OfferedContinues([], RunIndexes(p, events), WindowLimit(b));
    assert [] + RunIndexes(p, events) == RunIndexes(p, events);
    WindowRefinesNaiveFilter(RunIndexes(p, events), WindowLimit(b));
  }

  // ---- Ordered channels, counters and attempts ----

  /**
   * Any number of deliveries, wraparound included: the k-th payload on a channel has index k modulo
   * 2^24, the channel expects the next one, and while the peer runs, whatever is held back is
   * strictly newer than that.
   */
  lemma OrderedAcrossWraparound(remoteAddr: bytes, mtu: u16, b: Budgets, now: Instant, events: seq<Event>,
      channel: byte)
    ensures
      var r := Run(NewPeer(remoteAddr, mtu, b, now), events);
      var log := ChannelLog(r.peer.delivered, channel);
      && (forall k :: 0 <= k < |log| ==> log[k].InOrder? && log[k].index as int == k % 0x100_0000)
      && Expected(r.peer.ordering, channel) as int == |log| % 0x100_0000
      && (r.error.None? ==> forall key <- r.peer.ordering.holdback ::
            key.0 == channel ==>
              IsNewer(key.1, Expected(r.peer.ordering, channel)) && key.1 != Expected(r.peer.ordering, channel))
  {
    var p := NewPeer(remoteAddr, mtu, b, now);
    NewPeerInv(remoteAddr, mtu, b, now);
    RunKeeps(p, events);
    assert ChannelOk(Run(p, events).peer.delivered, Run(p, events).peer.ordering, channel);
  }

  /**
   * The reassembly counters are the true sums over the pending assemblies and within budget, and
   * every unacknowledged datagram has been sent between once and sixty times.
   */
  lemma BooksBalance(remoteAddr: bytes, mtu: u16, b: Budgets, now: Instant, events: seq<Event>)
    ensures
      var p := Run(NewPeer(remoteAddr, mtu, b, now), events).peer;
      && p.assemblies.bytes == Total(p.assemblies.pending, StoredBytes) <= p.budgets.maxReassemblyBytes
      && p.assemblies.parts == Total(p.assemblies.pending, PartCount) <= p.budgets.maxReassemblyParts
      && (forall s <- p.tx.unacked :: 1 <= p.tx.unacked[s].attempts <= 60)
      && |p.tx.unacked| <= p.budgets.maxUnacked
  {
    NewPeerInv(remoteAddr, mtu, b, now);
    RunKeeps(NewPeer(remoteAddr, mtu, b, now), events);
  }

  /** Over any run and for any budgets, no saturating sum or difference of the counters ever clamps. */
  lemma NoSaturationClamps(remoteAddr: bytes, mtu: u16, b: Budgets, now: Instant, events: seq<Event>,
                           payload: bytes, count: u32, id: u16)
    requires |payload| <= MAX_FRAME_PAYLOAD
    ensures
      var a := Run(NewPeer(remoteAddr, mtu, b, now), events).peer.assemblies;
      && SaturatingAdd(a.bytes, |payload|) == a.bytes + |payload|
      && SaturatingAdd(a.parts, count) == a.parts + count
      && (id in a.pending ==>
            && StoredBytes(a.pending[id]) <= a.bytes
            && PartCount(a.pending[id]) <= a.parts)
  {
    var r := Run(NewPeer(remoteAddr, mtu, b, now), events);
    NewPeerInv(remoteAddr, mtu, b, now);
    RunKeeps(NewPeer(remoteAddr, mtu, b, now), events);
    NothingClamps(r.peer.assemblies, r.peer.budgets, payload, count);
  }
}
