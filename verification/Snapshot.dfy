/** The process-transfer checkpoint of a peer: taking it, validating it and rebuilding the peer. */
module Snapshot {
  import opened Wrappers
  import opened Bytes
  import opened Sequence
  import opened Budget
  import opened Peer
  import opened Reassembly
  import opened PeerInvariant
  import opened Sorting

  datatype UnackedSnapshot = UnackedSnapshot(sequence: u24, payload: bytes, remaining: nat, attempts: u16)

  datatype AssemblySnapshot = AssemblySnapshot(id: u16, parts: Parts)

  datatype HeldSnapshot = HeldSnapshot(channel: byte, sequence: u24, payload: bytes)

  datatype PeerSnapshot = PeerSnapshot(
    remoteAddr: bytes,
    mtu: u16,
    accepted: bool,
    nextDatagram: u24,
    nextReliable: u24,
    nextOrdered: u24,
    nextSplitId: u16,
    lastDatagram: Option<u24>,
    seenDatagrams: seq<SequenceRun>,
    seenReliable: seq<SequenceRun>,
    orderedExpected: seq<(byte, u24)>,
    sequencedLatest: seq<(byte, u24)>,
    queued: seq<bytes>,
    unacked: seq<UnackedSnapshot>,
    reassembly: seq<AssemblySnapshot>,
    holdback: seq<HeldSnapshot>,
    timeoutRemaining: nat)

  // ---- Taking a snapshot ----

  function SequenceKey(s: u24): int { s }

  function SplitKey(id: u16): int { id }

  function ChannelKey(channel: byte): int { channel }

  function HeldKey(key: (byte, u24)): int { key.0 * MODULUS + key.1 }

  ghost function SortedSequences(s: set<u24>): (r: seq<u24>)
    ensures Lists(r, s) && SortedByKey(r, SequenceKey) && |r| == |s|
  {
    assert Injective(s, SequenceKey);
    Sorted(s, SequenceKey)
  }

  ghost function SortedSplits(s: set<u16>): (r: seq<u16>)
    ensures Lists(r, s) && SortedByKey(r, SplitKey) && |r| == |s|
  {
    assert Injective(s, SplitKey);
    Sorted(s, SplitKey)
  }

  ghost function SortedChannels(s: set<byte>): (r: seq<byte>)
    ensures Lists(r, s) && SortedByKey(r, ChannelKey) && |r| == |s|
  {
    assert Injective(s, ChannelKey);
    Sorted(s, ChannelKey)
  }

  ghost function SortedHeld(s: set<(byte, u24)>): (r: seq<(byte, u24)>)
    ensures Lists(r, s) && SortedByKey(r, HeldKey) && |r| == |s|
  {
    assert Injective(s, HeldKey);
    Sorted(s, HeldKey)
  }

  function Remaining(limit: nat, since: Instant, now: Instant): nat {
    SaturatingSub(limit, SaturatingSub(now, since))
  }

  function SnapshotUnacked(sequence: u24, d: Unacked, now: Instant): UnackedSnapshot {
    UnackedSnapshot(sequence, d.payload, Remaining(RetransmitDelay(d.attempts), d.sentAt, now), d.attempts)
  }

  ghost function ListUnacked(m: map<u24, Unacked>, now: Instant): (r: seq<UnackedSnapshot>)
    ensures |r| == |m| == |SortedSequences(m.Keys)|
    ensures forall i :: 0 <= i < |r| ==> SortedSequences(m.Keys)[i] in m
    ensures forall i :: 0 <= i < |r| ==>
      r[i] == SnapshotUnacked(SortedSequences(m.Keys)[i], m[SortedSequences(m.Keys)[i]], now)
  {
    ListedUnacked(SortedSequences(m.Keys), m, now)
  }

  function ListedUnacked(keys: seq<u24>, m: map<u24, Unacked>, now: Instant): (r: seq<UnackedSnapshot>)
    requires Lists(keys, m.Keys)
    ensures |r| == |keys| && forall i :: 0 <= i < |r| ==>
            keys[i] in m && r[i] == SnapshotUnacked(keys[i], m[keys[i]], now)
  {
    assert forall i :: 0 <= i < |keys| ==> keys[i] in m.Keys;
    seq(|keys|, i requires 0 <= i < |keys| => SnapshotUnacked(keys[i], m[keys[i]], now))
  }

  ghost function ListAssemblies(m: map<u16, Parts>): (r: seq<AssemblySnapshot>)
    ensures |r| == |m|
    ensures forall i :: 0 <= i < |r| ==> r[i].id == SortedSplits(m.Keys)[i] && r[i].id in m && r[i].parts == m[r[i].id]
  {
    assert |m.Keys| == |m|;
    ListedAssemblies(SortedSplits(m.Keys), m)
  }

  function ListedAssemblies(keys: seq<u16>, m: map<u16, Parts>): (r: seq<AssemblySnapshot>)
    requires Lists(keys, m.Keys)
    ensures |r| == |keys| && forall i :: 0 <= i < |r| ==> keys[i] in m && r[i] == AssemblySnapshot(keys[i], m[keys[i]])
  {
    assert forall i :: 0 <= i < |keys| ==> keys[i] in m.Keys;
    seq(|keys|, i requires 0 <= i < |keys| => AssemblySnapshot(keys[i], m[keys[i]]))
  }

  ghost function ListHeld(m: map<(byte, u24), bytes>): (r: seq<HeldSnapshot>)
    ensures |r| == |m|
    ensures forall i :: 0 <= i < |r| ==>
      && (r[i].channel, r[i].sequence) == SortedHeld(m.Keys)[i]
      && (r[i].channel, r[i].sequence) in m
      && r[i].payload == m[(r[i].channel, r[i].sequence)]
  {
    assert |m.Keys| == |m|;
    ListedHeld(SortedHeld(m.Keys), m)
  }

  function ListedHeld(keys: seq<(byte, u24)>, m: map<(byte, u24), bytes>): (r: seq<HeldSnapshot>)
    requires Lists(keys, m.Keys)
    ensures |r| == |keys|
    ensures forall i :: 0 <= i < |r| ==> keys[i] in m && r[i] == HeldSnapshot(keys[i].0, keys[i].1, m[keys[i]])
  {
    assert forall i :: 0 <= i < |keys| ==> keys[i] in m.Keys;
    seq(|keys|, i requires 0 <= i < |keys| => HeldSnapshot(keys[i].0, keys[i].1, m[keys[i]]))
  }

  ghost function ListChannels(m: map<byte, u24>): (r: seq<(byte, u24)>)
    ensures |r| == |m|
    ensures forall i :: 0 <= i < |r| ==> r[i].0 == SortedChannels(m.Keys)[i] && r[i].0 in m && r[i].1 == m[r[i].0]
  {
    assert |m.Keys| == |m|;
    ListedChannels(SortedChannels(m.Keys), m)
  }

  function ListedChannels(keys: seq<byte>, m: map<byte, u24>): (r: seq<(byte, u24)>)
    requires Lists(keys, m.Keys)
    ensures |r| == |keys| && forall i :: 0 <= i < |r| ==> keys[i] in m && r[i] == (keys[i], m[keys[i]])
  {
    assert forall i :: 0 <= i < |keys| ==> keys[i] in m.Keys;
    seq(|keys|, i requires 0 <= i < |keys| => (keys[i], m[keys[i]]))
  }

  ghost function TakeSnapshot(p: Peer, now: Instant): PeerSnapshot {
    PeerSnapshot(p.remoteAddr, p.mtu, p.accepted,
                 p.tx.nextDatagram, p.tx.nextReliable, p.tx.nextOrdered, p.tx.nextSplitId, p.lastDatagram,
                 History(p.datagrams.order), History(p.reliable.order),
                 ListChannels(p.ordering.expected), ListChannels(p.sequencedLatest),
                 p.inbox, ListUnacked(p.tx.unacked, now), ListAssemblies(p.assemblies.pending),
                 ListHeld(p.ordering.holdback), Remaining(PEER_TIMEOUT, p.lastObserved, now))
  }

  // ---- Validation ----

  predicate MtuOk(mtu: u16, b: Budgets) { 576 <= mtu <= Max(576, Min(b.maxDatagramBytes, 0xFFFF)) }

  predicate TimerOk(d: UnackedSnapshot) {
    d.remaining <= RetransmitDelay(d.attempts) && 1 <= d.attempts <= MAX_RETRANSMIT_ATTEMPTS
  }

  function SumParts(list: seq<AssemblySnapshot>): nat {
    if list == [] then 0 else SumParts(list[..|list| - 1]) + PartCount(list[|list| - 1].parts)
  }

  function SumBytes(list: seq<AssemblySnapshot>): nat {
    if list == [] then 0 else SumBytes(list[..|list| - 1]) + StoredBytes(list[|list| - 1].parts)
  }

  ghost predicate DistinctChannels(list: seq<(byte, u24)>) {
    forall i, j :: 0 <= i < j < |list| ==> list[i].0 != list[j].0
  }

  ghost predicate UnackedValid(list: seq<UnackedSnapshot>, b: Budgets) {
    && |list| <= b.maxUnacked
    && (forall i, j :: 0 <= i < j < |list| ==> list[i].sequence != list[j].sequence)
    && (forall i :: 0 <= i < |list| ==> |list[i].payload| <= b.maxDatagramBytes && TimerOk(list[i]))
  }

  ghost predicate AssembliesValid(list: seq<AssemblySnapshot>, b: Budgets) {
    && (forall i, j :: 0 <= i < j < |list| ==> list[i].id != list[j].id)
    && (forall i :: 0 <= i < |list| ==> list[i].parts != [] && PartsFit(list[i].parts, b.maxPayloadBytes))
    && SumParts(list) <= b.maxReassemblyParts
    && SumBytes(list) <= b.maxReassemblyBytes
  }

  ghost predicate HoldbackValid(list: seq<HeldSnapshot>, b: Budgets) {
    && |list| <= b.maxOrderedHoldback
    && (forall i, j :: 0 <= i < j < |list| ==>
        (list[i].channel, list[i].sequence) != (list[j].channel, list[j].sequence))
    && (forall i :: 0 <= i < |list| ==> |list[i].payload| <= b.maxPayloadBytes)
  }

  ghost predicate WindowValid(runs: seq<SequenceRun>, b: Budgets) {
    |Sequences(runs)| <= WindowLimit(b) && NoRepeats(Sequences(runs))
  }

  ghost predicate QueueValid(queued: seq<bytes>, b: Budgets) {
    && |queued| <= b.applicationQueue
    && forall i :: 0 <= i < |queued| ==> |queued[i]| <= b.maxPayloadBytes
  }

  /** What admission under a resource policy demands of a checkpoint. */
  ghost predicate Valid(s: PeerSnapshot, b: Budgets) {
    && MtuOk(s.mtu, b)
    && QueueValid(s.queued, b)
    && UnackedValid(s.unacked, b)
    && AssembliesValid(s.reassembly, b)
    && HoldbackValid(s.holdback, b)
    && WindowValid(s.seenDatagrams, b)
    && WindowValid(s.seenReliable, b)
    && DistinctChannels(s.orderedExpected)
    && DistinctChannels(s.sequencedLatest)
    && s.timeoutRemaining <= PEER_TIMEOUT
  }

  // ---- Rebuilding ----

  /** `at - elapsed`, or `at` itself when that would precede the origin of the clock. */
  function Rewind(at: Instant, elapsed: nat): Instant {
    if elapsed <= at then at - elapsed else at
  }

  function RestoreUnacked(d: UnackedSnapshot, at: Instant): Unacked {
    Unacked(d.payload, Rewind(at, SaturatingSub(RetransmitDelay(d.attempts), d.remaining)), d.attempts)
  }

  /** The logs of the peer that was checkpointed; they never influence behaviour. */
  datatype Logs = Logs(output: seq<bytes>, sent: seq<bytes>, delivered: seq<Delivery>)

  function Elements(s: seq<u24>): set<u24> { set x | x in s }

  function RestoreWindow(runs: seq<SequenceRun>): Window {
    Window(Elements(Sequences(runs)), Sequences(runs))
  }

  function Channels(list: seq<(byte, u24)>): (r: seq<byte>)
    ensures |r| == |list| && forall i :: 0 <= i < |r| ==> r[i] == list[i].0
  {
    seq(|list|, i requires 0 <= i < |list| => list[i].0)
  }

  function Indexes(list: seq<(byte, u24)>): (r: seq<u24>)
    ensures |r| == |list| && forall i :: 0 <= i < |r| ==> r[i] == list[i].1
  {
    seq(|list|, i requires 0 <= i < |list| => list[i].1)
  }

  function HeldKeys(list: seq<HeldSnapshot>): (r: seq<(byte, u24)>)
    ensures |r| == |list| && forall i :: 0 <= i < |r| ==> r[i] == (list[i].channel, list[i].sequence)
  {
    seq(|list|, i requires 0 <= i < |list| => (list[i].channel, list[i].sequence))
  }

  function HeldPayloads(list: seq<HeldSnapshot>): (r: seq<bytes>)
    ensures |r| == |list| && forall i :: 0 <= i < |r| ==> r[i] == list[i].payload
  {
    seq(|list|, i requires 0 <= i < |list| => list[i].payload)
  }

  function SplitIds(list: seq<AssemblySnapshot>): (r: seq<u16>)
    ensures |r| == |list| && forall i :: 0 <= i < |r| ==> r[i] == list[i].id
  {
    seq(|list|, i requires 0 <= i < |list| => list[i].id)
  }

  function SplitParts(list: seq<AssemblySnapshot>): (r: seq<Parts>)
    ensures |r| == |list| && forall i :: 0 <= i < |r| ==> r[i] == list[i].parts
  {
    seq(|list|, i requires 0 <= i < |list| => list[i].parts)
  }

  function UnackedKeys(list: seq<UnackedSnapshot>): (r: seq<u24>)
    ensures |r| == |list| && forall i :: 0 <= i < |r| ==> r[i] == list[i].sequence
  {
    seq(|list|, i requires 0 <= i < |list| => list[i].sequence)
  }

  function UnackedValues(list: seq<UnackedSnapshot>, at: Instant): (r: seq<Unacked>)
    ensures |r| == |list| && forall i :: 0 <= i < |r| ==> r[i] == RestoreUnacked(list[i], at)
  {
    seq(|list|, i requires 0 <= i < |list| => RestoreUnacked(list[i], at))
  }

  function Restore(s: PeerSnapshot, b: Budgets, at: Instant, logs: Logs): Peer
    requires SumBytes(s.reassembly) <= b.maxReassemblyBytes && SumParts(s.reassembly) <= b.maxReassemblyParts
  {
    Peer(s.remoteAddr, s.mtu, b, s.accepted, s.lastDatagram,
         RestoreWindow(s.seenDatagrams), RestoreWindow(s.seenReliable),
         Collect<byte, u24>(Channels(s.sequencedLatest), Indexes(s.sequencedLatest)),
         Ordering(Collect<byte, u24>(Channels(s.orderedExpected), Indexes(s.orderedExpected)),
                  Collect<(byte, u24), bytes>(HeldKeys(s.holdback), HeldPayloads(s.holdback))),
         Assemblies(Collect<u16, Parts>(SplitIds(s.reassembly), SplitParts(s.reassembly)),
                    SumBytes(s.reassembly), SumParts(s.reassembly)),
         Transmit(s.nextDatagram, s.nextReliable, s.nextOrdered, s.nextSplitId,
                  Collect<u24, Unacked>(UnackedKeys(s.unacked), UnackedValues(s.unacked, at)),
                  logs.output, logs.sent),
         s.queued, Rewind(at, SaturatingSub(PEER_TIMEOUT, s.timeoutRemaining)), logs.delivered)
  }

  ghost function LogsOf(p: Peer): Logs { Logs(p.tx.output, p.tx.sent, p.delivered) }

  // ---- Every reachable snapshot is admitted ----

  /** Reassembly can build a payload larger than the payload budget, so this is not automatic. */
  ghost predicate PayloadsFit(p: Peer) {
    && (forall i :: 0 <= i < |p.inbox| ==> |p.inbox[i]| <= p.budgets.maxPayloadBytes)
    && HeldFit(p.ordering.holdback, p.budgets)
  }

  lemma {:induction false} ListedSums(list: seq<AssemblySnapshot>, pending: map<u16, Parts>)
    requires forall i :: 0 <= i < |list| ==> list[i].id in pending && list[i].parts == pending[list[i].id]
    requires forall i, j :: 0 <= i < j < |list| ==> list[i].id != list[j].id
    requires |list| == |pending|
    ensures SumParts(list) == Total(pending, PartCount)
    ensures SumBytes(list) == Total(pending, StoredBytes)
    decreases |list|
  {
    if list == [] {
      assert pending == map[];
    } else {
      var n := |list| - 1;
      var id := list[n].id;
      TotalRemove(pending, PartCount, id);
      TotalRemove(pending, StoredBytes, id);
      RemoveShrinks(pending, id);
      ListedSums(list[..n], pending - {id});
    }
  }

  lemma SnapshotSums(p: Peer, now: Instant)
    requires Accounted(p.assemblies, p.budgets)
    ensures SumParts(TakeSnapshot(p, now).reassembly) == p.assemblies.parts
    ensures SumBytes(TakeSnapshot(p, now).reassembly) == p.assemblies.bytes
  {
    ListedSums(ListAssemblies(p.assemblies.pending), p.assemblies.pending);
  }

  lemma WindowIsValid(w: Window, b: Budgets)
    requires WindowOk(w, WindowLimit(b))
    ensures WindowValid(History(w.order), b)
  {
    HistoryIsLossless(w.order);
  }

  /**
   * A running peer's snapshot is admitted under its own budgets exactly when its queued and
   * held-back payloads fit the payload budget.
   */
  lemma SnapshotIsAdmitted(p: Peer, now: Instant)
    requires Inv(p) && MtuOk(p.mtu, p.budgets)
    ensures Valid(TakeSnapshot(p, now), p.budgets) <==> PayloadsFit(p)
  {
    PartsAreValid(p, now);
    ValidUpToPayloads(TakeSnapshot(p, now), p.budgets);
    PayloadsAreValid(p, now);
  }

  lemma PayloadsAreValid(p: Peer, now: Instant)
    requires |p.inbox| <= p.budgets.applicationQueue && |p.ordering.holdback| <= p.budgets.maxOrderedHoldback
    ensures
      var s := TakeSnapshot(p, now);
      QueueValid(s.queued, p.budgets) && HoldbackValid(s.holdback, p.budgets) <==> PayloadsFit(p)
  {
    HoldbackIsValid(p.ordering.holdback, p.budgets);
  }

  lemma ValidUpToPayloads(s: PeerSnapshot, b: Budgets)
    requires MtuOk(s.mtu, b) && UnackedValid(s.unacked, b) && AssembliesValid(s.reassembly, b)
    requires WindowValid(s.seenDatagrams, b) && WindowValid(s.seenReliable, b)
    requires DistinctChannels(s.orderedExpected) && DistinctChannels(s.sequencedLatest)
    requires s.timeoutRemaining <= PEER_TIMEOUT
    ensures Valid(s, b) <==> QueueValid(s.queued, b) && HoldbackValid(s.holdback, b)
  {
  }

  lemma PartsAreValid(p: Peer, now: Instant)
    requires Accountable(p)
    ensures
      var s := TakeSnapshot(p, now);
      && WindowValid(s.seenDatagrams, p.budgets)
      && WindowValid(s.seenReliable, p.budgets)
      && UnackedValid(s.unacked, p.budgets)
      && AssembliesValid(s.reassembly, p.budgets)
      && DistinctChannels(s.orderedExpected)
      && DistinctChannels(s.sequencedLatest)
  {
    WindowIsValid(p.datagrams, p.budgets);
    WindowIsValid(p.reliable, p.budgets);
    UnackedIsValid(p, now);
    AssembliesAreValid(p.assemblies, p.budgets);
    ChannelsAreDistinct(p.ordering.expected);
    ChannelsAreDistinct(p.sequencedLatest);
  }

  lemma ChannelsAreDistinct(m: map<byte, u24>)
    ensures DistinctChannels(ListChannels(m))
  {
  }

  lemma UnackedIsValid(p: Peer, now: Instant)
    requires TxOk(p.tx, p.budgets)
    ensures UnackedValid(ListUnacked(p.tx.unacked, now), p.budgets)
  {
    var list := ListUnacked(p.tx.unacked, now);
    forall i | 0 <= i < |list| ensures |list[i].payload| <= p.budgets.maxDatagramBytes && TimerOk(list[i]) {
      assert UnackedOk(p.tx.unacked[SortedSequences(p.tx.unacked.Keys)[i]], p.budgets);
    }
  }

  lemma AssembliesAreValid(a: Assemblies, b: Budgets)
    requires Accounted(a, b)
    ensures AssembliesValid(ListAssemblies(a.pending), b)
  {
    var list := ListAssemblies(a.pending);
    ListedSums(list, a.pending);
    forall i | 0 <= i < |list| ensures list[i].parts != [] && PartsFit(list[i].parts, b.maxPayloadBytes) {
      assert WireSized(a.pending[list[i].id]);
    }
  }

  ghost predicate HeldFit(m: map<(byte, u24), bytes>, b: Budgets) {
    forall key <- m :: |m[key]| <= b.maxPayloadBytes
  }

  lemma HeldAreDistinct(m: map<(byte, u24), bytes>, i: nat, j: nat)
    requires i < j < |m|
    ensures
      var list := ListHeld(m);
      (list[i].channel, list[i].sequence) != (list[j].channel, list[j].sequence)
  {
    var keys := SortedHeld(m.Keys);
    assert HeldKey(keys[i]) < HeldKey(keys[j]);
  }

  lemma HeldFitListed(m: map<(byte, u24), bytes>, b: Budgets)
    ensures (forall i :: 0 <= i < |m| ==> |ListHeld(m)[i].payload| <= b.maxPayloadBytes) <==> HeldFit(m, b)
  {
    var keys, list := SortedHeld(m.Keys), ListHeld(m);
    forall key | key in m ensures exists i :: 0 <= i < |list| && list[i].payload == m[key] {
      assert key in keys;
      var i :| 0 <= i < |keys| && keys[i] == key;
      assert list[i].payload == m[key];
    }
  }

  lemma HoldbackIsValid(m: map<(byte, u24), bytes>, b: Budgets)
    requires |m| <= b.maxOrderedHoldback
    ensures HoldbackValid(ListHeld(m), b) <==> HeldFit(m, b)
  {
    HeldFitListed(m, b);
    forall i, j | 0 <= i < j < |m|
      ensures (ListHeld(m)[i].channel, ListHeld(m)[i].sequence) != (ListHeld(m)[j].channel, ListHeld(m)[j].sequence)
    {
      HeldAreDistinct(m, i, j);
    }
  }

  // ---- The rebuilt peer ----

  /** The time that counts: beyond its limit a timer is simply due. */
  function Age(limit: nat, since: Instant, now: Instant): nat { Min(SaturatingSub(now, since), limit) }

  /** Every age can be subtracted from the new clock. */
  ghost predicate ClockReaches(p: Peer, now: Instant, at: Instant) {
    && Age(PEER_TIMEOUT, p.lastObserved, now) <= at
    && forall s <- p.tx.unacked :: AgeReached(p.tx.unacked[s], now, at)
  }

  function RebaseUnacked(d: Unacked, now: Instant, at: Instant): Unacked {
    d.(sentAt := Rewind(at, Age(RetransmitDelay(d.attempts), d.sentAt, now)))
  }

  /** The same peer with its timers moved from the old clock to the new one. */
  function Rebase(p: Peer, now: Instant, at: Instant): Peer {
    p.(lastObserved := Rewind(at, Age(PEER_TIMEOUT, p.lastObserved, now)),
       tx := p.tx.(unacked := RebaseAll(p.tx.unacked, now, at)))
  }

  lemma RestoreChannels(m: map<byte, u24>)
    ensures Collect<byte, u24>(Channels(ListChannels(m)), Indexes(ListChannels(m))) == m
  {
    var list := ListChannels(m);
    assert Channels(list) == SortedChannels(m.Keys);
    CollectRebuilds<byte, u24>(Channels(list), Indexes(list), m);
  }

  lemma RestoreHeld(m: map<(byte, u24), bytes>)
    ensures Collect<(byte, u24), bytes>(HeldKeys(ListHeld(m)), HeldPayloads(ListHeld(m))) == m
  {
    var list := ListHeld(m);
    assert HeldKeys(list) == SortedHeld(m.Keys);
    CollectRebuilds<(byte, u24), bytes>(HeldKeys(list), HeldPayloads(list), m);
  }

  lemma RestoreAssemblies(m: map<u16, Parts>)
    ensures Collect<u16, Parts>(SplitIds(ListAssemblies(m)), SplitParts(ListAssemblies(m))) == m
  {
    var list := ListAssemblies(m);
    assert SplitIds(list) == SortedSplits(m.Keys);
    CollectRebuilds<u16, Parts>(SplitIds(list), SplitParts(list), m);
  }

  function RebaseAll(m: map<u24, Unacked>, now: Instant, at: Instant): (r: map<u24, Unacked>)
    ensures r.Keys == m.Keys
  {
    map s | s in m :: RebaseUnacked(m[s], now, at)
  }

  lemma RestoreOneUnacked(sequence: u24, d: Unacked, now: Instant, at: Instant)
    ensures RestoreUnacked(SnapshotUnacked(sequence, d, now), at) == RebaseUnacked(d, now, at)
  {
  }

  lemma RestoreAllUnacked(m: map<u24, Unacked>, now: Instant, at: Instant)
    ensures Collect<u24, Unacked>(UnackedKeys(ListUnacked(m, now)), UnackedValues(ListUnacked(m, now), at)) ==
            RebaseAll(m, now, at)
  {
    var list, sorted := ListUnacked(m, now), SortedSequences(m.Keys);
    var keys, values := UnackedKeys(list), UnackedValues(list, at);
    assert keys == sorted;
    forall i | 0 <= i < |keys| ensures keys[i] in m && values[i] == RebaseAll(m, now, at)[keys[i]] {
      RestoreOneUnacked(sorted[i], m[sorted[i]], now, at);
    }
    CollectRebuilds<u24, Unacked>(keys, values, RebaseAll(m, now, at));
  }

  lemma RestoreWindowRebuilds(w: Window, limit: usize)
    requires WindowOk(w, limit)
    ensures RestoreWindow(History(w.order)) == w
  {
    HistoryIsLossless(w.order);
  }

  /** Rebuilding from a peer's own snapshot gives that peer back, with its timers rebased. */
  lemma RestoreIsRebase(p: Peer, now: Instant, at: Instant)
    requires Inv(p)
    ensures
      var s := TakeSnapshot(p, now);
      && SumBytes(s.reassembly) <= p.budgets.maxReassemblyBytes
      && SumParts(s.reassembly) <= p.budgets.maxReassemblyParts
      && Restore(s, p.budgets, at, LogsOf(p)) == Rebase(p, now, at)
  {
    SnapshotSums(p, now);
    RestoresReceiver(p, now, at);
    RestoresSender(p, now, at);
  }

  lemma RestoresReceiver(p: Peer, now: Instant, at: Instant)
    requires Inv(p)
    ensures
      var s := TakeSnapshot(p, now);
      && RestoreWindow(s.seenDatagrams) == p.datagrams && RestoreWindow(s.seenReliable) == p.reliable
      && Collect<byte, u24>(Channels(s.sequencedLatest), Indexes(s.sequencedLatest)) == p.sequencedLatest
      && Collect<byte, u24>(Channels(s.orderedExpected), Indexes(s.orderedExpected)) == p.ordering.expected
      && Collect<(byte, u24), bytes>(HeldKeys(s.holdback), HeldPayloads(s.holdback)) == p.ordering.holdback
      && Collect<u16, Parts>(SplitIds(s.reassembly), SplitParts(s.reassembly)) == p.assemblies.pending
  {
    RestoreWindowRebuilds(p.datagrams, WindowLimit(p.budgets));
    RestoreWindowRebuilds(p.reliable, WindowLimit(p.budgets));
    RestoreChannels(p.ordering.expected);
    RestoreChannels(p.sequencedLatest);
    RestoreHeld(p.ordering.holdback);
    RestoreAssemblies(p.assemblies.pending);
  }

  lemma RestoresSender(p: Peer, now: Instant, at: Instant)
    ensures
      var s := TakeSnapshot(p, now);
      && Collect<u24, Unacked>(UnackedKeys(s.unacked), UnackedValues(s.unacked, at)) == RebaseAll(p.tx.unacked, now, at)
      && SaturatingSub(PEER_TIMEOUT, s.timeoutRemaining) == Age(PEER_TIMEOUT, p.lastObserved, now)
  {
    RestoreAllUnacked(p.tx.unacked, now, at);
  }

  /** One timer shows the same remaining time after rebasing exactly when the clock reaches its age. */
  lemma RebasedTimer(limit: nat, since: Instant, now: Instant, at: Instant)
    ensures Remaining(limit, Rewind(at, Age(limit, since, now)), at) == Remaining(limit, since, now)
       <==> Age(limit, since, now) <= at
  {
  }

  ghost predicate AgeReached(d: Unacked, now: Instant, at: Instant) {
    Age(RetransmitDelay(d.attempts), d.sentAt, now) <= at
  }

  lemma RebasedEntry(sequence: u24, d: Unacked, now: Instant, at: Instant)
    ensures SnapshotUnacked(sequence, RebaseUnacked(d, now, at), at) == SnapshotUnacked(sequence, d, now)
       <==> AgeReached(d, now, at)
  {
    RebasedTimer(RetransmitDelay(d.attempts), d.sentAt, now, at);
  }

  lemma RebasedListing(m: map<u24, Unacked>, now: Instant, at: Instant)
    ensures ListUnacked(RebaseAll(m, now, at), at) == ListUnacked(m, now) <==>
            forall s <- m :: AgeReached(m[s], now, at)
  {
    var keys := SortedSequences(m.Keys);
    var list, list' := ListUnacked(m, now), ListUnacked(RebaseAll(m, now, at), at);
    forall i | 0 <= i < |keys| ensures keys[i] in m && (list[i] == list'[i] <==> AgeReached(m[keys[i]], now, at)) {
      RebasedEntry(keys[i], m[keys[i]], now, at);
    }
    if list == list' {
      forall s | s in m ensures AgeReached(m[s], now, at) {
        assert s in keys;
      }
    }
  }

  /** The rebuilt peer yields the same snapshot if and only if the new clock reaches back far enough. */
  lemma RestoredSnapshotIsTheSame(p: Peer, now: Instant, at: Instant)
    requires Inv(p)
    ensures
      var s := TakeSnapshot(p, now);
      && SumBytes(s.reassembly) <= p.budgets.maxReassemblyBytes
      && SumParts(s.reassembly) <= p.budgets.maxReassemblyParts
      && (TakeSnapshot(Restore(s, p.budgets, at, LogsOf(p)), at) == s <==> ClockReaches(p, now, at))
  {
    RestoreIsRebase(p, now, at);
    RebasedListing(p.tx.unacked, now, at);
    RebasedTimer(PEER_TIMEOUT, p.lastObserved, now, at);
  }
}
