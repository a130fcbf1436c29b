/** Admission of a transferred checkpoint: one pass per list, with the hash sets the code builds. */
module Admission {
  import opened Wrappers
  import opened Bytes
  import opened Sequence
  import opened Budget
  import P = Peer
  import opened Reassembly
  import opened PeerInvariant
  import opened Snapshot

  datatype DuplicateIndexes = DuplicateIndexes(datagrams: set<u24>, reliable: set<u24>)

  method QueueAdmitted(queued: seq<bytes>, b: Budgets) returns (ok: bool)
    ensures ok == QueueValid(queued, b)
  {
    if |queued| > b.applicationQueue {
      return false;
    }
    for i := 0 to |queued|
      invariant forall k :: 0 <= k < i ==> |queued[k]| <= b.maxPayloadBytes
    {
      if |queued[i]| > b.maxPayloadBytes {
        return false;
      }
    }
    ok := true;
  }

  method UnackedAdmitted(list: seq<UnackedSnapshot>, b: Budgets) returns (ok: bool)
    ensures ok == UnackedValid(list, b)
  {
    if |list| > b.maxUnacked {
      return false;
    }
    var seen: set<u24> := {};
    for i := 0 to |list|
      invariant forall s: u24 :: s in seen <==> exists k :: 0 <= k < i && list[k].sequence == s
      invariant forall j, k :: 0 <= j < k < i ==> list[j].sequence != list[k].sequence
      invariant forall k :: 0 <= k < i ==> |list[k].payload| <= b.maxDatagramBytes && TimerOk(list[k])
    {
      if list[i].sequence in seen {
        return false;
      }
      seen := seen + {list[i].sequence};
      if |list[i].payload| > b.maxDatagramBytes || !TimerOk(list[i]) {
        return false;
      }
    }
    ok := true;
  }

  /** Whether the stored parts fit, and how many bytes they hold together. */
  method PartsAdmitted(parts: P.Parts, b: Budgets) returns (ok: bool, total: nat)
    ensures ok == PartsFit(parts, b.maxPayloadBytes)
    ensures ok ==> total == StoredBytes(parts)
  {
    total := 0;
    for i := 0 to |parts|
      invariant forall k :: 0 <= k < i && parts[k].Some? ==> |parts[k].value| <= b.maxPayloadBytes
      invariant total == |P.Join(parts[..i])|
    {
      assert parts[..i + 1][..i] == parts[..i];
      if parts[i].Some? {
        if |parts[i].value| > b.maxPayloadBytes {
          return false, 0;
        }
        total := total + |parts[i].value|;
      }
    }
    assert parts[..|parts|] == parts;
    ok := true;
  }

  lemma {:induction false} SumsAreMonotone(list: seq<AssemblySnapshot>, i: nat)
    requires i <= |list|
    ensures SumParts(list[..i]) <= SumParts(list) && SumBytes(list[..i]) <= SumBytes(list)
    decreases |list| - i
  {
    if i == |list| {
      assert list[..i] == list;
    } else {
      assert list[..i + 1][..i] == list[..i];
      SumsAreMonotone(list, i + 1);
    }
  }

  /** Adds one assembly to the running totals; an overflowing total exceeds every budget. */
  method CountAssembly(parts: P.Parts, partTotal: usize, byteTotal: usize, b: Budgets)
    returns (ok: bool, partTotal': usize, byteTotal': usize)
    ensures ok <==> && parts != [] && PartsFit(parts, b.maxPayloadBytes)
                    && partTotal + PartCount(parts) <= USIZE_MAX && byteTotal + StoredBytes(parts) <= USIZE_MAX
    ensures ok ==> partTotal' == partTotal + PartCount(parts) && byteTotal' == byteTotal + StoredBytes(parts)
  {
    partTotal', byteTotal' := partTotal, byteTotal;
    if parts == [] || partTotal + |parts| > USIZE_MAX {
      return false, partTotal', byteTotal';
    }
    partTotal' := partTotal + |parts|;
    var fit, stored := PartsAdmitted(parts, b);
    if !fit || byteTotal + stored > USIZE_MAX {
      return false, partTotal', byteTotal';
    }
    byteTotal' := byteTotal + stored;
    ok := true;
  }

  /** The first `count` assemblies have distinct ids, which are `ids`, and hold parts that fit. */
  ghost predicate AssembliesChecked(list: seq<AssemblySnapshot>, count: nat, ids: set<u16>, b: Budgets)
    requires count <= |list|
  {
    && (forall s: u16 :: s in ids <==> exists k :: 0 <= k < count && list[k].id == s)
    && (forall j, k :: 0 <= j < k < count ==> list[j].id != list[k].id)
    && (forall k :: 0 <= k < count ==> list[k].parts != [] && PartsFit(list[k].parts, b.maxPayloadBytes))
  }

  lemma OneMoreChecked(list: seq<AssemblySnapshot>, count: nat, ids: set<u16>, b: Budgets)
    requires count < |list| && AssembliesChecked(list, count, ids, b) && list[count].id !in ids
    requires list[count].parts != [] && PartsFit(list[count].parts, b.maxPayloadBytes)
    ensures AssembliesChecked(list, count + 1, ids + {list[count].id}, b)
  {
  }

  lemma SumsOfOneMore(list: seq<AssemblySnapshot>, i: nat)
    requires i < |list|
    ensures SumParts(list[..i + 1]) == SumParts(list[..i]) + PartCount(list[i].parts) <= SumParts(list)
    ensures SumBytes(list[..i + 1]) == SumBytes(list[..i]) + StoredBytes(list[i].parts) <= SumBytes(list)
  {
    assert list[..i + 1][..i] == list[..i];
    SumsAreMonotone(list, i + 1);
  }

  method AssembliesAdmitted(list: seq<AssemblySnapshot>, b: Budgets) returns (ok: bool)
    ensures ok == AssembliesValid(list, b)
  {
    var ids: set<u16> := {};
    var parts: usize, bytes: usize := 0, 0;
    for i := 0 to |list|
      invariant AssembliesChecked(list, i, ids, b)
      invariant parts == SumParts(list[..i]) && bytes == SumBytes(list[..i])
    {
      SumsOfOneMore(list, i);
      if list[i].id in ids {
        return false;
      }
      var fit;
      fit, parts, bytes := CountAssembly(list[i].parts, parts, bytes, b);
      if !fit {
        return false;
      }
      OneMoreChecked(list, i, ids, b);
      ids := ids + {list[i].id};
    }
    assert list[..|list|] == list;
    ok := parts <= b.maxReassemblyParts && bytes <= b.maxReassemblyBytes;
  }

  method HoldbackAdmitted(list: seq<HeldSnapshot>, b: Budgets) returns (ok: bool)
    ensures ok == HoldbackValid(list, b)
  {
    if |list| > b.maxOrderedHoldback {
      return false;
    }
    var seen: set<(byte, u24)> := {};
    for i := 0 to |list|
      invariant forall s: (byte, u24) :: s in seen <==>
              exists k :: 0 <= k < i && (list[k].channel, list[k].sequence) == s
      invariant forall j, k :: 0 <= j < k < i ==>
                  (list[j].channel, list[j].sequence) != (list[k].channel, list[k].sequence)
      invariant forall k :: 0 <= k < i ==> |list[k].payload| <= b.maxPayloadBytes
    {
      var key := (list[i].channel, list[i].sequence);
      if key in seen {
        return false;
      }
      seen := seen + {key};
      if |list[i].payload| > b.maxPayloadBytes {
        return false;
      }
    }
    ok := true;
  }

  method ChannelsAdmitted(list: seq<(byte, u24)>) returns (ok: bool)
    ensures ok == DistinctChannels(list)
  {
    var seen: set<byte> := {};
    for i := 0 to |list|
      invariant forall c: byte :: c in seen <==> exists k :: 0 <= k < i && list[k].0 == c
      invariant forall j, k :: 0 <= j < k < i ==> list[j].0 != list[k].0
    {
      if list[i].0 in seen {
        return false;
      }
      seen := seen + {list[i].0};
    }
    ok := true;
  }

  /** A list has no repeats exactly when its set of elements is as large as the list. */
  lemma {:induction false} SetSizeDetectsRepeats(s: seq<u24>)
    ensures |Elements(s)| <= |s|
    ensures |Elements(s)| == |s| <==> NoRepeats(s)
    decreases |s|
  {
    if s != [] {
      var init, last := s[..|s| - 1], s[|s| - 1];
      SetSizeDetectsRepeats(init);
      assert s == init + [last];
      assert Elements(s) == Elements(init) + {last};
      assert NoRepeats(s) <==> NoRepeats(init) && last !in init by { NoRepeatsSnoc(init, last); }
      if last in init {
        assert Elements(init) + {last} == Elements(init);
      }
    }
  }

  lemma NoRepeatsSnoc(init: seq<u24>, last: u24)
    ensures NoRepeats(init + [last]) <==> NoRepeats(init) && last !in init
  {
    var s := init + [last];
    if NoRepeats(s) {
      assert forall i :: 0 <= i < |init| ==> s[i] == init[i] != s[|init|];
    }
  }

  /** Counts the window before expanding it, then compares the count with the distinct entries. */
  method WindowAdmitted(runs: seq<SequenceRun>, b: Budgets) returns (ok: bool, index: set<u24>)
    ensures ok == WindowValid(runs, b)
    ensures ok ==> index == RestoreWindow(runs).index
  {
    var count := SequenceCount(runs);
    if count.None? || count.value > WindowLimit(b) {
      return false, {};
    }
    index := Elements(Sequences(runs));
    SetSizeDetectsRepeats(Sequences(runs));
    ok := |index| == count.value;
  }

  /** Accepts a checkpoint if and only if it is valid, and then yields its duplicate indexes. */
  method ValidateStructure(s: PeerSnapshot, b: Budgets) returns (r: Option<DuplicateIndexes>)
    ensures r.Some? <==> Valid(s, b)
    ensures r.Some? ==>
              r.value == DuplicateIndexes(RestoreWindow(s.seenDatagrams).index, RestoreWindow(s.seenReliable).index)
  {
    if !MtuOk(s.mtu, b) {
      return None;
    }
    var ok := QueueAdmitted(s.queued, b);
    if !ok { return None; }
    ok := UnackedAdmitted(s.unacked, b);
    if !ok { return None; }
    ok := AssembliesAdmitted(s.reassembly, b);
    if !ok { return None; }
    ok := HoldbackAdmitted(s.holdback, b);
    if !ok { return None; }
    var datagrams, reliable;
    ok, datagrams := WindowAdmitted(s.seenDatagrams, b);
    if !ok { return None; }
    ok, reliable := WindowAdmitted(s.seenReliable, b);
    if !ok { return None; }
    ok := ChannelsAdmitted(s.orderedExpected);
    if !ok { return None; }
    ok := ChannelsAdmitted(s.sequencedLatest);
    if !ok || s.timeoutRemaining > P.PEER_TIMEOUT { return None; }
    r := Some(DuplicateIndexes(datagrams, reliable));
  }
}
