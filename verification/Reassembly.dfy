/** Accounting of pending assemblies, and reassembly of one message in any arrival order. */
module Reassembly {
  import opened Wrappers
  import opened Bytes
  import opened Budget
  import opened Wire
  import opened Peer

  function PartCount(parts: Parts): nat { |parts| }

  function StoredBytes(parts: Parts): nat { |Join(parts)| }

  /** The sum of `size` over every pending assembly. */
  ghost function Total(pending: map<u16, Parts>, size: Parts -> nat): nat
    decreases |pending|
  {
    if pending == map[] then 0 else
    var id :| id in pending;
    RemoveShrinks(pending, id);
    size(pending[id]) + Total(pending - {id}, size)
  }

  lemma {:induction false} TotalRemove(pending: map<u16, Parts>, size: Parts -> nat, id: u16)
    requires id in pending
    ensures Total(pending, size) == size(pending[id]) + Total(pending - {id}, size)
    decreases |pending|
  {
    var picked: u16 :| picked in pending &&
        Total(pending, size) == size(pending[picked]) + Total(pending - {picked}, size);
    if picked != id {
      RemoveShrinks(pending, picked);
      RemoveShrinks(pending, id);
      TotalRemove(pending - {picked}, size, id);
      TotalRemove(pending - {id}, size, picked);
      assert pending - {picked} - {id} == pending - {id} - {picked};
    }
  }

  lemma TotalInsert(pending: map<u16, Parts>, size: Parts -> nat, id: u16, parts: Parts)
    requires id !in pending
    ensures Total(pending[id := parts], size) == size(parts) + Total(pending, size)
  {
    TotalRemove(pending[id := parts], size, id);
    assert pending[id := parts] - {id} == pending;
  }

  lemma TotalUpdate(pending: map<u16, Parts>, size: Parts -> nat, id: u16, parts: Parts)
    requires id in pending
    ensures Total(pending[id := parts], size) == Total(pending, size) - size(pending[id]) + size(parts)
  {
    TotalRemove(pending, size, id);
    TotalRemove(pending[id := parts], size, id);
    assert pending[id := parts] - {id} == pending - {id};
  }

  lemma {:induction false} JoinGrows(parts: Parts, i: nat, payload: bytes)
    requires i < |parts| && parts[i] == None
    ensures |Join(parts[i := Some(payload)])| == |Join(parts)| + |payload|
    decreases |parts|
  {
    var updated := parts[i := Some(payload)];
    if i == |parts| - 1 {
      assert updated[..i] == parts[..i];
    } else {
      JoinGrows(parts[..|parts| - 1], i, payload);
      assert updated[..|parts| - 1] == parts[..|parts| - 1][i := Some(payload)];
    }
  }

  lemma {:induction false} JoinOfMissing(n: nat)
    ensures Join(Missing(n)) == []
  {
    if n > 0 {
      JoinOfMissing(n - 1);
      assert Missing(n)[..n - 1] == Missing(n - 1);
    }
  }

  /** Every stored part fits the payload budget. */
  ghost predicate PartsFit(parts: Parts, limit: usize) {
    forall i :: 0 <= i < |parts| && parts[i].Some? ==> |parts[i].value| <= limit
  }

  const MAX_ASSEMBLIES := 0x1_0000
  const MAX_PARTS := 0x1_0000_0000

  /** What the wire allows of one assembly: a 32-bit part count, and parts no larger than a frame. */
  ghost predicate WireSized(parts: Parts) { 0 < |parts| < MAX_PARTS && PartsFit(parts, MAX_FRAME_PAYLOAD) }

  /** The counters are the true sums and within budget, whatever the budget; stored parts fit. */
  ghost predicate Accounted(a: Assemblies, b: Budgets) {
    && a.bytes == Total(a.pending, StoredBytes) <= b.maxReassemblyBytes
    && a.parts == Total(a.pending, PartCount) <= b.maxReassemblyParts
    && (forall id <- a.pending :: WireSized(a.pending[id]) && PartsFit(a.pending[id], b.maxPayloadBytes))
  }

  lemma RemovesOne<K, V>(m: map<K, V>, k: K)
    requires k in m
    ensures |m - {k}| == |m| - 1
  {
    assert (m - {k}).Keys == m.Keys - {k};
    assert |m.Keys| == |m| && |(m - {k}).Keys| == |m - {k}|;
  }

  lemma OneMore(n: nat, limit: nat)
    ensures (n + 1) * limit == n * limit + limit
  {
  }

  lemma {:induction false} TotalIsBounded(pending: map<u16, Parts>, size: Parts -> nat, limit: nat)
    requires forall id <- pending :: size(pending[id]) <= limit
    ensures Total(pending, size) <= |pending| * limit
    decreases |pending|
  {
    if pending != map[] {
      var id: u16 :| id in pending;
      RemovesOne(pending, id);
      TotalRemove(pending, size, id);
      TotalIsBounded(pending - {id}, size, limit);
      OneMore(|pending| - 1, limit);
    }
  }

  lemma {:induction false} JoinFits(parts: Parts)
    requires PartsFit(parts, MAX_FRAME_PAYLOAD)
    ensures |Join(parts)| <= |parts| * MAX_FRAME_PAYLOAD
  {
    if parts != [] {
      JoinFits(parts[..|parts| - 1]);
    }
  }

  lemma {:induction false} SixteenBitKeys(keys: set<u16>, n: nat)
    requires forall k: u16 :: k in keys ==> k < n
    ensures |keys| <= n
    decreases n
  {
    if n == 0 {
      assert keys == {};
    } else {
      var top := n - 1;
      if top in keys {
        SixteenBitKeys(keys - {top}, top);
      } else {
        SixteenBitKeys(keys, top);
      }
    }
  }

  /** Far below the machine word: sixteen-bit ids, 32-bit part counts and frame-sized parts see to it. */
  lemma SumsStaySmall(a: Assemblies)
    requires forall id <- a.pending :: WireSized(a.pending[id])
    ensures Total(a.pending, StoredBytes) <= MAX_ASSEMBLIES * MAX_PARTS * MAX_FRAME_PAYLOAD
    ensures Total(a.pending, PartCount) <= MAX_ASSEMBLIES * MAX_PARTS
  {
    SixteenBitKeys(a.pending.Keys, MAX_ASSEMBLIES);
    assert |a.pending| == |a.pending.Keys|;
    forall id | id in a.pending ensures StoredBytes(a.pending[id]) <= MAX_PARTS * MAX_FRAME_PAYLOAD {
      JoinFits(a.pending[id]);
    }
    TotalIsBounded(a.pending, StoredBytes, MAX_PARTS * MAX_FRAME_PAYLOAD);
    TotalIsBounded(a.pending, PartCount, MAX_PARTS);
  }

  /** No saturating operation of reassembly ever clamps, for any budgets. */
  lemma NothingClamps(a: Assemblies, b: Budgets, payload: bytes, count: u32)
    requires Accounted(a, b) && |payload| <= MAX_FRAME_PAYLOAD
    ensures SaturatingAdd(a.bytes, |payload|) == a.bytes + |payload|
    ensures SaturatingAdd(a.parts, count) == a.parts + count
    ensures forall id <- a.pending ::
              SaturatingSub(a.bytes, StoredBytes(a.pending[id])) as int == a.bytes - StoredBytes(a.pending[id])
    ensures forall id <- a.pending ::
              SaturatingSub(a.parts, PartCount(a.pending[id])) as int == a.parts - PartCount(a.pending[id])
  {
    SumsStaySmall(a);
    forall id | id in a.pending
      ensures StoredBytes(a.pending[id]) <= a.bytes && PartCount(a.pending[id]) <= a.parts
    {
      TotalRemove(a.pending, StoredBytes, id);
      TotalRemove(a.pending, PartCount, id);
    }
  }

  /** Every pending assembly still lacks a part. */
  ghost predicate AllIncomplete(a: Assemblies) {
    forall id <- a.pending :: !AllPresent(a.pending[id])
  }

  lemma FinishAccounts(a: Assemblies, id: u16, b: Budgets)
    requires id in a.pending && Accounted(a, b)
    requires forall other <- a.pending :: other != id ==> !AllPresent(a.pending[other])
    ensures Accounted(Finish(a, id).0, b) && AllIncomplete(Finish(a, id).0)
    ensures Finish(a, id).1.Complete? ==>
            && Finish(a, id).0.bytes == a.bytes - StoredBytes(a.pending[id])
            && Finish(a, id).0.parts == a.parts - PartCount(a.pending[id])
  {
    TotalRemove(a.pending, StoredBytes, id);
    TotalRemove(a.pending, PartCount, id);
  }

  lemma StoreAccounts(a: Assemblies, id: u16, index: nat, payload: bytes, b: Budgets)
    requires id in a.pending && index < |a.pending[id]|
    requires Accounted(a, b) && AllIncomplete(a) && FitsFrame(payload, b.maxPayloadBytes)
    ensures Accounted(Store(a, id, index, payload, b).0, b) && AllIncomplete(Store(a, id, index, payload, b).0)
  {
    var parts := a.pending[id];
    NothingClamps(a, b, payload, 0);
    if parts[index].None? && a.bytes + |payload| <= b.maxReassemblyBytes {
      var updated := parts[index := Some(payload)];
      var a1 := a.(bytes := a.bytes + |payload|, pending := a.pending[id := updated]);
      JoinGrows(parts, index, payload);
      TotalUpdate(a.pending, StoredBytes, id, updated);
      TotalUpdate(a.pending, PartCount, id, updated);
      FinishAccounts(a1, id, b);
    } else if parts[index].Some? {
      FinishAccounts(a, id, b);
    }
  }

  /** Accepting any fragment whatsoever keeps the books, whether it is stored, completes or is refused. */
  lemma AcceptFragmentAccounts(a: Assemblies, split: SplitHeader, payload: bytes, b: Budgets)
    requires Accounted(a, b) && AllIncomplete(a) && FitsFrame(payload, b.maxPayloadBytes)
    ensures Accounted(AcceptFragment(a, split, payload, b).0, b)
    ensures AllIncomplete(AcceptFragment(a, split, payload, b).0)
  {
    if 0 < split.count && split.index < split.count {
      var isNew := split.id !in a.pending;
      NothingClamps(a, b, payload, split.count);
      if a.parts + (if isNew then split.count else 0) <= b.maxReassemblyParts {
        var a1 := Open(a, split.id, split.count);
        if isNew {
          JoinOfMissing(split.count);
          TotalInsert(a.pending, StoredBytes, split.id, Missing(split.count));
          TotalInsert(a.pending, PartCount, split.id, Missing(split.count));
          assert !AllPresent(Missing(split.count)) by { assert Missing(split.count)[0] in Missing(split.count); }
        }
        if |a1.pending[split.id]| == split.count {
          StoreAccounts(a1, split.id, split.index, payload, b);
        }
      }
    }
  }

  // ---- One message, any arrival order ----

  function Concat(fragments: seq<bytes>): bytes {
    if fragments == [] then [] else Concat(fragments[..|fragments| - 1]) + fragments[|fragments| - 1]
  }

  /** `parts` holds exactly the fragments whose index has arrived. */
  ghost predicate Holds(parts: Parts, fragments: seq<bytes>, arrived: set<nat>) {
    && |parts| == |fragments|
    && forall i :: 0 <= i < |parts| ==> parts[i] == if i in arrived then Some(fragments[i]) else None
  }

  lemma {:induction false} JoinOfAll(parts: Parts, fragments: seq<bytes>)
    requires |parts| == |fragments| && forall i :: 0 <= i < |parts| ==> parts[i] == Some(fragments[i])
    ensures Join(parts) == Concat(fragments)
  {
    if parts != [] {
      JoinOfAll(parts[..|parts| - 1], fragments[..|fragments| - 1]);
    }
  }

  /** A partial set of stored fragments never takes more room than the whole message. */
  lemma {:induction false} JoinIsBounded(parts: Parts, fragments: seq<bytes>, arrived: set<nat>)
    requires Holds(parts, fragments, arrived)
    ensures |Join(parts)| <= |Concat(fragments)|
    decreases |parts|
  {
    if parts != [] {
      JoinIsBounded(parts[..|parts| - 1], fragments[..|fragments| - 1], arrived);
    }
  }

  /** A run of fragment arrivals of one message; stops at the first that is not merely pending. */
  function Arrivals(a: Assemblies, fragments: seq<bytes>, id: u16, indexes: seq<nat>, b: Budgets): (Assemblies,
      Assembled)
    requires |fragments| < 0x1_0000_0000
    requires forall k :: 0 <= k < |indexes| ==> indexes[k] < |fragments|
    decreases |indexes|
  {
    if indexes == [] then (a, Pending) else
    var r := AcceptFragment(a, SplitHeader(|fragments|, id, indexes[0]), fragments[indexes[0]], b);
    if r.1.Pending? then Arrivals(r.0, fragments, id, indexes[1..], b) else r
  }

  ghost function Upto(n: nat): (s: set<nat>)
    ensures forall i: nat :: i in s <==> i < n
  {
    if n == 0 then {} else Upto(n - 1) + {n - 1}
  }

  ghost function ToSet(s: seq<nat>): set<nat> { set i | i in s }

  /** The state of one message in the assemblies: not begun, or holding exactly what has arrived. */
  ghost predicate InProgress(a: Assemblies, fragments: seq<bytes>, id: u16, arrived: set<nat>, base: Assemblies) {
    && arrived < Upto(|fragments|)
    && (if arrived == {} then a == base else
          && id in a.pending
          && a.pending - {id} == base.pending
          && Holds(a.pending[id], fragments, arrived)
          && a.bytes == base.bytes + |Join(a.pending[id])|
          && a.parts == base.parts + |fragments|)
  }

  ghost predicate RoomFor(base: Assemblies, fragments: seq<bytes>, b: Budgets) {
    && base.bytes + |Concat(fragments)| <= b.maxReassemblyBytes
    && base.parts + |fragments| <= b.maxReassemblyParts
  }

  lemma OneArrival(a: Assemblies, base: Assemblies, fragments: seq<bytes>, id: u16, arrived: set<nat>, i: nat,
      b: Budgets)
    requires id !in base.pending && i < |fragments| < 0x1_0000_0000
    requires RoomFor(base, fragments, b) && InProgress(a, fragments, id, arrived, base)
    ensures
      var r := AcceptFragment(a, SplitHeader(|fragments|, id, i), fragments[i], b);
      if arrived + {i} == Upto(|fragments|) then r == (base, Complete(Concat(fragments)))
      else r.1 == Pending && InProgress(r.0, fragments, id, arrived + {i}, base)
  {
    OpenHolds(a, base, fragments, id, arrived, b);
    var a1 := Open(a, id, |fragments|);
    if i in arrived {
      assert arrived + {i} == arrived;
      StillPending(a1.pending[id], fragments, arrived);
    } else {
      StoreOne(a1, base, fragments, id, arrived, i, b);
    }
  }

  lemma OpenHolds(a: Assemblies, base: Assemblies, fragments: seq<bytes>, id: u16, arrived: set<nat>, b: Budgets)
    requires id !in base.pending && RoomFor(base, fragments, b) && InProgress(a, fragments, id, arrived, base)
    ensures
      var a1 := Open(a, id, |fragments|);
      && a1.pending - {id} == base.pending
      && Holds(a1.pending[id], fragments, arrived)
      && a1.bytes == base.bytes + |Join(a1.pending[id])|
      && a1.parts == base.parts + |fragments|
      && (arrived != {} ==> a1 == a)
  {
    if arrived == {} {
      JoinOfMissing(|fragments|);
      assert Open(a, id, |fragments|).pending - {id} == base.pending;
    }
  }

  lemma StillPending(parts: Parts, fragments: seq<bytes>, arrived: set<nat>)
    requires Holds(parts, fragments, arrived)
    ensures AllPresent(parts) <==> Upto(|fragments|) <= arrived
  {
    if AllPresent(parts) {
      forall i: nat | i < |fragments| ensures i in arrived { assert parts[i] in parts; }
    }
  }

  /** Storing a missing fragment: one more has arrived, its bytes are counted, and the whole still has room. */
  lemma PartStored(parts: Parts, fragments: seq<bytes>, arrived: set<nat>, i: nat)
    requires Holds(parts, fragments, arrived) && i < |fragments| && i !in arrived
    ensures
      var updated := parts[i := Some(fragments[i])];
      && Holds(updated, fragments, arrived + {i})
      && |Join(updated)| == |Join(parts)| + |fragments[i]| <= |Concat(fragments)|
  {
    JoinGrows(parts, i, fragments[i]);
    JoinIsBounded(parts[i := Some(fragments[i])], fragments, arrived + {i});
  }

  /** A full set of fragments comes out whole and leaves the books as they were before the message. */
  lemma FinishWhole(a: Assemblies, base: Assemblies, fragments: seq<bytes>, id: u16)
    requires id in a.pending && a.pending - {id} == base.pending && Holds(a.pending[id], fragments, Upto(|fragments|))
    requires a.bytes == base.bytes + |Join(a.pending[id])| && a.parts == base.parts + |fragments|
    ensures Finish(a, id) == (base, Complete(Concat(fragments)))
  {
    AllArrived(a.pending[id], fragments);
    JoinOfAll(a.pending[id], fragments);
  }

  lemma AllArrived(parts: Parts, fragments: seq<bytes>)
    requires Holds(parts, fragments, Upto(|fragments|))
    ensures AllPresent(parts) && |parts| == |fragments| && forall i :: 0 <= i < |parts| ==>
            parts[i] == Some(fragments[i])
  {
    forall i: nat | i < |parts| ensures parts[i] == Some(fragments[i]) {
      assert i in Upto(|fragments|);
    }
  }

  lemma FinishPending(a: Assemblies, base: Assemblies, fragments: seq<bytes>, id: u16, arrived: set<nat>)
    requires id in a.pending && a.pending - {id} == base.pending && Holds(a.pending[id], fragments, arrived)
    requires a.bytes == base.bytes + |Join(a.pending[id])| && a.parts == base.parts + |fragments|
    requires {} < arrived < Upto(|fragments|)
    ensures Finish(a, id) == (a, Pending) && InProgress(a, fragments, id, arrived, base)
  {
    StillPending(a.pending[id], fragments, arrived);
  }

  lemma StoreOne(a: Assemblies, base: Assemblies, fragments: seq<bytes>, id: u16, arrived: set<nat>, i: nat, b: Budgets)
    requires id !in base.pending && i < |fragments| && i !in arrived && arrived < Upto(|fragments|)
    requires RoomFor(base, fragments, b)
    requires id in a.pending && a.pending - {id} == base.pending && Holds(a.pending[id], fragments, arrived)
    requires a.bytes == base.bytes + |Join(a.pending[id])| && a.parts == base.parts + |fragments|
    ensures
      var r := Store(a, id, i, fragments[i], b);
      if arrived + {i} == Upto(|fragments|) then r == (base, Complete(Concat(fragments)))
      else r.1 == Pending && InProgress(r.0, fragments, id, arrived + {i}, base)
  {
    var parts := a.pending[id];
    var updated := parts[i := Some(fragments[i])];
    PartStored(parts, fragments, arrived, i);
    var a1 := a.(bytes := a.bytes + |fragments[i]|, pending := a.pending[id := updated]);
    assert a1.pending - {id} == base.pending;
    assert Store(a, id, i, fragments[i], b) == Finish(a1, id);
    if arrived + {i} == Upto(|fragments|) {
      FinishWhole(a1, base, fragments, id);
    } else {
      assert arrived + {i} <= Upto(|fragments|);
      FinishPending(a1, base, fragments, id, arrived + {i});
    }
  }

  /**
   * For any arrival order of one message's fragments, with any repeats: the message stays pending
   * until the last missing index arrives, and then comes out whole and leaves the books as before.
   */
  lemma {:induction false} AnyOrderReassembles(a: Assemblies, base: Assemblies, fragments: seq<bytes>, id: u16,
                                               arrived: set<nat>, indexes: seq<nat>, b: Budgets)
    requires id !in base.pending && |fragments| < 0x1_0000_0000
    requires RoomFor(base, fragments, b) && InProgress(a, fragments, id, arrived, base)
    requires forall k :: 0 <= k < |indexes| ==> indexes[k] < |fragments|
    ensures
      var r := Arrivals(a, fragments, id, indexes, b);
      if arrived + ToSet(indexes) == Upto(|fragments|) then r == (base, Complete(Concat(fragments)))
      else r.1 == Pending && InProgress(r.0, fragments, id, arrived + ToSet(indexes), base)
    decreases |indexes|
  {
    if indexes == [] {
      assert arrived + ToSet(indexes) == arrived;
    } else {
      var i := indexes[0];
      OneArrival(a, base, fragments, id, arrived, i, b);
      assert arrived + ToSet(indexes) == arrived + {i} + ToSet(indexes[1..]);
      if arrived + {i} == Upto(|fragments|) {
        assert ToSet(indexes) <= Upto(|fragments|);
        assert arrived + ToSet(indexes) == Upto(|fragments|);
      } else {
        var r := AcceptFragment(a, SplitHeader(|fragments|, id, i), fragments[i], b);
        AnyOrderReassembles(r.0, base, fragments, id, arrived + {i}, indexes[1..], b);
      }
    }
  }
}
