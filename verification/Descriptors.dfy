/**
 * Admission of the resource descriptors a parent hands to its child: every arena range lies in the
 * published part and overlaps no other, every native handle is described exactly once.
 */
module Descriptors {
  import opened Wrappers
  import opened Bytes
  import opened StableSort

  const MAX_RESOURCES := 16_384

  datatype Kind =
    | CoreSnapshot | CoreJournal | SessionDirectory | SessionState | TcpStream
    | TcpListener | UdpListener | RakNetState | AdminResource | OnlineAuthKeys

  /** A descriptor as it arrives; `kind` is a raw protocol number. */
  datatype Descriptor = Descriptor(
    resourceId: u64, kind: int, arenaOffset: u64, arenaLength: u64,
    nativeHandle: Option<u32>, logicalId: Option<u64>)

  function KindOf(number: int): (r: Option<Kind>)
    ensures r.Some? <==> 0 <= number <= 9
    ensures r.Some? ==> KindNumber(r.value) == number
  {
    match number
    case 0 => Some(CoreSnapshot)
    case 1 => Some(CoreJournal)
    case 2 => Some(SessionDirectory)
    case 3 => Some(SessionState)
    case 4 => Some(TcpStream)
    case 5 => Some(TcpListener)
    case 6 => Some(UdpListener)
    case 7 => Some(RakNetState)
    case 8 => Some(AdminResource)
    case 9 => Some(OnlineAuthKeys)
    case _ => None
  }

  function KindNumber(k: Kind): int {
    match k
    case CoreSnapshot => 0
    case CoreJournal => 1
    case SessionDirectory => 2
    case SessionState => 3
    case TcpStream => 4
    case TcpListener => 5
    case UdpListener => 6
    case RakNetState => 7
    case AdminResource => 8
    case OnlineAuthKeys => 9
  }

  datatype Problem =
    | TooManyResources(actual: nat)
    | InvalidResourceId
    | DuplicateResourceId(resourceId: u64)
    | InvalidResourceKind(resourceId: u64, kind: int)
    | MissingNativeSocketHandle(resourceId: u64)
    | MissingConnectionId(resourceId: u64)
    | UnexpectedConnectionId(resourceId: u64)
    | InvalidResourceRange(resourceId: u64)
    | InvalidNativeHandleIndex(resourceId: u64, index: u32, count: u32)
    | DuplicateNativeHandleIndex(index: u32)
    | UnassignedNativeHandles(declared: u32, described: nat)
    | OverlappingResourceRange(first: u64, second: u64)

  // ---- What an admitted list looks like ----

  predicate NeedsHandle(k: Kind) { k.TcpStream? || k.TcpListener? || k.UdpListener? }

  predicate NeedsConnection(k: Kind) { k.TcpStream? || k.SessionState? }

  predicate ShapeOk(d: Descriptor) {
    match KindOf(d.kind)
    case None => false
    case Some(k) =>
      && (NeedsHandle(k) ==> d.nativeHandle.Some?)
      && (if NeedsConnection(k) then d.logicalId.Some? && d.logicalId.value != 0 else d.logicalId.None?)
  }

  predicate RangeOk(d: Descriptor, arenaUsed: Option<u64>) {
    && d.arenaOffset + d.arenaLength <= USIZE_MAX
    && (arenaUsed.Some? ==> d.arenaOffset + d.arenaLength <= arenaUsed.value)
  }

  predicate HandleOk(d: Descriptor, handleCount: Option<u32>) {
    d.nativeHandle.Some? && handleCount.Some? ==> d.nativeHandle.value < handleCount.value
  }

  predicate DescriptorOk(d: Descriptor, arenaUsed: Option<u64>, handleCount: Option<u32>) {
    d.resourceId != 0 && ShapeOk(d) && RangeOk(d, arenaUsed) && HandleOk(d, handleCount)
  }

  ghost predicate Covers(d: Descriptor, at: int) { d.arenaOffset <= at < d.arenaOffset + d.arenaLength }

  /** Some byte of the arena lies in both ranges. */
  ghost predicate Overlap(a: Descriptor, b: Descriptor) {
    exists at :: Covers(a, at) && Covers(b, at)
  }

  ghost predicate DistinctIds(rs: seq<Descriptor>) {
    forall i, j :: 0 <= i < j < |rs| ==> rs[i].resourceId != rs[j].resourceId
  }

  ghost predicate DistinctHandles(rs: seq<Descriptor>) {
    forall i, j :: 0 <= i < j < |rs| && rs[i].nativeHandle.Some? ==> rs[i].nativeHandle != rs[j].nativeHandle
  }

  ghost predicate Assigned(rs: seq<Descriptor>, index: int) {
    exists i :: 0 <= i < |rs| && rs[i].nativeHandle.Some? && rs[i].nativeHandle.value == index
  }

  ghost predicate AllAssigned(rs: seq<Descriptor>, handleCount: Option<u32>) {
    handleCount.Some? ==> forall index :: 0 <= index < handleCount.value ==> Assigned(rs, index)
  }

  ghost predicate NoOverlap(rs: seq<Descriptor>) {
    forall i, j :: 0 <= i < j < |rs| ==> !Overlap(rs[i], rs[j])
  }

  ghost predicate Admitted(rs: seq<Descriptor>, arenaUsed: Option<u64>, handleCount: Option<u32>) {
    && |rs| <= MAX_RESOURCES
    && (forall i :: 0 <= i < |rs| ==> DescriptorOk(rs[i], arenaUsed, handleCount))
    && DistinctIds(rs) && DistinctHandles(rs) && AllAssigned(rs, handleCount) && NoOverlap(rs)
  }

  // ---- Sorting and comparing neighbours finds every overlap ----

  datatype Range = Range(start: nat, end: nat, resourceId: u64)

  function StartOf(): Range -> int { (r: Range) => r.start }

  function RangesOf(rs: seq<Descriptor>): (r: seq<Range>) {
    if rs == [] then []
    else
      var d := rs[|rs| - 1];
      RangesOf(rs[..|rs| - 1]) +
      if d.arenaLength > 0 then [Range(d.arenaOffset, d.arenaOffset + d.arenaLength, d.resourceId)] else []
  }

  ghost predicate Apart(a: Range, b: Range) { a.end <= b.start || b.end <= a.start }

  ghost predicate AllApart(s: seq<Range>) {
    forall i, j :: 0 <= i < j < |s| ==> Apart(s[i], s[j])
  }

  ghost predicate NonEmpty(s: seq<Range>) {
    forall i :: 0 <= i < |s| ==> s[i].start < s[i].end
  }

  ghost predicate NeighboursApart(s: seq<Range>) {
    forall i :: 0 < i < |s| ==> s[i - 1].end <= s[i].start
  }

  lemma {:induction false} NeighboursReach(s: seq<Range>, i: nat, j: nat)
    requires NonEmpty(s) && NeighboursApart(s) && i < j < |s|
    ensures s[i].end <= s[j].start
    decreases j
  {
    if i + 1 < j {
      NeighboursReach(s, i, j - 1);
    }
  }

  /** On ranges in order of their starts, comparing neighbours is comparing all pairs. */
  lemma NeighboursDecide(s: seq<Range>)
    requires NonEmpty(s) && Ascending(s, StartOf())
    ensures NeighboursApart(s) <==> AllApart(s)
  {
    if NeighboursApart(s) {
      forall i, j | 0 <= i < j < |s| ensures Apart(s[i], s[j]) {
        NeighboursReach(s, i, j);
      }
    }
    if AllApart(s) {
      forall i | 0 < i < |s| ensures s[i - 1].end <= s[i].start {
        assert Apart(s[i - 1], s[i]);
        assert StartOf()(s[i - 1]) <= StartOf()(s[i]);
      }
    }
  }

  lemma ApartCons(x: Range, s: seq<Range>)
    ensures AllApart([x] + s) <==> AllApart(s) && forall y <- s :: Apart(x, y)
  {
    if AllApart([x] + s) {
      forall i, j | 0 <= i < j < |s| ensures Apart(s[i], s[j]) {
        assert Apart(([x] + s)[i + 1], ([x] + s)[j + 1]);
      }
      forall j | 0 <= j < |s| ensures Apart(x, s[j]) {
        assert Apart(([x] + s)[0], ([x] + s)[j + 1]);
      }
    }
  }

  lemma {:induction false} InsertApart(x: Range, s: seq<Range>)
    ensures AllApart(Insert(x, s, StartOf())) <==> AllApart([x] + s)
  {
    if s != [] && x.start > s[0].start {
      var rest := Insert(x, s[1..], StartOf());
      InsertApart(x, s[1..]);
      assert Insert(x, s, StartOf()) == [s[0]] + rest && s == [s[0]] + s[1..];
      forall y ensures y in rest <==> y == x || y in s[1..] {
        assert y in rest <==> y in multiset(s[1..]) + multiset{x};
      }
      SwappedApart(x, s[0], s[1..], rest);
    }
  }

  /** Ahead of the same ranges, which of two comes first does not matter. */
  lemma SwappedApart(x: Range, y: Range, s: seq<Range>, rest: seq<Range>)
    requires AllApart(rest) <==> AllApart([x] + s)
    requires forall z :: z in rest <==> z == x || z in s
    ensures AllApart([y] + rest) <==> AllApart([x] + ([y] + s))
  {
    ApartCons(y, rest);
    ApartCons(x, s);
    ApartCons(y, s);
    ApartCons(x, [y] + s);
    assert (forall z <- rest :: Apart(y, z)) <==> Apart(y, x) && forall z <- s :: Apart(y, z);
    assert (forall z <- [y] + s :: Apart(x, z)) <==> Apart(x, y) && forall z <- s :: Apart(x, z);
  }

  /** Sorting does not change whether some two ranges overlap. */
  lemma {:induction false} SortApart(s: seq<Range>)
    ensures AllApart(SortBy(s, StartOf())) <==> AllApart(s)
  {
    if s != [] {
      var rest := SortBy(s[1..], StartOf());
      SortApart(s[1..]);
      InsertApart(s[0], rest);
      ApartCons(s[0], rest);
      ApartCons(s[0], s[1..]);
      assert s == [s[0]] + s[1..];
      SortByElements(s[1..], StartOf());
    }
  }

  ghost predicate ApartFrom(s: seq<Range>, x: Range) { forall y <- s :: Apart(y, x) }

  ghost predicate ClearOf(rs: seq<Descriptor>, d: Descriptor) { forall i :: 0 <= i < |rs| ==> !Overlap(rs[i], d) }

  lemma ApartSnoc(s: seq<Range>, x: Range)
    ensures AllApart(s + [x]) <==> AllApart(s) && ApartFrom(s, x)
  {
    if AllApart(s + [x]) {
      forall i, j | 0 <= i < j < |s| ensures Apart(s[i], s[j]) {
        assert Apart((s + [x])[i], (s + [x])[j]);
      }
      forall i | 0 <= i < |s| ensures Apart(s[i], x) {
        assert Apart((s + [x])[i], (s + [x])[|s|]);
      }
    }
  }

  ghost function RangeOf(d: Descriptor): Range { Range(d.arenaOffset, d.arenaOffset + d.arenaLength, d.resourceId) }

  lemma OverlapIsNotApart(a: Descriptor, b: Descriptor)
    ensures Overlap(a, b) <==> a.arenaLength > 0 && b.arenaLength > 0 && !Apart(RangeOf(a), RangeOf(b))
  {
    if a.arenaLength > 0 && b.arenaLength > 0 && !Apart(RangeOf(a), RangeOf(b)) {
      var at := Max(a.arenaOffset, b.arenaOffset);
      assert Covers(a, at) && Covers(b, at);
    }
  }

  lemma {:induction false} RangeMembers(rs: seq<Descriptor>)
    ensures forall r :: r in RangesOf(rs) <==> exists i :: 0 <= i < |rs| && rs[i].arenaLength > 0 && r == RangeOf(rs[i])
  {
    if rs != [] {
      var n := |rs| - 1;
      RangeMembers(rs[..n]);
      forall r ensures r in RangesOf(rs) <==>
          exists i :: 0 <= i < |rs| && rs[i].arenaLength > 0 && r == RangeOf(rs[i]) {
        if r in RangesOf(rs[..n]) {
          var i :| 0 <= i < n && rs[..n][i].arenaLength > 0 && r == RangeOf(rs[..n][i]);
          assert rs[i].arenaLength > 0 && r == RangeOf(rs[i]);
        }
        if i :| 0 <= i < |rs| && rs[i].arenaLength > 0 && r == RangeOf(rs[i]) {
          if i < n {
            assert rs[..n][i].arenaLength > 0 && r == RangeOf(rs[..n][i]);
          }
        }
      }
    }
  }

  lemma NoOverlapSnoc(init: seq<Descriptor>, d: Descriptor)
    ensures NoOverlap(init + [d]) <==> NoOverlap(init) && ClearOf(init, d)
  {
    var all := init + [d];
    assert forall i :: 0 <= i < |init| ==> all[i] == init[i];
    if NoOverlap(all) {
      forall i, j | 0 <= i < j < |init| ensures !Overlap(init[i], init[j]) {
        assert !Overlap(all[i], all[j]);
      }
      forall i | 0 <= i < |init| ensures !Overlap(init[i], d) {
        assert !Overlap(all[i], all[|init|]);
      }
    }
  }

  lemma RangesSnoc(init: seq<Descriptor>, d: Descriptor)
    ensures RangesOf(init + [d]) == RangesOf(init) + if d.arenaLength > 0 then [RangeOf(d)] else []
  {
    assert (init + [d])[..|init|] == init;
  }

  /** The ranges taken down are apart exactly when the descriptors do not overlap. */
  lemma {:induction false} RangesApart(rs: seq<Descriptor>)
    ensures AllApart(RangesOf(rs)) <==> NoOverlap(rs)
    ensures NonEmpty(RangesOf(rs))
  {
    if rs != [] {
      var init, d := rs[..|rs| - 1], rs[|rs| - 1];
      assert rs == init + [d];
      RangesApart(init);
      RangesSnoc(init, d);
      NoOverlapSnoc(init, d);
      LastRangeApart(init, d);
      if d.arenaLength > 0 {
        ApartSnoc(RangesOf(init), RangeOf(d));
      } else {
        assert RangesOf(rs) == RangesOf(init);
      }
    }
  }

  lemma LastRangeApart(rs: seq<Descriptor>, d: Descriptor)
    ensures d.arenaLength > 0 ==> (ApartFrom(RangesOf(rs), RangeOf(d)) <==> ClearOf(rs, d))
    ensures d.arenaLength == 0 ==> ClearOf(rs, d)
  {
    RangeMembers(rs);
    forall i | 0 <= i < |rs|
      ensures Overlap(rs[i], d) <==> rs[i].arenaLength > 0 && d.arenaLength > 0 && !Apart(RangeOf(rs[i]), RangeOf(d))
    {
      OverlapIsNotApart(rs[i], d);
    }
  }

  /**
   * The adjacent check is exact: after sorting, some neighbours overlap if and only if some two
   * descriptors share a byte.
   */
  lemma AdjacentCheckIsExact(rs: seq<Descriptor>)
    ensures NeighboursApart(SortBy(RangesOf(rs), StartOf())) <==> NoOverlap(rs)
  {
    var s := RangesOf(rs);
    var sorted := SortBy(s, StartOf());
    RangesApart(rs);
    SortApart(s);
    SortByIsStableSort(s, StartOf());
    SortByElements(s, StartOf());
    forall i | 0 <= i < |sorted| ensures sorted[i].start < sorted[i].end {
      assert sorted[i] in s;
    }
    NeighboursDecide(sorted);
  }

  // ---- Handles ----

  lemma {:induction false} FullSet(s: set<u32>, n: nat)
    requires forall x: u32 :: x in s ==> x < n
    ensures |s| <= n
    ensures |s| == n <==> forall x: int :: 0 <= x < n ==> x in s
    decreases n
  {
    if n > 0 {
      var top := n - 1;
      if top in s {
        FullSet(s - {top}, n - 1);
        if |s| == n {
          forall x: int | 0 <= x < n ensures x in s {
            if x < n - 1 {
              assert x in s - {top};
            }
          }
        }
      } else {
        FullSet(s, n - 1);
      }
    } else {
      assert s == {};
    }
  }

  function HandleSet(rs: seq<Descriptor>): (r: set<u32>)
    ensures forall x: u32 :: x in r <==> Assigned(rs, x)
  {
    set i | 0 <= i < |rs| && rs[i].nativeHandle.Some? :: rs[i].nativeHandle.value
  }

  /** The handles described are exactly `0..count-1`, each by one descriptor. */
  ghost predicate EachHandleOnce(rs: seq<Descriptor>, count: u32) {
    (forall x: int :: 0 <= x < count <==> Assigned(rs, x)) && DistinctHandles(rs)
  }

  lemma AdmittedHandles(rs: seq<Descriptor>, arenaUsed: Option<u64>, count: u32)
    requires Admitted(rs, arenaUsed, Some(count))
    ensures EachHandleOnce(rs, count)
  {
  }

  // ---- The validator ----

  /** The handle and connection rules of the descriptor's kind. */
  function CheckShape(d: Descriptor): (r: Option<Problem>)
    ensures r.None? <==> ShapeOk(d)
    ensures r.Some? ==> r.value.InvalidResourceKind? || r.value.MissingNativeSocketHandle?
                        || r.value.MissingConnectionId? || r.value.UnexpectedConnectionId?
    ensures r.Some? ==> r.value.resourceId == d.resourceId
  {
    match KindOf(d.kind)
    case None => Some(InvalidResourceKind(d.resourceId, d.kind))
    case Some(k) =>
      if NeedsHandle(k) && d.nativeHandle.None? then Some(MissingNativeSocketHandle(d.resourceId))
      else if NeedsConnection(k) then
        if d.logicalId.None? || d.logicalId.value == 0 then Some(MissingConnectionId(d.resourceId)) else None
      else if d.logicalId.Some? then Some(UnexpectedConnectionId(d.resourceId))
      else None
  }

  /** The refusal names a descriptor, or a pair of them, that really breaks the rule. */
  ghost predicate Justified(p: Problem, rs: seq<Descriptor>, arenaUsed: Option<u64>, handleCount: Option<u32>) {
    match p
    case TooManyResources(actual) => actual == |rs| > MAX_RESOURCES
    case InvalidResourceId => exists i :: 0 <= i < |rs| && rs[i].resourceId == 0
    case DuplicateResourceId(id) =>
      exists i, j :: 0 <= i < j < |rs| && rs[i].resourceId == rs[j].resourceId == id
    case InvalidResourceRange(id) =>
      exists i :: 0 <= i < |rs| && rs[i].resourceId == id && !RangeOk(rs[i], arenaUsed)
    case InvalidNativeHandleIndex(id, index, count) =>
      exists i :: 0 <= i < |rs| && rs[i].resourceId == id && rs[i].nativeHandle == Some(index)
                  && handleCount == Some(count) && index >= count
    case DuplicateNativeHandleIndex(index) =>
      exists i, j :: 0 <= i < j < |rs| && rs[i].nativeHandle == rs[j].nativeHandle == Some(index)
    case UnassignedNativeHandles(declared, described) =>
      handleCount == Some(declared) && !AllAssigned(rs, handleCount) && described == |HandleSet(rs)|
    case OverlappingResourceRange(first, second) =>
      exists i, j :: 0 <= i < |rs| && 0 <= j < |rs| && i != j && Overlap(rs[i], rs[j])
                     && rs[i].resourceId == first && rs[j].resourceId == second
    case _ => exists i :: 0 <= i < |rs| && CheckShape(rs[i]) == Some(p)
  }

  /** Compares neighbouring ranges. */
  method CheckRanges(ranges: seq<Range>) returns (r: Option<Problem>)
    ensures r.None? <==> NeighboursApart(ranges)
    ensures r.Some? ==> exists i ::
                          && 0 < i < |ranges| && ranges[i].start < ranges[i - 1].end
                          && r.value == OverlappingResourceRange(ranges[i - 1].resourceId, ranges[i].resourceId)
  {
    if ranges == [] {
      return None;
    }
    for i := 1 to |ranges|
      invariant forall k :: 0 < k < i ==> ranges[k - 1].end <= ranges[k].start
    {
      if ranges[i].start < ranges[i - 1].end {
        return Some(OverlappingResourceRange(ranges[i - 1].resourceId, ranges[i].resourceId));
      }
    }
    r := None;
  }

  lemma NeighbourIsJustified(rs: seq<Descriptor>, i: nat, arenaUsed: Option<u64>, handleCount: Option<u32>)
    requires DistinctIds(rs)
    requires 0 < i < |RangesOf(rs)|
    requires
      var s := SortBy(RangesOf(rs), StartOf());
      s[i].start < s[i - 1].end
    ensures
      var s := SortBy(RangesOf(rs), StartOf());
      Justified(OverlappingResourceRange(s[i - 1].resourceId, s[i].resourceId), rs, arenaUsed, handleCount)
  {
    var s := SortBy(RangesOf(rs), StartOf());
    SortByIsStableSort(RangesOf(rs), StartOf());
    SortByElements(RangesOf(rs), StartOf());
    RangeMembers(rs);
    assert s[i - 1] in RangesOf(rs) && s[i] in RangesOf(rs);
    var a :| 0 <= a < |rs| && rs[a].arenaLength > 0 && s[i - 1] == RangeOf(rs[a]);
    var b :| 0 <= b < |rs| && rs[b].arenaLength > 0 && s[i] == RangeOf(rs[b]);
    assert StartOf()(s[i - 1]) <= StartOf()(s[i]);
    OverlapIsNotApart(rs[a], rs[b]);
    if a == b {
      SortedIdsDistinct(rs, i);
    }
  }

  lemma SortedIdsDistinct(rs: seq<Descriptor>, i: nat)
    requires DistinctIds(rs) && 0 < i < |RangesOf(rs)|
    ensures
      var s := SortBy(RangesOf(rs), StartOf());
      s[i - 1] != s[i]
  {
    var s := SortBy(RangesOf(rs), StartOf());
    RangesDistinct(rs);
    OnceEach(RangesOf(rs), s[i]);
    if s[i - 1] == s[i] {
      TwiceAdjacent(s, i);
    }
  }

  lemma TwiceAdjacent(s: seq<Range>, i: nat)
    requires 0 < i < |s| && s[i - 1] == s[i]
    ensures multiset(s)[s[i]] >= 2
  {
    assert s == s[..i - 1] + ([s[i - 1], s[i]] + s[i + 1..]);
  }

  lemma {:induction false} OnceEach(r: seq<Range>, x: Range)
    requires forall i, j :: 0 <= i < j < |r| ==> r[i] != r[j]
    ensures multiset(r)[x] <= 1
  {
    if r != [] {
      var n := |r| - 1;
      OnceEach(r[..n], x);
      assert r == r[..n] + [r[n]];
      if r[n] == x {
        assert x !in r[..n];
      }
    }
  }

  lemma {:induction false} RangesDistinct(rs: seq<Descriptor>)
    requires DistinctIds(rs)
    ensures forall i, j :: 0 <= i < j < |RangesOf(rs)| ==> RangesOf(rs)[i] != RangesOf(rs)[j]
  {
    if rs != [] {
      var n := |rs| - 1;
      RangesDistinct(rs[..n]);
      RangeMembers(rs[..n]);
      var before := RangesOf(rs[..n]);
      forall i | 0 <= i < |before| ensures before[i] != RangeOf(rs[n]) {
        assert before[i] in before;
        var k :| 0 <= k < n && rs[..n][k].arenaLength > 0 && before[i] == RangeOf(rs[..n][k]);
        assert rs[k].resourceId != rs[n].resourceId;
      }
    }
  }

  lemma CountDecides(rs: seq<Descriptor>, count: u32)
    requires forall i :: 0 <= i < |rs| ==> HandleOk(rs[i], Some(count))
    ensures |HandleSet(rs)| == count <==> AllAssigned(rs, Some(count))
  {
    FullSet(HandleSet(rs), count);
    if AllAssigned(rs, Some(count)) {
      forall x: int | 0 <= x < count ensures x in HandleSet(rs) {
        assert Assigned(rs, x);
      }
    }
  }

  function IdSet(rs: seq<Descriptor>): set<u64> {
    set i | 0 <= i < |rs| :: rs[i].resourceId
  }

  /** What the loop knows of the descriptors it has passed. */
  ghost predicate Passed(rs: seq<Descriptor>, arenaUsed: Option<u64>, handleCount: Option<u32>) {
    && (forall i :: 0 <= i < |rs| ==> DescriptorOk(rs[i], arenaUsed, handleCount))
    && DistinctIds(rs) && DistinctHandles(rs)
  }

  predicate AboutDescriptors(p: Problem) {
    !p.TooManyResources? && !p.UnassignedNativeHandles? && !p.OverlappingResourceRange?
  }

  lemma BlameSurvives(p: Problem, prefix: seq<Descriptor>, rs: seq<Descriptor>, arenaUsed: Option<u64>,
      handleCount: Option<u32>)
    requires prefix <= rs && AboutDescriptors(p) && Justified(p, prefix, arenaUsed, handleCount)
    ensures Justified(p, rs, arenaUsed, handleCount)
  {
    assert forall i :: 0 <= i < |prefix| ==> rs[i] == prefix[i];
  }

  lemma BlamedIsNotAdmitted(p: Problem, rs: seq<Descriptor>, arenaUsed: Option<u64>, handleCount: Option<u32>)
    requires Justified(p, rs, arenaUsed, handleCount)
    ensures !Admitted(rs, arenaUsed, handleCount)
  {
    if p.OverlappingResourceRange? {
      var i, j :| 0 <= i < |rs| && 0 <= j < |rs| && i != j && Overlap(rs[i], rs[j]);
      assert Overlap(rs[j], rs[i]);
    }
  }

  /** Checks one descriptor against those before it. */
  method CheckDescriptor(
    ghost before: seq<Descriptor>, d: Descriptor, arenaUsed: Option<u64>, handleCount: Option<u32>,
    ids: set<u64>, handles: set<u32>)
    returns (r: Option<Problem>)
    requires Passed(before, arenaUsed, handleCount) && ids == IdSet(before) && handles == HandleSet(before)
    ensures r.None? ==> Passed(before + [d], arenaUsed, handleCount)
    ensures r.Some? ==> AboutDescriptors(r.value) && Justified(r.value, before + [d], arenaUsed, handleCount)
  {
    ghost var all := before + [d];
    assert all[|before|] == d && forall i :: 0 <= i < |before| ==> all[i] == before[i];
    if d.resourceId == 0 {
      return Some(InvalidResourceId);
    }
    if d.resourceId in ids {
      return Some(DuplicateResourceId(d.resourceId));
    }
    var shape := CheckShape(d);
    if shape.Some? {
      assert CheckShape(all[|before|]) == Some(shape.value);
      return shape;
    }
    if !RangeOk(d, arenaUsed) {
      return Some(InvalidResourceRange(d.resourceId));
    }
    if d.nativeHandle.Some? {
      if handleCount.Some? && d.nativeHandle.value >= handleCount.value {
        return Some(InvalidNativeHandleIndex(d.resourceId, d.nativeHandle.value, handleCount.value));
      }
      if d.nativeHandle.value in handles {
        assert Assigned(before, d.nativeHandle.value);
        return Some(DuplicateNativeHandleIndex(d.nativeHandle.value));
      }
      assert !Assigned(before, d.nativeHandle.value);
    }
    r := None;
  }

  lemma Extended(before: seq<Descriptor>, d: Descriptor)
    ensures IdSet(before + [d]) == IdSet(before) + {d.resourceId}
    ensures HandleSet(before + [d]) == HandleSet(before) + if d.nativeHandle.Some? then {d.nativeHandle.value} else {}
    ensures RangesOf(before + [d]) == RangesOf(before) + if d.arenaLength > 0 then [RangeOf(d)] else []
  {
    var all := before + [d];
    assert all[|before|] == d && all[..|before|] == before;
    forall i | 0 <= i < |before| ensures all[i] == before[i] {}
    forall x: u64 | x in IdSet(before) ensures x in IdSet(all) {
      var i :| 0 <= i < |before| && before[i].resourceId == x;
      assert all[i].resourceId == x;
    }
    forall x: u32 | Assigned(before, x) ensures Assigned(all, x) {
      var i :| 0 <= i < |before| && before[i].nativeHandle.Some? && before[i].nativeHandle.value == x;
      assert all[i].nativeHandle.value == x;
    }
  }

  /** Admits exactly the admissible lists, and blames a real fault otherwise. */
  method ValidateResources(rs: seq<Descriptor>, arenaUsed: Option<u64>, handleCount: Option<u32>)
    returns (r: Option<Problem>)
    ensures r.None? <==> Admitted(rs, arenaUsed, handleCount)
    ensures r.None? && handleCount.Some? ==> EachHandleOnce(rs, handleCount.value)
    ensures r.Some? ==> Justified(r.value, rs, arenaUsed, handleCount)
  {
    if |rs| > MAX_RESOURCES {
      return Some(TooManyResources(|rs|));
    }
    var ids: set<u64>, handles: set<u32>, ranges: seq<Range> := {}, {}, [];
    for i := 0 to |rs|
      invariant Passed(rs[..i], arenaUsed, handleCount)
      invariant ids == IdSet(rs[..i]) && handles == HandleSet(rs[..i]) && ranges == RangesOf(rs[..i])
    {
      var d := rs[i];
      assert rs[..i + 1] == rs[..i] + [d];
      Extended(rs[..i], d);
      r := CheckDescriptor(rs[..i], d, arenaUsed, handleCount, ids, handles);
      if r.Some? {
        BlameSurvives(r.value, rs[..i + 1], rs, arenaUsed, handleCount);
        BlamedIsNotAdmitted(r.value, rs, arenaUsed, handleCount);
        return;
      }
      ids := ids + {d.resourceId};
      if d.arenaLength > 0 {
        ranges := ranges + [Range(d.arenaOffset, d.arenaOffset + d.arenaLength, d.resourceId)];
      }
      if d.nativeHandle.Some? {
        handles := handles + {d.nativeHandle.value};
      }
    }
    assert rs[..|rs|] == rs;
    r := CheckTotals(rs, handles, ranges, arenaUsed, handleCount);
    if r.None? && handleCount.Some? {
      AdmittedHandles(rs, arenaUsed, handleCount.value);
    }
  }

  /** The two checks that need the whole list: no handle left over, no ranges overlapping. */
  method CheckTotals(
    ghost rs: seq<Descriptor>, handles: set<u32>, ranges: seq<Range>, arenaUsed: Option<u64>, handleCount: Option<u32>)
    returns (r: Option<Problem>)
    requires Passed(rs, arenaUsed, handleCount) && handles == HandleSet(rs) && ranges == RangesOf(rs)
    ensures r.None? <==> AllAssigned(rs, handleCount) && NoOverlap(rs)
    ensures r.Some? ==> Justified(r.value, rs, arenaUsed, handleCount)
  {
    if handleCount.Some? {
      CountDecides(rs, handleCount.value);
      if |handles| != handleCount.value {
        return Some(UnassignedNativeHandles(handleCount.value, |handles|));
      }
    }
    AdjacentCheckIsExact(rs);
    var sorted := SortStably(ranges, StartOf());
    r := CheckRanges(sorted);
    if r.Some? {
      ghost var i :| 0 < i < |sorted| && sorted[i].start < sorted[i - 1].end
                     && r.value == OverlappingResourceRange(sorted[i - 1].resourceId, sorted[i].resourceId);
      NeighbourIsJustified(rs, i, arenaUsed, handleCount);
    }
  }
}
