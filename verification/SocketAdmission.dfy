/** Every bootstrap the parent builds passes the child's descriptor validation. */
module SocketAdmission {
  import opened Wrappers
  import opened Bytes
  import opened StableSort
  import opened Descriptors
  import opened SocketHandoff
  import opened SocketBootstrap
  import A = Arena

  lemma {:induction false} ListenerAt(ls: seq<Listener>, id: nat, index: nat, i: nat)
    requires index + |ls| <= U32_MAX + 1 && id + |ls| <= USIZE_MAX && i < |ls|
    ensures DescribeListeners(ls, id, index)[i] ==
            NativeDescriptor(id + i, ListenerKind(ls[i].transport), index + i, None)
    decreases i
  {
    if i > 0 {
      ListenerAt(ls[1..], id + 1, index + 1, i - 1);
    }
  }

  lemma {:induction false} SessionAt(ss: seq<Session>, id: nat, index: nat, i: nat)
    requires index + |ss| <= U32_MAX + 1 && id + |ss| <= USIZE_MAX && i < |ss|
    ensures DescribeSessions(ss, id, index)[i] ==
            NativeDescriptor(id + i, TcpStream, index + i, Some(ss[i].connectionId))
    decreases i
  {
    if i > 0 {
      SessionAt(ss[1..], id + 1, index + 1, i - 1);
    }
  }

  lemma {:induction false} HandleAt(count: nat, id: nat, index: nat, i: nat)
    requires index + count <= U32_MAX && id + count <= USIZE_MAX && i < count
    ensures DescribeHandles(count, id, index)[i] == NativeDescriptor(id + i, AdminResource, index + i, None)
    decreases i
  {
    if i > 0 {
      HandleAt(count - 1, id + 1, index + 1, i - 1);
    }
  }

  ghost predicate DescribesSocket(d: Descriptor, index: int, id: int) {
    match d
    case Descriptor(resourceId, _, offset, length, handle, _) =>
      handle.Some? && handle.value == index && offset == length == 0 && ShapeOk(d) && resourceId == id
  }

  lemma ListenerDescriptorAt(ls: seq<Listener>, j: nat)
    requires |ls| <= U32_MAX && j < |ls|
    ensures DescribesSocket(DescribeListeners(ls, 1, 0)[j], j, 1 + j)
  {
    ListenerAt(ls, 1, 0, j);
    ListenerShape(1 + j, ls[j].transport, j);
  }

  lemma ListenerShape(id: u64, transport: Transport, index: u32)
    ensures DescribesSocket(NativeDescriptor(id, ListenerKind(transport), index, None), index, id)
  {
  }

  lemma SessionDescriptorAt(o: Outgoing, j: nat)
    requires SocketCount(o) <= U32_MAX && j < |o.sessions| && forall s <- o.sessions :: s.connectionId != 0
    ensures DescribesSocket(DescribeSessions(InOrder(o).sessions, 1 + |o.listeners|, |o.listeners|)[j],
                            |o.listeners| + j, 1 + |o.listeners| + j)
  {
    SessionAt(InOrder(o).sessions, 1 + |o.listeners|, |o.listeners|, j);
    SortByElements(o.sessions, ConnectionOrder());
    assert InOrder(o).sessions[j] in o.sessions;
  }

  lemma HandleDescriptorAt(count: nat, id: nat, index: nat, j: nat)
    requires index + count <= U32_MAX && id + count <= USIZE_MAX && j < count
    ensures DescribesSocket(DescribeHandles(count, id, index)[j], index + j, id + j)
  {
    HandleAt(count, id, index, j);
  }

  /** Three listings, each describing consecutive sockets, joined. */
  lemma JoinedDescribes(a: seq<Descriptor>, b: seq<Descriptor>, c: seq<Descriptor>, id: nat, j: nat)
    requires forall i :: 0 <= i < |a| ==> DescribesSocket(a[i], i, 1 + i)
    requires forall i :: 0 <= i < |b| ==> DescribesSocket(b[i], |a| + i, 1 + |a| + i)
    requires forall i :: 0 <= i < |c| ==> DescribesSocket(c[i], |a| + |b| + i, id + i)
    requires j < |a| + |b| + |c|
    ensures DescribesSocket((a + (b + c))[j], j, if j < |a| + |b| then 1 + j else id + j - |a| - |b|)
  {
  }

  /** The j-th socket descriptor is for native handle j, and its number is not an arena descriptor's. */
  lemma SocketDescriptorAt(o: Outgoing, id: nat, j: nat)
    requires SocketCount(o) <= U32_MAX && Direct(o) < id && id + SocketCount(o) <= USIZE_MAX && j < SocketCount(o)
    requires forall s <- o.sessions :: s.connectionId != 0
    ensures j < |SocketDescriptors(o, id)|
    ensures DescribesSocket(SocketDescriptors(o, id)[j], j, if j < Direct(o) then 1 + j else id + j - Direct(o))
  {
    var a := DescribeListeners(InOrder(o).listeners, 1, 0);
    var b := DescribeSessions(InOrder(o).sessions, 1 + |o.listeners|, |o.listeners|);
    var c := DescribeHandles(|SurfaceHandles(o.surfaces)|, id, Direct(o));
    forall i | 0 <= i < |a| ensures DescribesSocket(a[i], i, 1 + i) {
      ListenerDescriptorAt(InOrder(o).listeners, i);
    }
    forall i | 0 <= i < |b| ensures DescribesSocket(b[i], |a| + i, 1 + |a| + i) {
      SessionDescriptorAt(o, i);
    }
    forall i | 0 <= i < |c| ensures DescribesSocket(c[i], |a| + |b| + i, id + i) {
      HandleDescriptorAt(|SurfaceHandles(o.surfaces)|, id, Direct(o), i);
    }
    JoinedDescribes(a, b, c, id, j);
  }

  ghost predicate RegionsOk(regions: Regions, id: nat, arenaUsed: u64)
    requires id + 4 <= USIZE_MAX
  {
    var rs := DescribeRegions(regions, id);
    NoOverlap(rs) && forall i :: 0 <= i < |rs| ==> RangeOk(rs[i], Some(arenaUsed))
  }

  lemma RegionDescriptorAt(regions: Regions, id: nat, i: nat)
    requires 0 < id && id + 4 <= USIZE_MAX && i < |DescribeRegions(regions, id)|
    ensures
      var d := DescribeRegions(regions, id)[i];
      d.resourceId as int == id + i && d.nativeHandle.None? && ShapeOk(d)
  {
  }

  ghost predicate DescribesRegion(d: Descriptor, arenaUsed: u64, id: int) {
    d.nativeHandle.None? && ShapeOk(d) && RangeOk(d, Some(arenaUsed)) && d.resourceId == id
  }

  lemma RegionsAreDescribed(regions: Regions, id: nat, arenaUsed: u64)
    requires 0 < id && id + 4 <= USIZE_MAX && RegionsOk(regions, id, arenaUsed)
    ensures
      var arena := DescribeRegions(regions, id);
      NoOverlap(arena) && forall i :: 0 <= i < |arena| ==> DescribesRegion(arena[i], arenaUsed, id + i)
  {
    forall i | 0 <= i < |DescribeRegions(regions, id)|
      ensures DescribesRegion(DescribeRegions(regions, id)[i], arenaUsed, id + i)
    {
      RegionDescriptorAt(regions, id, i);
    }
  }

  /** Joining descriptors of regions and of sockets that keep out of each other's way. */
  lemma JoinedIsAdmitted(arena: seq<Descriptor>, sockets: seq<Descriptor>, arenaUsed: u64, low: nat)
    requires |arena| + |sockets| <= MAX_RESOURCES && NoOverlap(arena)
    requires forall i :: 0 <= i < |arena| ==> DescribesRegion(arena[i], arenaUsed, 1 + low + i)
    requires forall j :: 0 <= j < |sockets| ==>
               DescribesSocket(sockets[j], j, if j < low then 1 + j else 1 + low + |arena| + j - low)
    ensures Admitted(arena + sockets, Some(arenaUsed), Some(|sockets|))
  {
    var all, n := arena + sockets, |arena|;
    forall i, j | 0 <= i < j < |all| ensures !Overlap(all[i], all[j]) {
      if j >= n {
        assert all[j].arenaLength == 0;
      } else {
        assert !Overlap(arena[i], arena[j]);
      }
    }
    forall index | 0 <= index < |sockets| ensures Assigned(all, index) {
      assert all[n + index].nativeHandle.value == index;
    }
  }

  lemma SocketsAreDescribed(o: Outgoing, id: nat)
    requires SocketCount(o) <= U32_MAX && Direct(o) < id && id + SocketCount(o) <= USIZE_MAX
    requires forall s <- o.sessions :: s.connectionId != 0
    ensures
      var sockets := SocketDescriptors(o, id);
      && |sockets| == SocketCount(o)
      && forall j :: 0 <= j < |sockets| ==>
           DescribesSocket(sockets[j], j, if j < Direct(o) then 1 + j else id + j - Direct(o))
  {
    forall j | 0 <= j < SocketCount(o)
      ensures DescribesSocket(SocketDescriptors(o, id)[j], j, if j < Direct(o) then 1 + j else id + j - Direct(o))
    {
      SocketDescriptorAt(o, id, j);
    }
  }

  /**
   * The child's validation admits every bootstrap the parent builds, provided the arena regions
   * are published and disjoint, the connection ids are not zero, and the list is not too long.
   */
  lemma BootstrapIsAdmitted(o: Outgoing, regions: Regions, arenaUsed: u64)
    requires SocketCount(o) <= U32_MAX && |Bootstrap(o, regions)| <= MAX_RESOURCES
    requires RegionsOk(regions, 1 + Direct(o), arenaUsed) && forall s <- o.sessions :: s.connectionId != 0
    ensures Admitted(Bootstrap(o, regions), Some(arenaUsed), Some(SocketCount(o)))
  {
    var id := 1 + Direct(o);
    var arena := DescribeRegions(regions, id);
    var sockets := SocketDescriptors(o, id + |arena|);
    RegionsAreDescribed(regions, id, arenaUsed);
    SocketsAreDescribed(o, id + |arena|);
    JoinedIsAdmitted(arena, sockets, arenaUsed, Direct(o));
  }

  // ---- Regions the arena sealed ----

  /** `r` names the k-th region sealed in the arena. */
  ghost predicate Names(s: A.State, r: Region, k: nat) {
    k < |s.sealedRegions| && r.offset == s.sealedRegions[k].offset && r.length == |s.sealedRegions[k].content|
  }

  /** The four regions of a bootstrap are different sealed regions of one arena. */
  ghost predicate FromArena(s: A.State, regions: Regions, core: nat, directory: nat, admin: nat, keys: nat) {
    && Names(s, regions.core, core) && Names(s, regions.directory, directory) && Names(s, regions.admin, admin)
    && core != directory && core != admin && directory != admin
    && (regions.authKeys.Some? ==>
          Names(s, regions.authKeys.value, keys) && keys != core && keys != directory && keys != admin)
  }

  /** Descriptors of different sealed regions lie in the published part and share no byte. */
  lemma SealedPair(s: A.State, a: Descriptor, b: Descriptor, k: nat, l: nat)
    requires A.Inv(s) && s.capacity <= USIZE_MAX && k != l
    requires Names(s, Region(a.arenaOffset, a.arenaLength), k) && Names(s, Region(b.arenaOffset, b.arenaLength), l)
    ensures !Overlap(a, b) && RangeOk(a, Some(A.Used(s))) && RangeOk(b, Some(A.Used(s)))
  {
    A.SealedRegionsAreDisjoint(s, k, l);
  }

  lemma SealedRegionsAreOk(
    s: A.State, regions: Regions, id: nat, core: nat, directory: nat, admin: nat, keys: nat)
    requires A.Inv(s) && s.capacity <= USIZE_MAX && id + 4 <= USIZE_MAX
    requires FromArena(s, regions, core, directory, admin, keys)
    ensures RegionsOk(regions, id, A.Used(s))
  {
    var rs := DescribeRegions(regions, id);
    SealedPair(s, rs[0], rs[1], core, directory);
    SealedPair(s, rs[0], rs[2], core, admin);
    SealedPair(s, rs[1], rs[2], directory, admin);
    if regions.authKeys.Some? {
      SealedPair(s, rs[0], rs[3], core, keys);
      SealedPair(s, rs[1], rs[3], directory, keys);
      SealedPair(s, rs[2], rs[3], admin, keys);
    }
  }

  /**
   * Arena and descriptors compose: however the threads interleaved, a bootstrap over regions sealed
   * in the arena is admitted, the published length being the arena's own counter.
   */
  lemma ArenaBootstrapIsAdmitted(
    capacity: nat, memory: bytes, actions: seq<A.Action>, s: A.State, o: Outgoing, regions: Regions,
    core: nat, directory: nat, admin: nat, keys: nat)
    requires |memory| == capacity <= USIZE_MAX && A.Reaches(A.Create(capacity, memory), actions, s)
    requires FromArena(s, regions, core, directory, admin, keys)
    requires SocketCount(o) <= U32_MAX && |Bootstrap(o, regions)| <= MAX_RESOURCES
    requires forall x <- o.sessions :: x.connectionId != 0
    ensures s.history != [] && A.Used(s) <= USIZE_MAX
    ensures Admitted(Bootstrap(o, regions), Some(A.Used(s)), Some(SocketCount(o)))
  {
    A.CreateInv(capacity, memory);
    A.RunMovesForward(A.Create(capacity, memory), actions, s);
    SealedRegionsAreOk(s, regions, 1 + Direct(o), core, directory, admin, keys);
    BootstrapIsAdmitted(o, regions, A.Used(s));
  }
}
