/** The parent's numbering and description of native sockets, and the round trip through the child. */
module SocketBootstrap {
  import opened Wrappers
  import opened Bytes
  import opened StableSort
  import opened Descriptors
  import opened SocketHandoff

  datatype Region = Region(offset: u64, length: u64)

  datatype Regions = Regions(core: Region, directory: Region, admin: Region, authKeys: Option<Region>)

  function ArenaDescriptor(id: u64, kind: Kind, region: Region): Descriptor {
    Descriptor(id, KindNumber(kind), region.offset, region.length, None, None)
  }

  function NativeDescriptor(id: u64, kind: Kind, index: u32, connectionId: Option<u64>): Descriptor {
    Descriptor(id, KindNumber(kind), 0, 0, Some(index), connectionId)
  }

  function ListenerKind(t: Transport): Kind { if t.Tcp? then TcpListener else UdpListener }

  function TransportOrder(): Listener -> int { (l: Listener) => if l.transport.Tcp? then 0 else 1 }

  function ConnectionOrder(): Session -> int { (s: Session) => s.connectionId }

  function DescribeListeners(ls: seq<Listener>, id: nat, index: nat): (r: seq<Descriptor>)
    requires index + |ls| <= U32_MAX + 1 && id + |ls| <= USIZE_MAX
    ensures |r| == |ls|
  {
    if ls == [] then []
    else
      [NativeDescriptor(id, ListenerKind(ls[0].transport), index, None)]
      + DescribeListeners(ls[1..], id + 1, index + 1)
  }

  function DescribeSessions(ss: seq<Session>, id: nat, index: nat): (r: seq<Descriptor>)
    requires index + |ss| <= U32_MAX + 1 && id + |ss| <= USIZE_MAX
    ensures |r| == |ss|
  {
    if ss == [] then []
    else
      [NativeDescriptor(id, TcpStream, index, Some(ss[0].connectionId))]
      + DescribeSessions(ss[1..], id + 1, index + 1)
  }

  function DescribeHandles(count: nat, id: nat, index: nat): (r: seq<Descriptor>)
    requires index + count <= U32_MAX && id + count <= USIZE_MAX
    ensures |r| == count
  {
    if count == 0 then []
    else [NativeDescriptor(id, AdminResource, index, None)] + DescribeHandles(count - 1, id + 1, index + 1)
  }

  function DescribeRegions(regions: Regions, id: nat): (r: seq<Descriptor>)
    requires id + 4 <= USIZE_MAX
  {
    [ArenaDescriptor(id, CoreSnapshot, regions.core),
     ArenaDescriptor(id + 1, SessionDirectory, regions.directory),
     ArenaDescriptor(id + 2, AdminResource, regions.admin)]
    + if regions.authKeys.Some? then [ArenaDescriptor(id + 3, OnlineAuthKeys, regions.authKeys.value)] else []
  }

  /** Replaces each handle by the next native index. */
  function TransferResources(rs: seq<SurfaceResource>, next: nat): (r: seq<TransferResource>)
    requires next + |HandlesOf(rs)| <= U32_MAX + 1
  {
    if rs == [] then []
    else
      match rs[0].value
      case Plain(content) => [TransferResource(rs[0].name, PlainValue(content))] + TransferResources(rs[1..], next)
      case Handle(kind, _) =>
        [TransferResource(rs[0].name, HandleIndex(kind, next))] + TransferResources(rs[1..], next + 1)
  }

  function TransferSurfaces(surfaces: seq<Surface>, next: nat): (r: seq<TransferSurface>)
    requires next + |SurfaceHandles(surfaces)| <= U32_MAX + 1
  {
    if surfaces == [] then []
    else
      var first := surfaces[0];
      [TransferSurface(first.instanceId, first.resumePayload, TransferResources(first.resources, next))]
      + TransferSurfaces(surfaces[1..], next + |HandlesOf(first.resources)|)
  }

  /** What the parent has to hand over. */
  datatype Outgoing = Outgoing(listeners: seq<Listener>, sessions: seq<Session>, surfaces: seq<Surface>)

  function Direct(o: Outgoing): nat { |o.listeners| + |o.sessions| }

  function SocketCount(o: Outgoing): nat { |o.listeners| + |o.sessions| + |SurfaceHandles(o.surfaces)| }

  function InOrder(o: Outgoing): Decoded {
    Decoded(SortBy(o.listeners, TransportOrder()), SortBy(o.sessions, ConnectionOrder()), o.surfaces)
  }

  /** The sockets in the order they travel. */
  function NativeSockets(o: Outgoing): (r: seq<Socket>)
    ensures |r| == SocketCount(o)
  {
    ListenerSockets(InOrder(o).listeners) + (SessionSockets(InOrder(o).sessions) + SurfaceHandles(o.surfaces))
  }

  /** Listeners, then sessions, then admin handles, each on the next native index. */
  function SocketDescriptors(o: Outgoing, id: nat): (r: seq<Descriptor>)
    requires SocketCount(o) <= U32_MAX && id + SocketCount(o) <= USIZE_MAX
  {
    DescribeListeners(InOrder(o).listeners, 1, 0) +
    (DescribeSessions(InOrder(o).sessions, 1 + |o.listeners|, |o.listeners|) +
     DescribeHandles(|SurfaceHandles(o.surfaces)|, id, Direct(o)))
  }

  function Bootstrap(o: Outgoing, regions: Regions): seq<Descriptor>
    requires SocketCount(o) <= U32_MAX
  {
    var id := 1 + Direct(o);
    var arena := DescribeRegions(regions, id);
    arena + SocketDescriptors(o, id + |arena|)
  }

  function Metadata(o: Outgoing): seq<TransferSurface>
    requires SocketCount(o) <= U32_MAX
  {
    TransferSurfaces(o.surfaces, Direct(o))
  }

  // ---- Decoding what was encoded ----

  /** The slots once the first `k` sockets are taken. */
  function SlotsFrom(sockets: seq<Socket>, k: nat): (r: Slots)
    requires k <= |sockets|
    ensures |r| == |sockets|
  {
    if k == 0 then Offered(sockets) else SlotsFrom(sockets, k - 1)[k - 1 := None]
  }

  lemma {:induction false} SlotAt(sockets: seq<Socket>, k: nat, i: nat)
    requires k <= |sockets| && i < |sockets|
    ensures SlotsFrom(sockets, k)[i] == if i < k then None else Some(sockets[i])
  {
    if k > 0 {
      SlotAt(sockets, k - 1, i);
    }
  }

  function IndexRange(first: nat, end: nat): (r: set<u32>)
    requires end <= U32_MAX
    decreases end - first
  {
    if first >= end then {} else {first as u32} + IndexRange(first + 1, end)
  }

  lemma {:induction false} IndexRangeHas(first: nat, end: nat, i: u32)
    requires end <= U32_MAX
    ensures i in IndexRange(first, end) <==> first <= i < end
    decreases end - first
  {
    if first < end {
      IndexRangeHas(first + 1, end, i);
    }
  }

  /** Taking the first index out of a range leaves the rest of it. */
  lemma IndexTaken(first: nat, end: nat)
    requires first < end <= U32_MAX
    ensures first in IndexRange(first, end) && IndexRange(first, end) - {first} == IndexRange(first + 1, end)
  {
    IndexRangeHas(first + 1, end, first);
  }

  /** From index `k` on, the sockets read `part`. */
  ghost predicate At(sockets: seq<Socket>, k: nat, part: seq<Socket>) {
    k + |part| <= |sockets| && sockets[k..k + |part|] == part
  }

  lemma AtSplits(sockets: seq<Socket>, k: nat, a: seq<Socket>, b: seq<Socket>)
    requires At(sockets, k, a + b)
    ensures At(sockets, k, a) && At(sockets, k + |a|, b)
    ensures a != [] ==> sockets[k] == a[0]
  {
    var whole := sockets[k..k + |a + b|];
    assert sockets[k..k + |a|] == whole[..|a|] == a;
    assert sockets[k + |a|..k + |a| + |b|] == whole[|a|..] == b;
  }

  lemma {:induction false} ClaimAllAppends(c: Claims, a: seq<Descriptor>, b: seq<Descriptor>, read: MetadataReader,
      c': Claims)
    requires ClaimAll(c, a, read) == Ok(c')
    ensures ClaimAll(c, a + b, read) == ClaimAll(c', b, read)
    decreases |a|
  {
    if a == [] {
      assert a + b == b;
    } else {
      assert (a + b)[1..] == a[1..] + b;
      ClaimAllAppends(ClaimOne(c, a[0], read).value, a[1..], b, read, c');
    }
  }

  lemma ClaimAllCons(c: Claims, d: Descriptor, rest: seq<Descriptor>, read: MetadataReader, c': Claims)
    requires ClaimOne(c, d, read) == Ok(c')
    ensures ClaimAll(c, [d] + rest, read) == ClaimAll(c', rest, read)
  {
    assert ([d] + rest)[1..] == rest;
  }

  lemma SlotIsTaken(sockets: seq<Socket>, k: nat)
    requires k < |sockets|
    ensures Available(SlotsFrom(sockets, k), k) && SlotsFrom(sockets, k)[k] == Some(sockets[k])
    ensures SlotsFrom(sockets, k)[k := None] == SlotsFrom(sockets, k + 1)
  {
    SlotAt(sockets, k, k);
  }

  lemma FirstListener(ls: seq<Listener>, sockets: seq<Socket>, k: nat)
    requires ls != [] && At(sockets, k, ListenerSockets(ls))
    ensures k < |sockets| && sockets[k] == ls[0].socket && At(sockets, k + 1, ListenerSockets(ls[1..]))
  {
    assert ListenerSockets(ls) == [ls[0].socket] + ListenerSockets(ls[1..]);
    AtSplits(sockets, k, [ls[0].socket], ListenerSockets(ls[1..]));
  }

  lemma FirstSession(ss: seq<Session>, sockets: seq<Socket>, k: nat)
    requires ss != [] && At(sockets, k, SessionSockets(ss))
    ensures k < |sockets| && sockets[k] == ss[0].socket && At(sockets, k + 1, SessionSockets(ss[1..]))
  {
    assert SessionSockets(ss) == [ss[0].socket] + SessionSockets(ss[1..]);
    AtSplits(sockets, k, [ss[0].socket], SessionSockets(ss[1..]));
  }

  /** From slot `k` to slot `end`, behind the listeners in `before`, making up `all`. */
  lemma {:induction false} ListenersAreClaimed(
    ls: seq<Listener>, before: seq<Listener>, all: seq<Listener>, id: nat, k: nat, end: nat, sockets: seq<Socket>,
    metadata: Option<seq<TransferSurface>>, read: MetadataReader)
    requires end == k + |ls| <= U32_MAX && id + |ls| <= USIZE_MAX && At(sockets, k, ListenerSockets(ls))
    requires all == before + ls
    ensures ClaimAll(Claims(SlotsFrom(sockets, k), before, [], {}, metadata), DescribeListeners(ls, id, k), read)
            == Ok(Claims(SlotsFrom(sockets, end), all, [], {}, metadata))
    decreases |ls|
  {
    if ls == [] {
      assert all == before;
    } else {
      var c := Claims(SlotsFrom(sockets, k), before, [], {}, metadata);
      var c' := Claims(SlotsFrom(sockets, k + 1), before + [ls[0]], [], {}, metadata);
      FirstListener(ls, sockets, k);
      ListenerIsClaimed(ls[0], id, k, sockets, c, read);
      ClaimAllCons(c, NativeDescriptor(id, ListenerKind(ls[0].transport), k, None),
                   DescribeListeners(ls[1..], id + 1, k + 1), read, c');
      assert all == before + [ls[0]] + ls[1..];
      ListenersAreClaimed(ls[1..], before + [ls[0]], all, id + 1, k + 1, end, sockets, metadata, read);
    }
  }

  lemma ListenerIsClaimed(l: Listener, id: u64, k: u32, sockets: seq<Socket>, c: Claims, read: MetadataReader)
    requires k < |sockets| && c.slots == SlotsFrom(sockets, k) && sockets[k] == l.socket
    ensures ClaimOne(c, NativeDescriptor(id, ListenerKind(l.transport), k, None), read)
            == Ok(c.(slots := SlotsFrom(sockets, k + 1), listeners := c.listeners + [l]))
  {
    SlotIsTaken(sockets, k);
    assert c.slots[k := None] == SlotsFrom(sockets, k + 1);
  }

  lemma {:induction false} SessionsAreClaimed(
    ss: seq<Session>, before: seq<Session>, all: seq<Session>, id: nat, k: nat, end: nat, sockets: seq<Socket>,
    ls: seq<Listener>, metadata: Option<seq<TransferSurface>>, read: MetadataReader)
    requires end == k + |ss| <= U32_MAX && id + |ss| <= USIZE_MAX && At(sockets, k, SessionSockets(ss))
    requires all == before + ss
    ensures ClaimAll(Claims(SlotsFrom(sockets, k), ls, before, {}, metadata), DescribeSessions(ss, id, k), read)
            == Ok(Claims(SlotsFrom(sockets, end), ls, all, {}, metadata))
    decreases |ss|
  {
    if ss == [] {
      assert all == before;
    } else {
      var c := Claims(SlotsFrom(sockets, k), ls, before, {}, metadata);
      var c' := Claims(SlotsFrom(sockets, k + 1), ls, before + [ss[0]], {}, metadata);
      FirstSession(ss, sockets, k);
      SessionIsClaimed(ss[0], id, k, sockets, c, read);
      ClaimAllCons(c, NativeDescriptor(id, TcpStream, k, Some(ss[0].connectionId)),
                   DescribeSessions(ss[1..], id + 1, k + 1), read, c');
      assert all == before + [ss[0]] + ss[1..];
      SessionsAreClaimed(ss[1..], before + [ss[0]], all, id + 1, k + 1, end, sockets, ls, metadata, read);
    }
  }

  lemma SessionIsClaimed(s: Session, id: u64, k: u32, sockets: seq<Socket>, c: Claims, read: MetadataReader)
    requires k < |sockets| && c.slots == SlotsFrom(sockets, k) && sockets[k] == s.socket
    ensures ClaimOne(c, NativeDescriptor(id, TcpStream, k, Some(s.connectionId)), read)
            == Ok(c.(slots := SlotsFrom(sockets, k + 1), sessions := c.sessions + [s]))
  {
    SlotIsTaken(sockets, k);
    assert c.slots[k := None] == SlotsFrom(sockets, k + 1);
  }

  lemma {:induction false} HandlesAreNoted(count: nat, id: nat, k: nat, c: Claims, read: MetadataReader)
    requires k + count <= U32_MAX && id + count <= USIZE_MAX
    ensures ClaimAll(c, DescribeHandles(count, id, k), read) ==
            Ok(c.(adminIndexes := c.adminIndexes + IndexRange(k, k + count)))
    decreases count
  {
    if count == 0 {
      assert c.adminIndexes + IndexRange(k, k) == c.adminIndexes;
    } else {
      var c' := ClaimOne(c, DescribeHandles(count, id, k)[0], read).value;
      HandlesAreNoted(count - 1, id + 1, k + 1, c', read);
      assert c'.adminIndexes == c.adminIndexes + {k};
      assert IndexRange(k, k + count) == {k} + IndexRange(k + 1, k + count);
      assert c'.adminIndexes + IndexRange(k + 1, k + count) == c.adminIndexes + IndexRange(k, k + count);
      assert DescribeHandles(count, id, k)[1..] == DescribeHandles(count - 1, id + 1, k + 1);
    }
  }

  lemma RegionsAreRead(regions: Regions, id: nat, c: Claims, read: MetadataReader)
    requires id + 4 <= USIZE_MAX && c.metadata.None?
    requires regions.admin.length > 0 && read(regions.admin.offset, regions.admin.length).Some?
    ensures ClaimAll(c, DescribeRegions(regions, id), read)
            == Ok(c.(metadata := read(regions.admin.offset, regions.admin.length)))
  {
    var c' := c.(metadata := read(regions.admin.offset, regions.admin.length));
    var core := ArenaDescriptor(id, CoreSnapshot, regions.core);
    var directory := ArenaDescriptor(id + 1, SessionDirectory, regions.directory);
    var admin := ArenaDescriptor(id + 2, AdminResource, regions.admin);
    var keys := if regions.authKeys.Some? then [ArenaDescriptor(id + 3, OnlineAuthKeys,
        regions.authKeys.value)] else [];
    assert DescribeRegions(regions, id) == [core] + ([directory] + ([admin] + keys));
    ClaimAllCons(c, core, [directory] + ([admin] + keys), read, c);
    ClaimAllCons(c, directory, [admin] + keys, read, c);
    ClaimAllCons(c, admin, keys, read, c');
    if regions.authKeys.Some? {
      ClaimAllCons(c', keys[0], [], read, c');
      assert keys == [keys[0]] + [];
    }
  }

  lemma {:induction false} ResourcesResume(rs: seq<SurfaceResource>, k: nat, after: nat, sockets: seq<Socket>)
    requires |sockets| <= U32_MAX && At(sockets, k, HandlesOf(rs)) && after == k + |HandlesOf(rs)|
    ensures ResumeResources(StockFrom(sockets, k), TransferResources(rs, k)) ==
            Ok(Resumed(StockFrom(sockets, after), rs))
    decreases |rs|
  {
    if rs != [] {
      var stock := StockFrom(sockets, k);
      var t := TransferResources(rs, k);
      assert rs == [rs[0]] + rs[1..];
      if rs[0].value.Handle? {
        AtSplits(sockets, k, [rs[0].value.socket], HandlesOf(rs[1..]));
        SlotIsTaken(sockets, k);
        IndexTaken(k, |sockets|);
        ResourcesResume(rs[1..], k + 1, after, sockets);
        assert t[1..] == TransferResources(rs[1..], k + 1);
      } else {
        assert HandlesOf(rs) == HandlesOf(rs[1..]);
        ResourcesResume(rs[1..], k, after, sockets);
        assert t[1..] == TransferResources(rs[1..], k);
      }
    }
  }

  /** The stock once the sockets before index `k` are taken. */
  function StockFrom(sockets: seq<Socket>, k: nat): Stock
    requires k <= |sockets| <= U32_MAX
  {
    Stock(SlotsFrom(sockets, k), IndexRange(k, |sockets|))
  }

  lemma ResumeSurfacesCons(start: Stock, next: Stock, end: Stock, first: Surface, t: seq<TransferResource>,
                           rest: seq<Surface>, ts: seq<TransferSurface>, all: seq<TransferSurface>)
    requires ResumeResources(start, t) == Ok(Resumed(next, first.resources))
    requires ResumeSurfaces(next, ts) == Ok(Resumed(end, rest))
    requires all == [TransferSurface(first.instanceId, first.resumePayload, t)] + ts
    ensures ResumeSurfaces(start, all) == Ok(Resumed(end, [first] + rest))
  {
    assert all[1..] == ts;
  }

  lemma FirstSurface(surfaces: seq<Surface>, k: nat)
    requires surfaces != [] && k + |SurfaceHandles(surfaces)| <= U32_MAX + 1
    ensures
      var first, rest, own := surfaces[0], surfaces[1..], HandlesOf(surfaces[0].resources);
      && SurfaceHandles(surfaces) == own + SurfaceHandles(rest)
      && surfaces == [first] + rest
      && TransferSurfaces(surfaces, k) ==
           [TransferSurface(first.instanceId, first.resumePayload, TransferResources(first.resources, k))]
           + TransferSurfaces(rest, k + |own|)
  {
  }

  lemma {:induction false} SurfacesResume(surfaces: seq<Surface>, k: nat, after: nat, sockets: seq<Socket>)
    requires |sockets| <= U32_MAX && At(sockets, k, SurfaceHandles(surfaces)) && after == k + |SurfaceHandles(surfaces)|
    ensures ResumeSurfaces(StockFrom(sockets, k), TransferSurfaces(surfaces, k))
            == Ok(Resumed(StockFrom(sockets, after), surfaces))
    decreases |surfaces|
  {
    if surfaces != [] {
      var first, rest, next := surfaces[0], surfaces[1..], k + |HandlesOf(surfaces[0].resources)|;
      FirstSurface(surfaces, k);
      AtSplits(sockets, k, HandlesOf(first.resources), SurfaceHandles(rest));
      ResourcesResume(first.resources, k, next, sockets);
      SurfacesResume(rest, next, after, sockets);
      ResumeSurfacesCons(StockFrom(sockets, k), StockFrom(sockets, next), StockFrom(sockets, after), first,
                         TransferResources(first.resources, k), rest, TransferSurfaces(rest, next),
                         TransferSurfaces(surfaces, k));
    }
  }

  lemma ThreeInPlace(a: seq<Socket>, b: seq<Socket>, c: seq<Socket>)
    ensures At(a + (b + c), 0, a) && At(a + (b + c), |a|, b) && At(a + (b + c), |a| + |b|, c)
  {
    var sockets := a + (b + c);
    assert sockets[0..|sockets|] == sockets;
    AtSplits(sockets, 0, a, b + c);
    AtSplits(sockets, |a|, b, c);
  }

  lemma SocketsInPlace(o: Outgoing)
    ensures
      var ls, ss := InOrder(o).listeners, InOrder(o).sessions;
      && At(NativeSockets(o), 0, ListenerSockets(ls))
      && At(NativeSockets(o), |ls|, SessionSockets(ss))
      && At(NativeSockets(o), |ls| + |ss|, SurfaceHandles(o.surfaces))
  {
    ThreeInPlace(ListenerSockets(InOrder(o).listeners), SessionSockets(InOrder(o).sessions),
        SurfaceHandles(o.surfaces));
  }

  // The child's state before and after the bootstrap.

  function AfterRegions(o: Outgoing, metadata: Option<seq<TransferSurface>>): Claims {
    Claims(SlotsFrom(NativeSockets(o), 0), [], [], {}, metadata)
  }

  function AfterAll(o: Outgoing, metadata: Option<seq<TransferSurface>>): Claims
    requires SocketCount(o) <= U32_MAX
  {
    Claims(SlotsFrom(NativeSockets(o), Direct(o)), InOrder(o).listeners, InOrder(o).sessions,
           IndexRange(Direct(o), SocketCount(o)), metadata)
  }

  lemma RegionsPart(o: Outgoing, regions: Regions, id: nat, read: MetadataReader)
    requires id + 4 <= USIZE_MAX && regions.admin.length > 0
    requires read(regions.admin.offset, regions.admin.length).Some?
    ensures ClaimAll(AfterRegions(o, None), DescribeRegions(regions, id), read)
            == Ok(AfterRegions(o, read(regions.admin.offset, regions.admin.length)))
  {
    RegionsAreRead(regions, id, AfterRegions(o, None), read);
  }

  /** Claiming in four parts. */
  lemma ClaimInParts(c0: Claims, c1: Claims, c2: Claims, c3: Claims, c4: Claims,
                     a: seq<Descriptor>, b: seq<Descriptor>, c: seq<Descriptor>, d: seq<Descriptor>,
                         read: MetadataReader)
    requires ClaimAll(c0, a, read) == Ok(c1) && ClaimAll(c1, b, read) == Ok(c2)
    requires ClaimAll(c2, c, read) == Ok(c3) && ClaimAll(c3, d, read) == Ok(c4)
    ensures ClaimAll(c0, a + (b + (c + d)), read) == Ok(c4)
  {
    ClaimAllAppends(c0, a, b + (c + d), read, c1);
    ClaimAllAppends(c1, b, c + d, read, c2);
    ClaimAllAppends(c2, c, d, read, c3);
  }

  lemma DirectSocketsAreClaimed(
    ls: seq<Listener>, ss: seq<Session>, k: nat, end: nat, sockets: seq<Socket>, arena: seq<Descriptor>,
    handles: seq<Descriptor>, c: Claims, done: Claims, metadata: Option<seq<TransferSurface>>, read: MetadataReader)
    requires k == |ls| && end == k + |ss| <= U32_MAX
    requires At(sockets, 0, ListenerSockets(ls)) && At(sockets, k, SessionSockets(ss))
    requires ClaimAll(c, arena, read) == Ok(Claims(SlotsFrom(sockets, 0), [], [], {}, metadata))
    requires ClaimAll(Claims(SlotsFrom(sockets, end), ls, ss, {}, metadata), handles, read) == Ok(done)
    ensures ClaimAll(c, arena + (DescribeListeners(ls, 1, 0) + (DescribeSessions(ss, 1 + k, k) + handles)), read) ==
            Ok(done)
  {
    ListenersAreClaimed(ls, [], ls, 1, 0, k, sockets, metadata, read);
    SessionsAreClaimed(ss, [], ss, 1 + k, k, end, sockets, ls, metadata, read);
    ClaimInParts(c, Claims(SlotsFrom(sockets, 0), [], [], {}, metadata),
        Claims(SlotsFrom(sockets, k), ls, [], {}, metadata),
                 Claims(SlotsFrom(sockets, end), ls, ss, {}, metadata), done,
                 arena, DescribeListeners(ls, 1, 0), DescribeSessions(ss, 1 + k, k), handles, read);
  }

  lemma SocketsPart(o: Outgoing, arena: seq<Descriptor>, id: nat, metadata: Option<seq<TransferSurface>>,
      read: MetadataReader)
    requires SocketCount(o) <= U32_MAX && id + SocketCount(o) <= USIZE_MAX
    requires ClaimAll(AfterRegions(o, None), arena, read) == Ok(AfterRegions(o, metadata))
    ensures ClaimAll(AfterRegions(o, None), arena + SocketDescriptors(o, id), read) == Ok(AfterAll(o, metadata))
  {
    var ls, ss, sockets, count :=
        InOrder(o).listeners, InOrder(o).sessions, NativeSockets(o), |SurfaceHandles(o.surfaces)|;
    var direct := Claims(SlotsFrom(sockets, Direct(o)), ls, ss, {}, metadata);
    SocketsInPlace(o);
    HandlesAreNoted(count, id, Direct(o), direct, read);
    assert direct.adminIndexes + IndexRange(Direct(o), SocketCount(o)) == IndexRange(Direct(o), SocketCount(o));
    DirectSocketsAreClaimed(ls, ss, |o.listeners|, Direct(o), sockets, arena, DescribeHandles(count, id, Direct(o)),
                            AfterRegions(o, None), AfterAll(o, metadata), metadata, read);
  }

  /** Claiming the encoded descriptors takes every direct socket and notes every admin handle. */
  lemma BootstrapIsClaimed(o: Outgoing, regions: Regions, read: MetadataReader)
    requires SocketCount(o) <= U32_MAX && regions.admin.length > 0
    requires read(regions.admin.offset, regions.admin.length).Some?
    ensures ClaimAll(AfterRegions(o, None), Bootstrap(o, regions), read)
            == Ok(AfterAll(o, read(regions.admin.offset, regions.admin.length)))
  {
    var metadata, id := read(regions.admin.offset, regions.admin.length), 1 + Direct(o);
    var arena := DescribeRegions(regions, id);
    RegionsPart(o, regions, id, read);
    SocketsPart(o, arena, id + |arena|, metadata, read);
  }

  lemma AllSlotsTaken(sockets: seq<Socket>)
    requires |sockets| <= U32_MAX
    ensures AllTaken(StockFrom(sockets, |sockets|).slots) && StockFrom(sockets, |sockets|).adminIndexes == {}
  {
    forall i | 0 <= i < |sockets| ensures SlotsFrom(sockets, |sockets|)[i].None? {
      SlotAt(sockets, |sockets|, i);
    }
  }

  /**
   * Decoding the bootstrap built for any listeners, sessions and surfaces gives the same resources
   * back on the same sockets, in the encoder's order.
   */
  lemma DecodeInvertsEncode(o: Outgoing, regions: Regions, read: MetadataReader)
    requires SocketCount(o) <= U32_MAX && regions.admin.length > 0
    requires read(regions.admin.offset, regions.admin.length) == Some(Metadata(o))
    ensures DecodeNative(Bootstrap(o, regions), read, NativeSockets(o)) == Ok(InOrder(o))
  {
    BootstrapIsClaimed(o, regions, read);
    SocketsInPlace(o);
    SurfacesResume(o.surfaces, Direct(o), SocketCount(o), NativeSockets(o));
    AllSlotsTaken(NativeSockets(o));
  }

  /** The encoder's order: the same listeners and sessions, TCP before UDP and by connection id, ties as given. */
  lemma EncoderOrder(o: Outgoing)
    ensures multiset(InOrder(o).listeners) == multiset(o.listeners) && Ascending(InOrder(o).listeners, TransportOrder())
    ensures multiset(InOrder(o).sessions) == multiset(o.sessions) && Ascending(InOrder(o).sessions, ConnectionOrder())
    ensures forall k :: WithKey(InOrder(o).listeners, TransportOrder(), k) == WithKey(o.listeners, TransportOrder(), k)
    ensures forall k :: WithKey(InOrder(o).sessions, ConnectionOrder(), k) == WithKey(o.sessions, ConnectionOrder(), k)
  {
    SortByIsStableSort(o.listeners, TransportOrder());
    SortByIsStableSort(o.sessions, ConnectionOrder());
  }
}
