/** The parent's encoder as it runs, proved against the Bootstrap specification. */
module SocketEncoder {
  import opened Wrappers
  import opened Bytes
  import opened StableSort
  import opened Descriptors
  import opened SocketHandoff
  import opened SocketBootstrap

  datatype Encoded = Encoded(resources: seq<Descriptor>, sockets: seq<Socket>, metadata: seq<TransferSurface>)

  lemma {:induction false} DescribeListenersSnoc(ls: seq<Listener>, l: Listener, id: nat, index: nat)
    requires index + |ls| <= U32_MAX && id + |ls| < USIZE_MAX
    ensures DescribeListeners(ls + [l], id, index)
            == DescribeListeners(ls, id, index) +
                [NativeDescriptor(id + |ls|, ListenerKind(l.transport), index + |ls|, None)]
    decreases |ls|
  {
    if ls != [] {
      assert (ls + [l])[1..] == ls[1..] + [l];
      DescribeListenersSnoc(ls[1..], l, id + 1, index + 1);
    }
  }

  lemma {:induction false} DescribeSessionsSnoc(ss: seq<Session>, s: Session, id: nat, index: nat)
    requires index + |ss| <= U32_MAX && id + |ss| < USIZE_MAX
    ensures DescribeSessions(ss + [s], id, index)
            == DescribeSessions(ss, id, index) +
                [NativeDescriptor(id + |ss|, TcpStream, index + |ss|, Some(s.connectionId))]
    decreases |ss|
  {
    if ss != [] {
      assert (ss + [s])[1..] == ss[1..] + [s];
      DescribeSessionsSnoc(ss[1..], s, id + 1, index + 1);
    }
  }

  /** Describes the listeners on consecutive native indexes; fails once an index exceeds 32 bits. */
  method EncodeListeners(listeners: seq<Listener>) returns (r: Option<(seq<Descriptor>, seq<Socket>)>)
    requires |listeners| < USIZE_MAX
    ensures r.Some? <==> |listeners| <= U32_MAX + 1
    ensures r.Some? ==> r.value == (DescribeListeners(listeners, 1, 0), ListenerSockets(listeners))
  {
    var resources: seq<Descriptor>, native: seq<Socket> := [], [];
    for i := 0 to |listeners|
      invariant i <= U32_MAX + 1
      invariant resources == DescribeListeners(listeners[..i], 1, 0) && native == ListenerSockets(listeners[..i])
    {
      if |native| > U32_MAX {
        return None;
      }
      DescribeListenersSnoc(listeners[..i], listeners[i], 1, 0);
      assert listeners[..i + 1] == listeners[..i] + [listeners[i]];
      resources := resources + [NativeDescriptor(1 + i, ListenerKind(listeners[i].transport), |native|, None)];
      native := native + [listeners[i].socket];
    }
    assert listeners[..|listeners|] == listeners;
    r := Some((resources, native));
  }

  method EncodeSessions(sessions: seq<Session>, id: nat, start: nat) returns (r: Option<(seq<Descriptor>, seq<Socket>)>)
    requires id + |sessions| < USIZE_MAX && start <= U32_MAX + 1
    ensures r.Some? <==> start + |sessions| <= U32_MAX + 1
    ensures r.Some? ==> r.value == (DescribeSessions(sessions, id, start), SessionSockets(sessions))
  {
    var resources: seq<Descriptor>, native: seq<Socket> := [], [];
    for i := 0 to |sessions|
      invariant start + i <= U32_MAX + 1
      invariant resources == DescribeSessions(sessions[..i], id, start) && native == SessionSockets(sessions[..i])
    {
      if start + |native| > U32_MAX {
        return None;
      }
      DescribeSessionsSnoc(sessions[..i], sessions[i], id, start);
      assert sessions[..i + 1] == sessions[..i] + [sessions[i]];
      resources := resources + [NativeDescriptor(id + i, TcpStream, start + |native|, Some(sessions[i].connectionId))];
      native := native + [sessions[i].socket];
    }
    assert sessions[..|sessions|] == sessions;
    r := Some((resources, native));
  }

  lemma {:induction false} HandlesAppend(a: seq<SurfaceResource>, b: seq<SurfaceResource>)
    ensures HandlesOf(a + b) == HandlesOf(a) + HandlesOf(b)
    decreases |a|
  {
    if a == [] {
      assert a + b == b;
    } else {
      var first := if a[0].value.Handle? then [a[0].value.socket] else [];
      assert (a + b)[1..] == a[1..] + b && (a + b)[0] == a[0];
      HandlesAppend(a[1..], b);
      assert HandlesOf(a + b) == first + HandlesOf(a[1..] + b);
      assert HandlesOf(a) == first + HandlesOf(a[1..]);
      assert first + (HandlesOf(a[1..]) + HandlesOf(b)) == first + HandlesOf(a[1..]) + HandlesOf(b);
    }
  }

  lemma {:induction false} TransferAppends(a: seq<SurfaceResource>, b: seq<SurfaceResource>, next: nat)
    requires next + |HandlesOf(a + b)| <= U32_MAX + 1
    ensures |HandlesOf(a + b)| == |HandlesOf(a)| + |HandlesOf(b)|
    ensures TransferResources(a + b, next) == TransferResources(a, next) + TransferResources(b, next + |HandlesOf(a)|)
    decreases |a|
  {
    HandlesAppend(a, b);
    if a == [] {
      assert a + b == b;
    } else {
      assert (a + b)[1..] == a[1..] + b && (a + b)[0] == a[0];
      HandlesAppend(a[1..], b);
      if a[0].value.Handle? {
        TransferAppends(a[1..], b, next + 1);
        Assoc([TransferResource(a[0].name, HandleIndex(a[0].value.handleKind, next))],
              TransferResources(a[1..], next + 1), TransferResources(b, next + |HandlesOf(a)|));
      } else {
        TransferAppends(a[1..], b, next);
        Assoc([TransferResource(a[0].name, PlainValue(a[0].value.content))],
              TransferResources(a[1..], next), TransferResources(b, next + |HandlesOf(a)|));
      }
    }
  }

  lemma {:induction false} SurfaceHandlesAppend(a: seq<Surface>, b: seq<Surface>)
    ensures SurfaceHandles(a + b) == SurfaceHandles(a) + SurfaceHandles(b)
    decreases |a|
  {
    if a == [] {
      assert a + b == b;
    } else {
      assert (a + b)[1..] == a[1..] + b;
      SurfaceHandlesAppend(a[1..], b);
    }
  }

  lemma {:induction false} TransferSurfacesSnoc(a: seq<Surface>, x: Surface, next: nat)
    requires next + |SurfaceHandles(a)| + |HandlesOf(x.resources)| <= U32_MAX + 1
    ensures SurfaceHandles(a + [x]) == SurfaceHandles(a) + HandlesOf(x.resources)
    ensures TransferSurfaces(a + [x], next)
            == TransferSurfaces(a, next) + [TransferSurface(x.instanceId, x.resumePayload,
                                                            TransferResources(x.resources, next + |SurfaceHandles(a)|))]
    decreases |a|
  {
    SurfaceHandlesAppend(a, [x]);
    assert SurfaceHandles([x]) == HandlesOf(x.resources) + SurfaceHandles([]);
    if a != [] {
      assert (a + [x])[1..] == a[1..] + [x];
      TransferSurfacesSnoc(a[1..], x, next + |HandlesOf(a[0].resources)|);
    }
  }

  /** Moves one surface's sockets behind those already collected. */
  method EncodeResources(rs: seq<SurfaceResource>, next: nat) returns (r: Option<(seq<TransferResource>, seq<Socket>)>)
    requires next <= U32_MAX + 1
    ensures r.Some? <==> next + |HandlesOf(rs)| <= U32_MAX + 1
    ensures r.Some? ==> r.value == (TransferResources(rs, next), HandlesOf(rs))
  {
    var out: seq<TransferResource>, sockets: seq<Socket> := [], [];
    for i := 0 to |rs|
      invariant sockets == HandlesOf(rs[..i]) && next + |sockets| <= U32_MAX + 1
      invariant out == TransferResources(rs[..i], next)
    {
      assert rs[..i + 1] == rs[..i] + [rs[i]];
      HandlesAppend(rs[..i], [rs[i]]);
      match rs[i].value {
        case Plain(content) =>
          TransferAppends(rs[..i], [rs[i]], next);
          out := out + [TransferResource(rs[i].name, PlainValue(content))];
        case Handle(handleKind, socket) =>
          if next + |sockets| > U32_MAX {
            assert rs == rs[..i + 1] + rs[i + 1..];
            HandlesAppend(rs[..i + 1], rs[i + 1..]);
            return None;
          }
          TransferAppends(rs[..i], [rs[i]], next);
          out := out + [TransferResource(rs[i].name, HandleIndex(handleKind, next + |sockets|))];
          sockets := sockets + [socket];
      }
    }
    assert rs[..|rs|] == rs;
    r := Some((out, sockets));
  }

  method EncodeSurfaces(surfaces: seq<Surface>, start: nat) returns (r: Option<(seq<TransferSurface>, seq<Socket>)>)
    requires start <= U32_MAX + 1
    ensures r.Some? <==> start + |SurfaceHandles(surfaces)| <= U32_MAX + 1
    ensures r.Some? ==> r.value == (TransferSurfaces(surfaces, start), SurfaceHandles(surfaces))
  {
    var out: seq<TransferSurface>, sockets: seq<Socket> := [], [];
    for i := 0 to |surfaces|
      invariant sockets == SurfaceHandles(surfaces[..i]) && start + |sockets| <= U32_MAX + 1
      invariant out == TransferSurfaces(surfaces[..i], start)
    {
      var x := surfaces[i];
      assert surfaces[..i + 1] == surfaces[..i] + [x];
      var encoded := EncodeResources(x.resources, start + |sockets|);
      if encoded.None? {
        assert surfaces == surfaces[..i] + surfaces[i..];
        SurfaceHandlesAppend(surfaces[..i], surfaces[i..]);
        return None;
      }
      TransferSurfacesSnoc(surfaces[..i], x, start);
      out := out + [TransferSurface(x.instanceId, x.resumePayload, encoded.value.0)];
      sockets := sockets + encoded.value.1;
    }
    assert surfaces[..|surfaces|] == surfaces;
    r := Some((out, sockets));
  }

  /** Sorts and describes listeners, then sessions, on consecutive native indexes. */
  method EncodeSocketResources(o: Outgoing) returns (r: Option<(seq<Descriptor>, seq<Descriptor>, seq<Socket>)>)
    requires Direct(o) + 1 < USIZE_MAX
    ensures r.Some? <==> Direct(o) <= U32_MAX + 1
    ensures r.Some? ==> r.value == (DescribeListeners(InOrder(o).listeners, 1, 0),
                                    DescribeSessions(InOrder(o).sessions, 1 + |o.listeners|, |o.listeners|),
                                    ListenerSockets(InOrder(o).listeners) + SessionSockets(InOrder(o).sessions))
  {
    var listeners := SortStably(o.listeners, TransportOrder());
    var sessions := SortStably(o.sessions, ConnectionOrder());
    var first := EncodeListeners(listeners);
    if first.None? {
      return None;
    }
    var second := EncodeSessions(sessions, 1 + |listeners|, |listeners|);
    if second.None? {
      return None;
    }
    r := Some((first.value.0, second.value.0, first.value.1 + second.value.1));
  }

  /** Builds the bootstrap; refused exactly when the sockets cannot be counted in 32 bits. */
  method EncodeBootstrap(o: Outgoing, regions: Regions) returns (r: Option<Encoded>)
    requires Direct(o) + 1 < USIZE_MAX
    ensures r.Some? <==> SocketCount(o) <= U32_MAX
    ensures r.Some? ==> r.value.resources == Bootstrap(o, regions)
    ensures r.Some? ==> r.value.sockets == NativeSockets(o)
    ensures r.Some? ==> r.value.metadata == Metadata(o)
  {
    var direct := EncodeSocketResources(o);
    if direct.None? || |direct.value.2| > U32_MAX {
      return None;
    }
    var native := direct.value.2;
    assert |native| == Direct(o);
    var admin := EncodeSurfaces(o.surfaces, |native|);
    if admin.None? || |native| + |admin.value.1| > U32_MAX {
      return None;
    }
    var resources := EncodeDescriptors(o, regions, direct.value.0, direct.value.1);
    Assoc(ListenerSockets(InOrder(o).listeners), SessionSockets(InOrder(o).sessions), admin.value.1);
    r := Some(Encoded(resources, native + admin.value.1, admin.value.0));
  }

  /** Arena regions first, then the sockets already described, then one descriptor per admin handle. */
  method EncodeDescriptors(o: Outgoing, regions: Regions, listeners: seq<Descriptor>, sessions: seq<Descriptor>)
    returns (r: seq<Descriptor>)
    requires SocketCount(o) <= U32_MAX && listeners == DescribeListeners(InOrder(o).listeners, 1, 0)
    requires sessions == DescribeSessions(InOrder(o).sessions, 1 + |o.listeners|, |o.listeners|)
    ensures r == Bootstrap(o, regions)
  {
    var start := |listeners| + |sessions|;
    var arena := DescribeRegions(regions, 1 + start);
    var handles := EncodeHandles(|SurfaceHandles(o.surfaces)|, 1 + start + |arena|, start);
    r := arena + (listeners + (sessions + handles));
  }

  method EncodeHandles(count: nat, id: nat, start: nat) returns (r: seq<Descriptor>)
    requires start + count <= U32_MAX && id + count <= USIZE_MAX
    ensures r == DescribeHandles(count, id, start)
  {
    r := [];
    var i := count;
    while i > 0
      invariant 0 <= i <= count && r == DescribeHandles(count - i, id + i, start + i)
    {
      i := i - 1;
      r := [NativeDescriptor(id + i, AdminResource, start + i, None)] + r;
    }
  }
}
