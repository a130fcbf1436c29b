/**
 * Native sockets across the hand-off: how the parent numbers and describes them, and how the child
 * claims each received slot for a listener, a session or an admin surface.
 *
 * A socket is an identity that duplication and import preserve. The admin metadata is JSON in the
 * arena; `read` stands for reading a published range and parsing it.
 */
module SocketHandoff {
  import opened Wrappers
  import opened Bytes
  import opened Descriptors

  type Socket = nat

  const U32_MAX := 0xFFFF_FFFF

  datatype Transport = Tcp | Udp

  datatype Listener = Listener(transport: Transport, socket: Socket)
  datatype Session = Session(connectionId: u64, socket: Socket)

  datatype SurfaceValue = Plain(content: bytes) | Handle(handleKind: string, socket: Socket)
  datatype SurfaceResource = SurfaceResource(name: string, value: SurfaceValue)
  datatype Surface = Surface(instanceId: string, resumePayload: bytes, resources: seq<SurfaceResource>)

  /** The same, as written to the metadata: a handle becomes its index among the native sockets. */
  datatype TransferValue = PlainValue(content: bytes) | HandleIndex(handleKind: string, index: u32)
  datatype TransferResource = TransferResource(name: string, value: TransferValue)
  datatype TransferSurface = TransferSurface(instanceId: string, resumePayload: bytes, resources: seq<TransferResource>)

  type MetadataReader = (u64, u64) -> Option<seq<TransferSurface>>

  datatype Decoded = Decoded(listeners: seq<Listener>, sessions: seq<Session>, surfaces: seq<Surface>)

  datatype DecodeError =
    | InvalidKind
    | MissingHandle(resourceId: u64)
    | UnavailableHandle(resourceId: u64, index: u32)
    | MissingConnection
    | MultipleMetadata
    | UnreadableMetadata
    | MissingAdminHandle
    | MissingMetadata
    | UndescribedAdminSocket(index: u32)
    | UnavailableAdminSocket(index: u32)
    | UnclaimedSockets

  // ---- Claiming ----

  type Slots = seq<Option<Socket>>

  datatype Claims = Claims(
    slots: Slots, listeners: seq<Listener>, sessions: seq<Session>,
    adminIndexes: set<u32>, metadata: Option<seq<TransferSurface>>)

  predicate Available(slots: Slots, index: int) { 0 <= index < |slots| && slots[index].Some? }

  /** A socket taken out of its slot, and the slots that leaves. */
  datatype Taken = Taken(socket: Socket, slots: Slots)

  /** Takes the described socket if its slot is still full, and empties that slot alone. */
  function TakeSocket(slots: Slots, d: Descriptor): (r: Result<Taken, DecodeError>)
    ensures r.Ok? <==> d.nativeHandle.Some? && Available(slots, d.nativeHandle.value)
    ensures r.Ok? ==> slots[d.nativeHandle.value] == Some(r.value.socket)
    ensures r.Ok? ==> r.value.slots == slots[d.nativeHandle.value := None]
  {
    if d.nativeHandle.None? then Err(MissingHandle(d.resourceId))
    else if !Available(slots, d.nativeHandle.value) then Err(UnavailableHandle(d.resourceId, d.nativeHandle.value))
    else Ok(Taken(slots[d.nativeHandle.value].value, slots[d.nativeHandle.value := None]))
  }

  function ClaimListener(c: Claims, d: Descriptor, transport: Transport): Result<Claims, DecodeError> {
    var taken :- TakeSocket(c.slots, d);
    Ok(c.(slots := taken.slots, listeners := c.listeners + [Listener(transport, taken.socket)]))
  }

  function ClaimSession(c: Claims, d: Descriptor): Result<Claims, DecodeError> {
    var taken :- TakeSocket(c.slots, d);
    if d.logicalId.None? then Err(MissingConnection)
    else Ok(c.(slots := taken.slots, sessions := c.sessions + [Session(d.logicalId.value, taken.socket)]))
  }

  function ClaimAdmin(c: Claims, d: Descriptor, read: MetadataReader): Result<Claims, DecodeError> {
    if d.arenaLength > 0 then
      if c.metadata.Some? then Err(MultipleMetadata)
      else
        var parsed := read(d.arenaOffset, d.arenaLength);
        if parsed.None? then Err(UnreadableMetadata) else Ok(c.(metadata := parsed))
    else if d.nativeHandle.None? then Err(MissingAdminHandle)
    else Ok(c.(adminIndexes := c.adminIndexes + {d.nativeHandle.value}))
  }

  function ClaimOne(c: Claims, d: Descriptor, read: MetadataReader): Result<Claims, DecodeError> {
    match KindOf(d.kind)
    case None => Err(InvalidKind)
    case Some(TcpListener) => ClaimListener(c, d, Tcp)
    case Some(UdpListener) => ClaimListener(c, d, Udp)
    case Some(TcpStream) => ClaimSession(c, d)
    case Some(AdminResource) => ClaimAdmin(c, d, read)
    case _ => Ok(c)
  }

  function ClaimAll(c: Claims, rs: seq<Descriptor>, read: MetadataReader): Result<Claims, DecodeError>
    decreases |rs|
  {
    if rs == [] then Ok(c)
    else
      var c' :- ClaimOne(c, rs[0], read);
      ClaimAll(c', rs[1..], read)
  }

  /** What is left to hand to the admin surfaces. */
  datatype Stock = Stock(slots: Slots, adminIndexes: set<u32>)

  datatype Resumed<T> = Resumed(stock: Stock, value: T)

  function ResumeValue(k: Stock, v: TransferValue): Result<Resumed<SurfaceValue>, DecodeError> {
    match v
    case PlainValue(content) => Ok(Resumed(k, Plain(content)))
    case HandleIndex(handleKind, index) =>
      if index !in k.adminIndexes then Err(UndescribedAdminSocket(index))
      else if !Available(k.slots, index) then Err(UnavailableAdminSocket(index))
      else Ok(Resumed(Stock(k.slots[index := None], k.adminIndexes - {index}),
          Handle(handleKind, k.slots[index].value)))
  }

  function ResumeResources(k: Stock, rs: seq<TransferResource>): Result<Resumed<seq<SurfaceResource>>, DecodeError>
    decreases |rs|
  {
    if rs == [] then Ok(Resumed(k, []))
    else
      var first :- ResumeValue(k, rs[0].value);
      var rest :- ResumeResources(first.stock, rs[1..]);
      Ok(Resumed(rest.stock, [SurfaceResource(rs[0].name, first.value)] + rest.value))
  }

  function ResumeSurfaces(k: Stock, ts: seq<TransferSurface>): Result<Resumed<seq<Surface>>, DecodeError>
    decreases |ts|
  {
    if ts == [] then Ok(Resumed(k, []))
    else
      var first :- ResumeResources(k, ts[0].resources);
      var rest :- ResumeSurfaces(first.stock, ts[1..]);
      Ok(Resumed(rest.stock, [Surface(ts[0].instanceId, ts[0].resumePayload, first.value)] + rest.value))
  }

  predicate AllTaken(slots: Slots) { forall i :: 0 <= i < |slots| ==> slots[i].None? }

  function Offered(sockets: seq<Socket>): Slots { seq(|sockets|, i requires 0 <= i < |sockets| => Some(sockets[i])) }

  /** The child's decoding of a bootstrap and the sockets that came with it. */
  function DecodeNative(rs: seq<Descriptor>, read: MetadataReader, sockets: seq<Socket>): Result<Decoded, DecodeError> {
    var c :- ClaimAll(Claims(Offered(sockets), [], [], {}, None), rs, read);
    if c.metadata.None? then Err(MissingMetadata) else
    var resumed :- ResumeSurfaces(Stock(c.slots, c.adminIndexes), c.metadata.value);
    if resumed.stock.adminIndexes != {} || !AllTaken(resumed.stock.slots) then Err(UnclaimedSockets)
    else Ok(Decoded(c.listeners, c.sessions, resumed.value))
  }

  // ---- A successful decode claims every socket exactly once ----

  function ListenerSockets(s: seq<Listener>): seq<Socket> {
    seq(|s|, i requires 0 <= i < |s| => s[i].socket)
  }

  function SessionSockets(s: seq<Session>): seq<Socket> {
    seq(|s|, i requires 0 <= i < |s| => s[i].socket)
  }

  /** The sockets among a surface's resources, in order. */
  function HandlesOf(rs: seq<SurfaceResource>): seq<Socket> {
    if rs == [] then []
    else (if rs[0].value.Handle? then [rs[0].value.socket] else []) + HandlesOf(rs[1..])
  }

  function SurfaceHandles(surfaces: seq<Surface>): seq<Socket> {
    if surfaces == [] then [] else HandlesOf(surfaces[0].resources) + SurfaceHandles(surfaces[1..])
  }

  /** The sockets still in their slots. */
  function Held(slots: Slots): multiset<Socket> {
    if slots == [] then multiset{}
    else (if slots[0].Some? then multiset{slots[0].value} else multiset{}) + Held(slots[1..])
  }

  lemma {:induction false} TakingRemovesOne(slots: Slots, index: nat)
    requires Available(slots, index)
    ensures Held(slots) == Held(slots[index := None]) + multiset{slots[index].value}
  {
    if index > 0 {
      TakingRemovesOne(slots[1..], index - 1);
      assert slots[index := None][1..] == slots[1..][index - 1 := None];
    } else {
      assert slots[0 := None][1..] == slots[1..];
    }
  }

  lemma {:induction false} OfferedHoldsAll(sockets: seq<Socket>)
    ensures Held(Offered(sockets)) == multiset(sockets)
  {
    if sockets != [] {
      OfferedHoldsAll(sockets[1..]);
      assert Offered(sockets)[1..] == Offered(sockets[1..]);
      assert sockets == [sockets[0]] + sockets[1..];
    }
  }

  lemma {:induction false} NothingHeld(slots: Slots)
    requires AllTaken(slots)
    ensures Held(slots) == multiset{}
  {
    if slots != [] {
      NothingHeld(slots[1..]);
    }
  }

  /** Sockets claimed so far together with those still waiting. */
  ghost function Known(c: Claims): multiset<Socket> {
    multiset(ListenerSockets(c.listeners)) + multiset(SessionSockets(c.sessions)) + Held(c.slots)
  }

  lemma ClaimListenerConserves(c: Claims, d: Descriptor, transport: Transport)
    requires ClaimListener(c, d, transport).Ok?
    ensures Known(ClaimListener(c, d, transport).value) == Known(c)
  {
    TakingRemovesOne(c.slots, d.nativeHandle.value);
    var after := ClaimListener(c, d, transport).value.listeners;
    assert ListenerSockets(after) == ListenerSockets(c.listeners) + [after[|after| - 1].socket];
  }

  lemma ClaimSessionConserves(c: Claims, d: Descriptor)
    requires ClaimSession(c, d).Ok?
    ensures Known(ClaimSession(c, d).value) == Known(c)
  {
    TakingRemovesOne(c.slots, d.nativeHandle.value);
    var after := ClaimSession(c, d).value.sessions;
    assert SessionSockets(after) == SessionSockets(c.sessions) + [after[|after| - 1].socket];
  }

  lemma ClaimOneConserves(c: Claims, d: Descriptor, read: MetadataReader)
    requires ClaimOne(c, d, read).Ok?
    ensures Known(ClaimOne(c, d, read).value) == Known(c)
  {
    match KindOf(d.kind)
    case Some(TcpListener) => ClaimListenerConserves(c, d, Tcp);
    case Some(UdpListener) => ClaimListenerConserves(c, d, Udp);
    case Some(TcpStream) => ClaimSessionConserves(c, d);
    case _ =>
  }

  lemma {:induction false} ClaimAllConserves(c: Claims, rs: seq<Descriptor>, read: MetadataReader)
    requires ClaimAll(c, rs, read).Ok?
    ensures Known(ClaimAll(c, rs, read).value) == Known(c)
    decreases |rs|
  {
    if rs != [] {
      ClaimOneConserves(c, rs[0], read);
      ClaimAllConserves(ClaimOne(c, rs[0], read).value, rs[1..], read);
    }
  }

  lemma {:induction false} ResumeResourcesConserves(k: Stock, rs: seq<TransferResource>)
    requires ResumeResources(k, rs).Ok?
    ensures
      var r := ResumeResources(k, rs).value;
      multiset(HandlesOf(r.value)) + Held(r.stock.slots) == Held(k.slots)
    decreases |rs|
  {
    if rs != [] {
      var first := ResumeValue(k, rs[0].value).value;
      ResumeResourcesConserves(first.stock, rs[1..]);
      if rs[0].value.HandleIndex? {
        TakingRemovesOne(k.slots, rs[0].value.index);
      }
      var r := ResumeResources(k, rs).value;
      assert r.value[1..] == ResumeResources(first.stock, rs[1..]).value.value;
    }
  }

  lemma {:induction false} ResumeSurfacesConserves(k: Stock, ts: seq<TransferSurface>)
    requires ResumeSurfaces(k, ts).Ok?
    ensures
      var r := ResumeSurfaces(k, ts).value;
      multiset(SurfaceHandles(r.value)) + Held(r.stock.slots) == Held(k.slots)
    decreases |ts|
  {
    if ts != [] {
      var first := ResumeResources(k, ts[0].resources).value;
      ResumeResourcesConserves(k, ts[0].resources);
      ResumeSurfacesConserves(first.stock, ts[1..]);
      var r := ResumeSurfaces(k, ts).value;
      assert r.value[1..] == ResumeSurfaces(first.stock, ts[1..]).value.value;
    }
  }

  /**
   * For any bootstrap at all, a successful decode has handed out exactly the sockets received:
   * none twice, none left over.
   */
  lemma DecodeConservesSockets(rs: seq<Descriptor>, read: MetadataReader, sockets: seq<Socket>)
    requires DecodeNative(rs, read, sockets).Ok?
    ensures
      var d := DecodeNative(rs, read, sockets).value;
      multiset(ListenerSockets(d.listeners)) + multiset(SessionSockets(d.sessions)) +
          multiset(SurfaceHandles(d.surfaces))
      == multiset(sockets)
  {
    var c0 := Claims(Offered(sockets), [], [], {}, None);
    var c := ClaimAll(c0, rs, read).value;
    var k := Stock(c.slots, c.adminIndexes);
    ClaimAllConserves(c0, rs, read);
    OfferedHoldsAll(sockets);
    assert Known(c) == multiset(sockets);
    ResumeSurfacesConserves(k, c.metadata.value);
    NothingHeld(ResumeSurfaces(k, c.metadata.value).value.stock.slots);
  }

  // ---- The child's decoder ----

  /** Walks the descriptors, taking each listed socket out of its slot. */
  method ClaimResources(rs: seq<Descriptor>, read: MetadataReader, sockets: seq<Socket>) returns (r: Result<Claims,
      DecodeError>)
    ensures r == ClaimAll(Claims(Offered(sockets), [], [], {}, None), rs, read)
  {
    var slots := Offered(sockets);
    var listeners: seq<Listener>, sessions: seq<Session> := [], [];
    var adminIndexes: set<u32>, metadata: Option<seq<TransferSurface>> := {}, None;
    for i := 0 to |rs|
      invariant ClaimAll(Claims(Offered(sockets), [], [], {}, None), rs, read)
                == ClaimAll(Claims(slots, listeners, sessions, adminIndexes, metadata), rs[i..], read)
    {
      var d := rs[i];
      assert rs[i..][0] == d && rs[i..][1..] == rs[i + 1..];
      var kind := KindOf(d.kind);
      if kind.None? {
        return Err(InvalidKind);
      }
      match kind.value {
        case TcpListener | UdpListener =>
          var taken :- TakeSocket(slots, d);
          slots := taken.slots;
          listeners := listeners + [Listener(if kind.value.TcpListener? then Tcp else Udp, taken.socket)];
        case TcpStream =>
          var taken :- TakeSocket(slots, d);
          slots := taken.slots;
          if d.logicalId.None? {
            return Err(MissingConnection);
          }
          sessions := sessions + [Session(d.logicalId.value, taken.socket)];
        case AdminResource =>
          if d.arenaLength > 0 {
            if metadata.Some? {
              return Err(MultipleMetadata);
            }
            metadata := read(d.arenaOffset, d.arenaLength);
            if metadata.None? {
              return Err(UnreadableMetadata);
            }
          } else {
            if d.nativeHandle.None? {
              return Err(MissingAdminHandle);
            }
            adminIndexes := adminIndexes + {d.nativeHandle.value};
          }
        case _ =>
      }
    }
    r := Ok(Claims(slots, listeners, sessions, adminIndexes, metadata));
  }

  method ResumeOne(k: Stock, rs: seq<TransferResource>) returns (r: Result<Resumed<seq<SurfaceResource>>, DecodeError>)
    ensures r == ResumeResources(k, rs)
  {
    var stock, out := k, [];
    assert rs[0..] == rs;
    PrependNothing(ResumeResources(k, rs));
    for i := 0 to |rs|
      invariant ResumeResources(k, rs) == Prepended(out, ResumeResources(stock, rs[i..]))
    {
      PrependStep(stock, rs, i, out);
      var value :- ResumeValue(stock, rs[i].value);
      out := out + [SurfaceResource(rs[i].name, value.value)];
      stock := value.stock;
    }
    assert out + [] == out;
    r := Ok(Resumed(stock, out));
  }

  ghost function Prepended<T>(out: seq<T>, r: Result<Resumed<seq<T>>, DecodeError>): Result<Resumed<seq<T>>,
      DecodeError> {
    if r.Err? then r else Ok(Resumed(r.value.stock, out + r.value.value))
  }

  lemma PrependNothing<T>(r: Result<Resumed<seq<T>>, DecodeError>)
    ensures Prepended([], r) == r
  {
    if r.Ok? {
      assert [] + r.value.value == r.value.value;
    }
  }

  lemma PrependStep(k: Stock, rs: seq<TransferResource>, i: nat, out: seq<SurfaceResource>)
    requires i < |rs|
    ensures ResumeValue(k, rs[i].value).Err? ==>
            Prepended(out, ResumeResources(k, rs[i..])) == Err(ResumeValue(k, rs[i].value).error)
    ensures
      ResumeValue(k, rs[i].value).Ok? ==>
        var v := ResumeValue(k, rs[i].value).value;
        Prepended(out, ResumeResources(k, rs[i..]))
        == Prepended(out + [SurfaceResource(rs[i].name, v.value)], ResumeResources(v.stock, rs[i + 1..]))
  {
    assert rs[i..][0] == rs[i] && rs[i..][1..] == rs[i + 1..];
    if ResumeValue(k, rs[i].value).Ok? {
      var v := ResumeValue(k, rs[i].value).value;
      var rest := ResumeResources(v.stock, rs[i + 1..]);
      if rest.Ok? {
        var x := SurfaceResource(rs[i].name, v.value);
        assert out + ([x] + rest.value.value) == out + [x] + rest.value.value;
      }
    }
  }

  lemma PrependSurface(k: Stock, ts: seq<TransferSurface>, i: nat, out: seq<Surface>)
    requires i < |ts|
    ensures ResumeResources(k, ts[i].resources).Err? ==>
              Prepended(out, ResumeSurfaces(k, ts[i..])) == Err(ResumeResources(k, ts[i].resources).error)
    ensures
      ResumeResources(k, ts[i].resources).Ok? ==>
        var v := ResumeResources(k, ts[i].resources).value;
        Prepended(out, ResumeSurfaces(k, ts[i..]))
        == Prepended(out + [Surface(ts[i].instanceId, ts[i].resumePayload, v.value)],
            ResumeSurfaces(v.stock, ts[i + 1..]))
  {
    assert ts[i..][0] == ts[i] && ts[i..][1..] == ts[i + 1..];
    if ResumeResources(k, ts[i].resources).Ok? {
      var v := ResumeResources(k, ts[i].resources).value;
      var rest := ResumeSurfaces(v.stock, ts[i + 1..]);
      if rest.Ok? {
        var x := Surface(ts[i].instanceId, ts[i].resumePayload, v.value);
        assert out + ([x] + rest.value.value) == out + [x] + rest.value.value;
      }
    }
  }

  method ResumeAll(k: Stock, ts: seq<TransferSurface>) returns (r: Result<Resumed<seq<Surface>>, DecodeError>)
    ensures r == ResumeSurfaces(k, ts)
  {
    var stock, out := k, [];
    assert ts[0..] == ts;
    PrependNothing(ResumeSurfaces(k, ts));
    for i := 0 to |ts|
      invariant ResumeSurfaces(k, ts) == Prepended(out, ResumeSurfaces(stock, ts[i..]))
    {
      PrependSurface(stock, ts, i, out);
      var resources := ResumeOne(stock, ts[i].resources);
      if resources.Err? {
        return Err(resources.error);
      }
      out := out + [Surface(ts[i].instanceId, ts[i].resumePayload, resources.value.value)];
      stock := resources.value.stock;
    }
    assert out + [] == out;
    r := Ok(Resumed(stock, out));
  }

  /** Decodes a bootstrap: every socket is claimed, or the whole bootstrap is refused. */
  method DecodeNativeResources(rs: seq<Descriptor>, read: MetadataReader, sockets: seq<Socket>)
    returns (r: Result<Decoded, DecodeError>)
    ensures r == DecodeNative(rs, read, sockets)
    ensures r.Ok? ==>
              multiset(ListenerSockets(r.value.listeners)) + multiset(SessionSockets(r.value.sessions))
              + multiset(SurfaceHandles(r.value.surfaces)) == multiset(sockets)
  {
    var claimed := ClaimResources(rs, read, sockets);
    if claimed.Err? {
      return Err(claimed.error);
    }
    var c := claimed.value;
    if c.metadata.None? {
      return Err(MissingMetadata);
    }
    var resumed := ResumeAll(Stock(c.slots, c.adminIndexes), c.metadata.value);
    if resumed.Err? {
      return Err(resumed.error);
    }
    if resumed.value.stock.adminIndexes != {} || !AllTaken(resumed.value.stock.slots) {
      return Err(UnclaimedSockets);
    }
    DecodeConservesSockets(rs, read, sockets);
    r := Ok(Decoded(c.listeners, c.sessions, resumed.value.value));
  }
}
