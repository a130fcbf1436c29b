/**
 * The length-prefixed packet stream: variable-length integers of seven bits per byte, low group
 * first, and frames cut out of a buffer that grows by arbitrary chunks.
 */
module Framing {
  import opened Wrappers
  import opened Bytes

  // ---- Variable-length integers ----

  function VarintBytes(v: u32): (r: bytes)
    decreases v as int
  {
    if v < 0x80 then [v] else [v % 0x80 + 0x80] + VarintBytes(v / 0x80)
  }

  /** The weight of the n-th group. */
  function Weight(n: nat): nat
    requires n < 5
  {
    match n
    case 0 => 1
    case 1 => 0x80
    case 2 => 0x4000
    case 3 => 0x20_0000
    case _ => 0x1000_0000
  }

  /**
   * Adds one group. The groups occupy separate bits, so the bitwise or is a sum; the fifth group
   * keeps only the bits that fit into 32.
   */
  function AddGroup(sum: u32, b: byte, n: nat): u32
    requires n < 5
  {
    (sum + b % 0x80 * Weight(n)) % 0x1_0000_0000
  }

  datatype VarintError = UnexpectedEof | InvalidVarInt

  datatype Varint = Varint(value: i32, size: nat)

  /** Reads groups until one without the continuation bit; a sixth byte is invalid. */
  function VarintFrom(s: bytes, n: nat, sum: u32): (r: Result<Varint, VarintError>)
    requires n <= 5
    ensures r.Ok? ==> n < r.value.size <= Min(5, n + |s|)
    decreases |s|
  {
    if s == [] then Err(UnexpectedEof)
    else if n == 5 then Err(InvalidVarInt)
    else
      var sum' := AddGroup(sum, s[0], n);
      if s[0] < 0x80 then Ok(Varint(ToI32(sum'), n + 1)) else VarintFrom(s[1..], n + 1, sum')
  }

  function ReadVarint(s: bytes): Result<Varint, VarintError> { VarintFrom(s, 0, 0) }

  /** Peeking reports neither an incomplete nor an overlong integer. */
  function PeekVarint(s: bytes): (r: Option<Varint>)
    ensures r.Some? ==> 0 < r.value.size <= Min(5, |s|)
  {
    var r := ReadVarint(s);
    if r.Ok? then Some(r.value) else None
  }

  /** Taking the lowest seven bits off a value splits its weight. */
  lemma GroupStep(v: u32, n: nat, sum: u32)
    requires n < 5 && sum + v * Weight(n) < 0x1_0000_0000 && 0x80 <= v
    ensures n < 4 && Weight(n + 1) == 0x80 * Weight(n)
    ensures sum + v % 0x80 * Weight(n) + v / 0x80 * Weight(n + 1) == sum + v * Weight(n)
  {
    var group, above := v % 0x80, v / 0x80;
    assert v == group + 0x80 * above;
    assert v * Weight(n) == group * Weight(n) + above * (0x80 * Weight(n));
  }

  lemma FirstGroup(s: bytes, rest: bytes, n: nat, sum: u32)
    requires s != [] && n < 5 && s[1..] == rest && sum + s[0] as int % 0x80 * Weight(n) < 0x1_0000_0000
    ensures
      var sum' := sum + s[0] as int % 0x80 * Weight(n);
      VarintFrom(s, n, sum) == if s[0] < 0x80 then Ok(Varint(ToI32(sum'), n + 1)) else VarintFrom(rest, n + 1, sum')
  {
  }

  lemma {:induction false} GroupsReadBack(v: u32, rest: bytes, n: nat, sum: u32)
    requires n < 5 && sum + v * Weight(n) < 0x1_0000_0000
    ensures VarintFrom(VarintBytes(v) + rest, n, sum) == Ok(Varint(ToI32(sum + v * Weight(n)), n + |VarintBytes(v)|))
    decreases v as int
  {
    var s := VarintBytes(v) + rest;
    if v >= 0x80 {
      GroupStep(v, n, sum);
      assert s[1..] == VarintBytes(v / 0x80) + rest && s[0] as int % 0x80 == v % 0x80;
      FirstGroup(s, VarintBytes(v / 0x80) + rest, n, sum);
      GroupsReadBack(v / 0x80, rest, n + 1, sum + v % 0x80 * Weight(n));
    } else {
      FirstGroup(s, rest, n, sum);
    }
  }

  /** Reading and peeking both invert writing, for every 32-bit integer, in at most five bytes. */
  lemma VarintReadsBack(v: i32, rest: bytes)
    ensures 1 <= |VarintBytes(FromI32(v))| <= 5
    ensures ReadVarint(VarintBytes(FromI32(v)) + rest) == Ok(Varint(v, |VarintBytes(FromI32(v))|))
    ensures PeekVarint(VarintBytes(FromI32(v)) + rest) == Some(Varint(v, |VarintBytes(FromI32(v))|))
  {
    GroupsReadBack(FromI32(v), rest, 0, 0);
  }

  /** What has been read is not affected by what arrives later. */
  lemma {:induction false} VarintIsSelfDelimiting(s: bytes, more: bytes, n: nat, sum: u32)
    requires n <= 5 && VarintFrom(s, n, sum) != Err(UnexpectedEof)
    ensures VarintFrom(s + more, n, sum) == VarintFrom(s, n, sum)
    decreases |s|
  {
    assert (s + more)[0] == s[0] && (s + more)[1..] == s[1..] + more;
    if n < 5 && s[0] >= 0x80 {
      VarintIsSelfDelimiting(s[1..], more, n + 1, AddGroup(sum, s[0], n));
    }
  }

  // ---- Frames ----

  datatype Cut = Incomplete | NegativeLength | Frame(payload: bytes, rest: bytes)

  function FrameBytes(payload: bytes): bytes
    requires |payload| <= I32_MAX
  {
    VarintBytes(|payload|) + payload
  }

  /** One attempt at cutting a frame off the front. */
  function CutFrame(buffer: bytes): (r: Cut)
    ensures r.Frame? ==> |r.rest| < |buffer|
  {
    var header := PeekVarint(buffer);
    if header.None? then Incomplete
    else if header.value.value < 0 then NegativeLength
    else
      var start, end := header.value.size, header.value.size + header.value.value;
      if |buffer| < end then Incomplete else Frame(buffer[start..end], buffer[end..])
  }

  lemma FrameCutsBack(payload: bytes, rest: bytes)
    requires |payload| <= I32_MAX
    ensures CutFrame(FrameBytes(payload) + rest) == Frame(payload, rest)
  {
    var header := VarintBytes(|payload|);
    var buffer := FrameBytes(payload) + rest;
    Assoc(header, payload, rest);
    VarintReadsBack(|payload|, payload + rest);
    assert buffer[|header|..|header| + |payload|] == payload;
    assert buffer[|header| + |payload|..] == rest;
  }

  lemma CutIsStable(buffer: bytes, more: bytes)
    requires !CutFrame(buffer).Incomplete?
    ensures CutFrame(buffer + more) ==
            if CutFrame(buffer).Frame? then Frame(CutFrame(buffer).payload,
                CutFrame(buffer).rest + more) else NegativeLength
  {
    VarintIsSelfDelimiting(buffer, more, 0, 0);
    if CutFrame(buffer).Frame? {
      var header := PeekVarint(buffer).value;
      var start, end := header.size, header.size + header.value;
      assert (buffer + more)[start..end] == buffer[start..end];
      assert (buffer + more)[end..] == buffer[end..] + more;
    }
  }

  // ---- The stream ----

  /** Frames delivered so far and what waits in the buffer; a bad length ends the stream. */
  datatype Stream = Open(frames: seq<bytes>, buffer: bytes) | Broken(frames: seq<bytes>)

  /** Cuts frames until none is complete. */
  function Drain(buffer: bytes): (r: Stream)
    decreases |buffer|
  {
    match CutFrame(buffer)
    case Incomplete => Open([], buffer)
    case NegativeLength => Broken([])
    case Frame(payload, rest) => Delivered([payload], Drain(rest))
  }

  function Delivered(before: seq<bytes>, s: Stream): Stream {
    match s
    case Open(frames, buffer) => Open(before + frames, buffer)
    case Broken(frames) => Broken(before + frames)
  }

  /** A chunk arrives: it joins the buffer, and complete frames are taken out. */
  function Feed(s: Stream, chunk: bytes): Stream {
    if s.Broken? then s else Delivered(s.frames, Drain(s.buffer + chunk))
  }

  function FeedAll(s: Stream, chunks: seq<bytes>): Stream
    decreases |chunks|
  {
    if chunks == [] then s else FeedAll(Feed(s, chunks[0]), chunks[1..])
  }

  function Concat(parts: seq<bytes>): bytes {
    if parts == [] then [] else parts[0] + Concat(parts[1..])
  }

  lemma DeliveredTwice(a: seq<bytes>, b: seq<bytes>, s: Stream)
    ensures Delivered(a, Delivered(b, s)) == Delivered(a + b, s)
  {
    Assoc(a, b, s.frames);
  }

  lemma DeliveredNothing(s: Stream)
    ensures Delivered([], s) == s
  {
    assert [] + s.frames == s.frames;
  }

  /** Draining early and then again is draining once. */
  lemma {:induction false} DrainInTwo(buffer: bytes, more: bytes)
    ensures Drain(buffer + more) == Feed(Drain(buffer), more)
    decreases |buffer|
  {
    match CutFrame(buffer)
    case Incomplete => DeliveredNothing(Drain(buffer + more));
    case NegativeLength => CutIsStable(buffer, more);
    case Frame(payload, rest) =>
      CutIsStable(buffer, more);
      DrainInTwo(rest, more);
      var tail := Drain(rest);
      if tail.Open? {
        DeliveredTwice([payload], tail.frames, Drain(tail.buffer + more));
      }
  }

  lemma {:induction false} FeedAllIsDrain(buffer: bytes, chunks: seq<bytes>)
    ensures FeedAll(Drain(buffer), chunks) == Drain(buffer + Concat(chunks))
    decreases |chunks|
  {
    if chunks == [] {
      assert buffer + Concat(chunks) == buffer;
    } else {
      DrainInTwo(buffer, chunks[0]);
      FeedAllIsDrain(buffer + chunks[0], chunks[1..]);
      Assoc(buffer, chunks[0], Concat(chunks[1..]));
    }
  }

  /** For any bytes at all, how a stream is cut into chunks does not matter. */
  lemma ChunkingDoesNotMatter(chunks: seq<bytes>, chunks': seq<bytes>)
    requires Concat(chunks) == Concat(chunks')
    ensures FeedAll(Open([], []), chunks) == FeedAll(Open([], []), chunks')
  {
    assert Drain([]) == Open([], []);
    FeedAllIsDrain([], chunks);
    FeedAllIsDrain([], chunks');
  }

  function StreamBytes(payloads: seq<bytes>): bytes
    requires forall i :: 0 <= i < |payloads| ==> |payloads[i]| <= I32_MAX
  {
    if payloads == [] then [] else FrameBytes(payloads[0]) + StreamBytes(payloads[1..])
  }

  lemma {:induction false} FramesDrain(payloads: seq<bytes>, tail: bytes)
    requires forall i :: 0 <= i < |payloads| ==> |payloads[i]| <= I32_MAX
    ensures Drain(StreamBytes(payloads) + tail) == Delivered(payloads, Drain(tail))
    decreases |payloads|
  {
    if payloads == [] {
      assert StreamBytes(payloads) + tail == tail;
      DeliveredNothing(Drain(tail));
    } else {
      var rest := StreamBytes(payloads[1..]);
      Assoc(FrameBytes(payloads[0]), rest, tail);
      FrameCutsBack(payloads[0], rest + tail);
      assert Drain(StreamBytes(payloads) + tail) == Delivered([payloads[0]], Drain(rest + tail));
      FramesDrain(payloads[1..], tail);
      DeliveredTwice([payloads[0]], payloads[1..], Drain(tail));
      assert [payloads[0]] + payloads[1..] == payloads;
    }
  }

  /** Any chunking of the frames of any payloads delivers exactly those payloads, in order. */
  lemma FramesSurviveChunking(payloads: seq<bytes>, chunks: seq<bytes>)
    requires forall i :: 0 <= i < |payloads| ==> |payloads[i]| <= I32_MAX
    requires Concat(chunks) == StreamBytes(payloads)
    ensures FeedAll(Open([], []), chunks) == Open(payloads, [])
  {
    assert Drain([]) == Open([], []);
    FeedAllIsDrain([], chunks);
    FramesDrain(payloads, []);
    assert [] + Concat(chunks) == StreamBytes(payloads) + [];
    assert payloads + [] == payloads;
  }

  /** At every moment before the end, what was delivered is a prefix of what was sent. */
  lemma EarlyChunksDeliverAPrefix(payloads: seq<bytes>, early: seq<bytes>, unread: bytes)
    requires forall i :: 0 <= i < |payloads| ==> |payloads[i]| <= I32_MAX
    requires Concat(early) + unread == StreamBytes(payloads)
    ensures FeedAll(Open([], []), early).Open? && FeedAll(Open([], []), early).frames <= payloads
  {
    assert Drain([]) == Open([], []);
    FeedAllIsDrain([], early);
    assert [] + Concat(early) == Concat(early);
    DrainInTwo(Concat(early), unread);
    FramesDrain(payloads, []);
    assert StreamBytes(payloads) + [] == StreamBytes(payloads);
    assert payloads + [] == payloads;
  }

  // ---- As the code runs ----

  class PacketWriter {
    var buffer: bytes

    constructor ()
      ensures buffer == []
    {
      buffer := [];
    }

    method WriteVarint(value: i32)
      modifies this
      ensures buffer == old(buffer) + VarintBytes(FromI32(value))
    {
      var v := FromI32(value);
      while v >= 0x80
        invariant buffer + VarintBytes(v) == old(buffer) + VarintBytes(FromI32(value))
        decreases v as int
      {
        Assoc(buffer, [v % 0x80 + 0x80], VarintBytes(v / 0x80));
        buffer := buffer + [v % 0x80 + 0x80];
        v := v / 0x80;
      }
      buffer := buffer + [v];
    }
  }

  /** A frame, unless the payload is too long for its length field. */
  method EncodeFrame(payload: bytes) returns (r: Option<bytes>)
    ensures r == if |payload| <= I32_MAX then Some(FrameBytes(payload)) else None
  {
    if |payload| > I32_MAX {
      return None;
    }
    var writer := new PacketWriter();
    writer.WriteVarint(|payload|);
    assert [] + VarintBytes(|payload|) == VarintBytes(|payload|);
    r := Some(writer.buffer + payload);
  }

  class PacketReader {
    const payload: bytes
    var cursor: nat

    constructor (payload: bytes)
      ensures this.payload == payload && cursor == 0
    {
      this.payload := payload;
      cursor := 0;
    }

    ghost predicate Valid()
      reads this
    {
      cursor <= |payload|
    }

    method ReadU8() returns (r: Result<byte, VarintError>)
      requires Valid()
      modifies this
      ensures Valid()
      ensures r == if old(cursor) < |payload| then Ok(payload[old(cursor)]) else Err(UnexpectedEof)
      ensures cursor == old(cursor) + if r.Ok? then 1 else 0
    {
      if cursor >= |payload| {
        return Err(UnexpectedEof);
      }
      r := Ok(payload[cursor]);
      cursor := cursor + 1;
    }

    /** Reads one integer at the cursor and moves past it. */
    method ReadVarint() returns (r: Result<i32, VarintError>)
      requires Valid()
      modifies this
      ensures Valid()
      ensures
        match VarintFrom(payload[old(cursor)..], 0, 0)
        case Ok(v) => r == Ok(v.value) && cursor == old(cursor) + v.size
        case Err(e) => r == Err(e)
    {
      var numRead: nat, sum: u32 := 0, 0;
      while true
        invariant Valid() && numRead <= 5 && cursor == old(cursor) + numRead
        invariant VarintFrom(payload[cursor..], numRead, sum) == VarintFrom(payload[old(cursor)..], 0, 0)
        decreases |payload| - cursor
      {
        ghost var left := payload[cursor..];
        var b :- ReadU8();
        assert b == left[0] && payload[cursor..] == left[1..];
        if numRead == 5 {
          return Err(InvalidVarInt);
        }
        sum := AddGroup(sum, b, numRead);
        numRead := numRead + 1;
        if b < 0x80 {
          return Ok(ToI32(sum));
        }
      }
    }
  }

  method Peek(buffer: bytes) returns (r: Option<Varint>)
    ensures r == PeekVarint(buffer)
  {
    var sum: u32 := 0;
    for i := 0 to |buffer|
      invariant i <= 5 && VarintFrom(buffer[i..], i, sum) == ReadVarint(buffer)
    {
      assert buffer[i..][0] == buffer[i] && buffer[i..][1..] == buffer[i + 1..];
      if i == 5 {
        return None;
      }
      sum := AddGroup(sum, buffer[i], i);
      if buffer[i] < 0x80 {
        return Some(Varint(ToI32(sum), i + 1));
      }
    }
    r := None;
  }

  /** The receive side of a connection. */
  class FrameDecoder {
    var buffer: bytes

    constructor ()
      ensures buffer == []
    {
      buffer := [];
    }

    /** Splits one frame off the buffer, or leaves the buffer alone. */
    method TryDecodeFrame() returns (r: Result<Option<bytes>, string>)
      modifies this
      ensures
        match CutFrame(old(buffer))
        case Incomplete => r == Ok(None) && buffer == old(buffer)
        case NegativeLength => r.Err? && buffer == old(buffer)
        case Frame(payload, rest) => r == Ok(Some(payload)) && buffer == rest
    {
      var header := Peek(buffer);
      if header.None? {
        return Ok(None);
      }
      if header.value.value < 0 {
        return Err("negative frame length");
      }
      var start, end := header.value.size, header.value.size + header.value.value;
      if |buffer| < end {
        return Ok(None);
      }
      r := Ok(Some(buffer[start..end]));
      buffer := buffer[end..];
    }

    /** A chunk arrives and every complete frame is taken out. */
    method Receive(chunk: bytes) returns (frames: seq<bytes>, broken: bool)
      modifies this
      ensures Drain(old(buffer) + chunk) == if broken then Broken(frames) else Open(frames, buffer)
    {
      buffer := buffer + chunk;
      frames := [];
      DeliveredNothing(Drain(buffer));
      while true
        invariant Delivered(frames, Drain(buffer)) == Drain(old(buffer) + chunk)
        decreases |buffer|
      {
        ghost var before := buffer;
        var next := TryDecodeFrame();
        if next.Err? {
          assert frames + [] == frames;
          return frames, true;
        }
        if next.value.None? {
          assert frames + [] == frames;
          return frames, false;
        }
        DeliveredTwice(frames, [next.value.value], Drain(buffer));
        frames := frames + [next.value.value];
      }
    }
  }
}
