/** The RakNet datagram, acknowledgement and connected-message byte formats. */
module Wire {
  import opened Wrappers
  import opened Bytes
  import opened Sequence
  import opened Budget

  datatype Reliability =
    | Unreliable
    | UnreliableSequenced
    | Reliable
    | ReliableOrdered
    | ReliableSequenced
    | UnreliableWithReceipt
    | ReliableWithReceipt
    | ReliableOrderedWithReceipt
  {
    function Tag(): (t: byte)
      ensures t < 8
    {
      match this
      case Unreliable => 0
      case UnreliableSequenced => 1
      case Reliable => 2
      case ReliableOrdered => 3
      case ReliableSequenced => 4
      case UnreliableWithReceipt => 5
      case ReliableWithReceipt => 6
      case ReliableOrderedWithReceipt => 7
    }

    predicate IsReliable() {
      Reliable? || ReliableOrdered? || ReliableSequenced? || ReliableWithReceipt? || ReliableOrderedWithReceipt?
    }

    predicate IsSequenced() { UnreliableSequenced? || ReliableSequenced? }

    predicate IsOrdered() {
      UnreliableSequenced? || ReliableOrdered? || ReliableSequenced? || ReliableOrderedWithReceipt?
    }

    /** A three-bit tag always names a reliability, so the decoder's error arm is unreachable. */
    static function FromTag(tag: byte): (r: Reliability)
      requires tag < 8
      ensures r.Tag() == tag
    {
      if tag == 0 then Unreliable
      else if tag == 1 then UnreliableSequenced
      else if tag == 2 then Reliable
      else if tag == 3 then ReliableOrdered
      else if tag == 4 then ReliableSequenced
      else if tag == 5 then UnreliableWithReceipt
      else if tag == 6 then ReliableWithReceipt
      else ReliableOrderedWithReceipt
    }
  }

  datatype SplitHeader = SplitHeader(count: u32, id: u16, index: u32)

  datatype Frame = Frame(
    reliability: Reliability,
    reliableIndex: Option<u24>,
    sequenceIndex: Option<u24>,
    orderIndex: Option<u24>,
    orderChannel: byte,
    split: Option<SplitHeader>,
    payload: bytes)

  datatype Datagram = Datagram(sequence: u24, frames: seq<Frame>)

  datatype Acknowledgement = Ack(ranges: seq<(u24, u24)>) | Nack(ranges: seq<(u24, u24)>)

  /** The optional indexes are exactly the ones the reliability calls for. */
  ghost predicate IndexesMatch(f: Frame) {
    && f.reliableIndex.Some? == f.reliability.IsReliable()
    && f.sequenceIndex.Some? == f.reliability.IsSequenced()
    && f.orderIndex.Some? == f.reliability.IsOrdered()
    && (!f.reliability.IsOrdered() ==> f.orderChannel == 0)
  }

  /** The longest payload whose bit length still names its byte length. */
  const MAX_FRAME_PAYLOAD := 8192

  /** Beyond that, up to here, a datagram cannot be misread: what is left over is too short for a frame. */
  const LONGEST_SAFE_FRAGMENT := MAX_FRAME_PAYLOAD + 2

  // ---- Encoding ----

  function BitLength(payload: bytes): u16 { Min(8 * |payload|, 0xFFFF) }

  function EncodeIndex(index: Option<u24>): bytes {
    if index.Some? then LE24(index.value) else []
  }

  function EncodeOrder(f: Frame): bytes {
    if f.orderIndex.Some? then LE24(f.orderIndex.value) + [f.orderChannel] else []
  }

  function EncodeSplit(split: Option<SplitHeader>): bytes {
    if split.Some? then BE32(split.value.count) + BE16(split.value.id) + BE32(split.value.index) else []
  }

  function FrameFlags(f: Frame): byte {
    f.reliability.Tag() * 32 + if f.split.Some? then 16 else 0
  }

  /** The optional header fields, followed by what comes after them. */
  function EncodeFields(f: Frame, rest: bytes): bytes {
    EncodeIndex(f.reliableIndex) + (EncodeIndex(f.sequenceIndex) + (EncodeOrder(f) + (EncodeSplit(f.split) + rest)))
  }

  function EncodeFrame(f: Frame): bytes {
    [FrameFlags(f)] + (BE16(BitLength(f.payload)) + EncodeFields(f, f.payload))
  }

  function EncodeDatagram(sequence: u24, f: Frame): bytes {
    [0x84] + (LE24(sequence) + EncodeFrame(f))
  }

  function EncodeAckRange(id: byte, start: u24, end: u24): bytes {
    [id] + (BE16(1) + ([if start == end then 1 else 0] + (LE24(start) + if start != end then LE24(end) else [])))
  }

  function EncodeAck(sequence: u24): bytes { EncodeAckRange(0xC0, sequence, sequence) }

  function EncodeNack(start: u24, end: u24): bytes { EncodeAckRange(0xA0, start, end) }

  // ---- Decoding, as parsers over the unread suffix ----

  datatype Parsed<+T> = Malformed(error: RakNetError) | Parsed(value: T, rest: bytes) {
    predicate IsFailure() { Malformed? }

    function PropagateFailure<U>(): Parsed<U>
      requires Malformed?
    {
      Malformed(error)
    }

    function Extract(): (T, bytes)
      requires Parsed?
    {
      (value, rest)
    }
  }

  function Take(n: nat, s: bytes): (r: Parsed<bytes>)
    ensures r.Parsed? ==> |r.value| == n && |r.rest| == |s| - n && s == r.value + r.rest
  {
    if n <= |s| then Parsed(s[..n], s[n..]) else Malformed(Wire)
  }

  function TakeU8(s: bytes): (r: Parsed<byte>)
    ensures r.Parsed? ==> |r.rest| == |s| - 1
  {
    var (b, rest) :- Take(1, s);
    Parsed(b[0], rest)
  }

  function TakeBE16(s: bytes): (r: Parsed<u16>)
    ensures r.Parsed? ==> |r.rest| == |s| - 2
  {
    var (b, rest) :- Take(2, s);
    Parsed(FromBE16(b), rest)
  }

  function TakeLE24(s: bytes): (r: Parsed<u24>)
    ensures r.Parsed? ==> |r.rest| == |s| - 3
  {
    var (b, rest) :- Take(3, s);
    Parsed(FromLE24(b), rest)
  }

  function TakeBE32(s: bytes): (r: Parsed<u32>)
    ensures r.Parsed? ==> |r.rest| == |s| - 4
  {
    var (b, rest) :- Take(4, s);
    Parsed(FromBE32(b), rest)
  }

  function TakeIndex(present: bool, s: bytes): (r: Parsed<Option<u24>>)
    ensures r.Parsed? ==> |r.rest| <= |s|
  {
    if present then
      var (index, rest) :- TakeLE24(s);
      Parsed(Some(index), rest)
    else
      Parsed(None, s)
  }

  function TakeOrder(present: bool, s: bytes): (r: Parsed<(Option<u24>, byte)>)
    ensures r.Parsed? ==> |r.rest| <= |s|
  {
    if present then
      var (index, s1) :- TakeLE24(s);
      var (channel, s2) :- TakeU8(s1);
      Parsed((Some(index), channel), s2)
    else
      Parsed((None, 0), s)
  }

  function TakeSplit(present: bool, s: bytes): (r: Parsed<Option<SplitHeader>>)
    ensures r.Parsed? ==> |r.rest| <= |s|
  {
    if present then
      var (count, s1) :- TakeBE32(s);
      var (id, s2) :- TakeBE16(s1);
      var (index, s3) :- TakeBE32(s2);
      Parsed(Some(SplitHeader(count, id, index)), s3)
    else
      Parsed(None, s)
  }

  function ByteLength(bitLength: u16): (n: nat)
    ensures n <= MAX_FRAME_PAYLOAD
  {
    (bitLength + 7) / 8
  }

  /** What a decoded frame can carry: the budget limits it, and so does the sixteen-bit bit length. */
  predicate FitsFrame(payload: bytes, limit: nat) { |payload| <= limit && |payload| <= MAX_FRAME_PAYLOAD }

  /** The optional header fields of a frame, as a frame without payload. */
  function TakeFields(reliability: Reliability, hasSplit: bool, s: bytes): (r: Parsed<Frame>)
    ensures r.Parsed? ==> |r.rest| <= |s|
  {
    var (reliableIndex, s1) :- TakeIndex(reliability.IsReliable(), s);
    var (sequenceIndex, s2) :- TakeIndex(reliability.IsSequenced(), s1);
    var (order, s3) :- TakeOrder(reliability.IsOrdered(), s2);
    var (split, s4) :- TakeSplit(hasSplit, s3);
    Parsed(Frame(reliability, reliableIndex, sequenceIndex, order.0, order.1, split, []), s4)
  }

  function DecodeFrame(s: bytes, limit: usize): (r: Parsed<Frame>)
    ensures r.Parsed? ==> |r.rest| < |s| && FitsFrame(r.value.payload, limit)
  {
    var (flags, s1) :- TakeU8(s);
    var (bitLength, s2) :- TakeBE16(s1);
    var length := ByteLength(bitLength);
    if length > limit then Malformed(BudgetExceeded(length, limit)) else
    var (frame, s3) :- TakeFields(Reliability.FromTag(flags / 32), flags / 16 % 2 == 1, s2);
    var (payload, s4) :- Take(length, s3);
    Parsed(frame.(payload := payload), s4)
  }

  function DecodeFrames(s: bytes, limit: usize): (r: Result<seq<Frame>, RakNetError>)
    ensures r.Ok? ==> forall f <- r.value :: FitsFrame(f.payload, limit)
    decreases |s|
  {
    if s == [] then Ok([]) else
    match DecodeFrame(s, limit)
    case Malformed(error) => Err(error)
    case Parsed(frame, rest) =>
      var frames :- DecodeFrames(rest, limit);
      Ok([frame] + frames)
  }

  function DecodeDatagram(s: bytes, b: Budgets): (r: Result<Datagram, RakNetError>)
    ensures r.Ok? ==> forall f <- r.value.frames :: FitsFrame(f.payload, b.maxPayloadBytes)
  {
    if |s| > b.maxDatagramBytes then Err(BudgetExceeded(|s|, b.maxDatagramBytes)) else
    match TakeU8(s)
    case Malformed(error) => Err(error)
    case Parsed(flags, s1) =>
      // Bit 0x80 must be set, bits 0x40 and 0x20 clear.
      if flags / 32 != 4 then Err(Wire) else
      match TakeLE24(s1)
      case Malformed(error) => Err(error)
      case Parsed(sequence, s2) =>
        var frames :- DecodeFrames(s2, b.maxPayloadBytes);
        Ok(Datagram(sequence, frames))
  }

  function TakeRanges(count: nat, s: bytes): (r: Parsed<seq<(u24, u24)>>)
    decreases count
  {
    if count == 0 then Parsed([], s) else
    var (single, s1) :- TakeU8(s);
    var (start, s2) :- TakeLE24(s1);
    var (end, s3) :- if single != 0 then Parsed(start, s2) else TakeLE24(s2);
    var (ranges, s4) :- TakeRanges(count - 1, s3);
    Parsed([(start, end)] + ranges, s4)
  }

  /** `None` when the bytes are not an acknowledgement at all. */
  function DecodeAcknowledgement(s: bytes): Result<Option<Acknowledgement>, RakNetError> {
    if s == [] || (s[0] != 0xA0 && s[0] != 0xC0) then Ok(None) else
    match TakeBE16(s[1..])
    case Malformed(error) => Err(error)
    case Parsed(count, s1) =>
      match TakeRanges(count, s1)
      case Malformed(error) => Err(error)
      case Parsed(ranges, _) => Ok(Some(if s[0] == 0xC0 then Ack(ranges) else Nack(ranges)))
  }

  predicate InRange(sequence: u24, range: (u24, u24)) {
    Distance(sequence, range.0) <= Distance(range.1, range.0)
  }

  predicate InAnyRange(sequence: u24, ranges: seq<(u24, u24)>) {
    exists r <- ranges :: InRange(sequence, r)
  }

  // ---- Round trips ----

  lemma TakeEncoded(a: bytes, rest: bytes)
    ensures Take(|a|, a + rest) == Parsed(a, rest)
  {
  }

  lemma TakeIndexEncoded(index: Option<u24>, rest: bytes)
    ensures TakeIndex(index.Some?, EncodeIndex(index) + rest) == Parsed(index, rest)
  {
    if index.Some? {
      LE24RoundTrip(index.value);
      TakeEncoded(LE24(index.value), rest);
    } else {
      assert [] + rest == rest;
    }
  }

  lemma TakeOrderEncoded(f: Frame, rest: bytes)
    requires f.orderIndex.None? ==> f.orderChannel == 0
    ensures TakeOrder(f.orderIndex.Some?, EncodeOrder(f) + rest) == Parsed((f.orderIndex, f.orderChannel), rest)
  {
    if f.orderIndex.Some? {
      var index := LE24(f.orderIndex.value);
      LE24RoundTrip(f.orderIndex.value);
      assert EncodeOrder(f) + rest == index + ([f.orderChannel] + rest);
      TakeEncoded(index, [f.orderChannel] + rest);
      TakeEncoded([f.orderChannel], rest);
    } else {
      assert [] + rest == rest;
    }
  }

  lemma TakeSplitEncoded(split: Option<SplitHeader>, rest: bytes)
    ensures TakeSplit(split.Some?, EncodeSplit(split) + rest) == Parsed(split, rest)
  {
    if split.Some? {
      var SplitHeader(count, id, index) := split.value;
      BE32RoundTrip(count); BE16RoundTrip(id); BE32RoundTrip(index);
      var tail := BE32(index) + rest;
      assert EncodeSplit(split) + rest == BE32(count) + (BE16(id) + tail);
      TakeEncoded(BE32(count), BE16(id) + tail);
      TakeEncoded(BE16(id), tail);
      TakeEncoded(BE32(index), rest);
    } else {
      assert [] + rest == rest;
    }
  }

  lemma TakeFieldsEncoded(f: Frame, rest: bytes)
    requires IndexesMatch(f)
    ensures TakeFields(f.reliability, f.split.Some?, EncodeFields(f, rest)) == Parsed(f.(payload := []), rest)
  {
    var s3 := EncodeSplit(f.split) + rest;
    var s2 := EncodeOrder(f) + s3;
    var s1 := EncodeIndex(f.sequenceIndex) + s2;
    TakeIndexEncoded(f.reliableIndex, s1);
    TakeIndexEncoded(f.sequenceIndex, s2);
    TakeOrderEncoded(f, s3);
    TakeSplitEncoded(f.split, rest);
  }

  lemma FlagsRoundTrip(f: Frame)
    ensures Reliability.FromTag(FrameFlags(f) / 32) == f.reliability
    ensures FrameFlags(f) / 16 % 2 == 1 <==> f.split.Some?
  {
  }

  /** An encoded frame reads back up to the payload bytes its bit length can name. */
  lemma DecodeEncodedFrame(f: Frame, limit: usize)
    requires IndexesMatch(f)
    ensures
      var n := ByteLength(BitLength(f.payload));
      n == Min(|f.payload|, MAX_FRAME_PAYLOAD) &&
      DecodeFrame(EncodeFrame(f), limit) ==
        if n > limit then Malformed(BudgetExceeded(n, limit))
        else Parsed(f.(payload := f.payload[..n]), f.payload[n..])
  {
    var s2 := EncodeFields(f, f.payload);
    var s1 := BE16(BitLength(f.payload)) + s2;
    TakeEncoded([FrameFlags(f)], s1);
    BE16RoundTrip(BitLength(f.payload));
    TakeEncoded(BE16(BitLength(f.payload)), s2);
    FlagsRoundTrip(f);
    TakeFieldsEncoded(f, f.payload);
  }

  lemma DecodeEncodedHeader(sequence: u24, f: Frame, b: Budgets)
    ensures DecodeDatagram(EncodeDatagram(sequence, f), b) ==
            if |EncodeDatagram(sequence, f)| > b.maxDatagramBytes
            then Err(BudgetExceeded(|EncodeDatagram(sequence, f)|, b.maxDatagramBytes))
            else match DecodeFrames(EncodeFrame(f), b.maxPayloadBytes)
                 case Ok(frames) => Ok(Datagram(sequence, frames))
                 case Err(error) => Err(error)
  {
    TakeEncoded([0x84], LE24(sequence) + EncodeFrame(f));
    LE24RoundTrip(sequence);
    TakeEncoded(LE24(sequence), EncodeFrame(f));
  }

  lemma DecodeEncodedFrames(f: Frame, limit: usize)
    requires IndexesMatch(f) && ByteLength(BitLength(f.payload)) <= limit
    ensures DecodeFrames(EncodeFrame(f), limit) == Ok([f]) <==> |f.payload| <= MAX_FRAME_PAYLOAD
  {
    DecodeEncodedFrame(f, limit);
    var n := ByteLength(BitLength(f.payload));
    if |f.payload| <= MAX_FRAME_PAYLOAD {
      assert f.payload[..n] == f.payload && f.payload[n..] == [];
      assert DecodeFrame(EncodeFrame(f), limit) == Parsed(f, []);
      assert [f] + [] == [f];
    } else if DecodeFrames(EncodeFrame(f), limit).Ok? {
      assert |DecodeFrames(EncodeFrame(f), limit).value[0].payload| == n;
    }
  }

  /**
   * Within the receiver's budgets, an encoded datagram decodes to the single frame it was built
   * from if and only if the payload is at most 8192 bytes.
   */
  lemma DatagramRoundTrip(sequence: u24, f: Frame, b: Budgets)
    requires IndexesMatch(f)
    requires |EncodeDatagram(sequence, f)| <= b.maxDatagramBytes
    requires ByteLength(BitLength(f.payload)) <= b.maxPayloadBytes
    ensures DecodeDatagram(EncodeDatagram(sequence, f), b) == Ok(Datagram(sequence, [f]))
       <==> |f.payload| <= MAX_FRAME_PAYLOAD
  {
    DecodeEncodedHeader(sequence, f, b);
    DecodeEncodedFrames(f, b.maxPayloadBytes);
  }

  /** One or two bytes are too few for a frame. */
  lemma ShortTailIsRefused(s: bytes, limit: usize)
    requires 1 <= |s| <= 2
    ensures DecodeFrames(s, limit).Err?
  {
  }

  /**
   * A datagram decodes to its own frame or is refused, by a budget or, just beyond the size a frame
   * can name, for the one or two bytes left over.
   */
  lemma DatagramDecodesOrIsRefused(sequence: u24, f: Frame, b: Budgets)
    requires IndexesMatch(f) && |f.payload| <= LONGEST_SAFE_FRAGMENT
    ensures
      var r := DecodeDatagram(EncodeDatagram(sequence, f), b);
      r == Ok(Datagram(sequence, [f])) || r.Err?
  {
    DecodeEncodedHeader(sequence, f, b);
    DecodeEncodedFrame(f, b.maxPayloadBytes);
    var n := ByteLength(BitLength(f.payload));
    if n <= b.maxPayloadBytes {
      if |f.payload| <= MAX_FRAME_PAYLOAD {
        DecodeEncodedFrames(f, b.maxPayloadBytes);
      } else {
        ShortTailIsRefused(f.payload[n..], b.maxPayloadBytes);
      }
    }
  }

  lemma AckRangeRoundTrip(id: byte, start: u24, end: u24)
    requires id == 0xA0 || id == 0xC0
    ensures DecodeAcknowledgement(EncodeAckRange(id, start, end)) ==
            Ok(Some(if id == 0xC0 then Ack([(start, end)]) else Nack([(start, end)])))
  {
    var last := if start != end then LE24(end) else [];
    var s3 := LE24(start) + last;
    var s2 := [if start == end then 1 else 0] + s3;
    assert EncodeAckRange(id, start, end)[1..] == BE16(1) + s2;
    BE16RoundTrip(1);
    TakeEncoded(BE16(1), s2);
    TakeEncoded([if start == end then 1 else 0], s3);
    LE24RoundTrip(start);
    TakeEncoded(LE24(start), last);
    LE24RoundTrip(end);
    assert last == last + [];
    TakeEncoded(last, []);
    assert TakeRanges(0, []) == Parsed([], []);
    assert [(start, end)] + [] == [(start, end)];
  }

  /** The three kinds of datagram are told apart by their first byte, in both directions. */
  lemma FormatsAreDisjoint(sequence: u24, f: Frame, id: byte, start: u24, end: u24, b: Budgets)
    requires id == 0xA0 || id == 0xC0
    ensures DecodeAcknowledgement(EncodeDatagram(sequence, f)) == Ok(None)
    ensures DecodeDatagram(EncodeAckRange(id, start, end), b).Err?
  {
  }

  /**
   * The gap reported for a jump from `previous` to a newer `current`, once encoded and decoded,
   * selects exactly the sequences strictly between the two.
   */
  lemma NackSelectsExactlyTheGap(previous: u24, current: u24, s: u24)
    requires IsNewer(current, previous) && Distance(current, previous) > 1
    ensures
      var r := DecodeAcknowledgement(EncodeNack(Next(previous), Previous(current)));
      && r.Ok? && r.value.Some? && r.value.value.Nack?
      && (InAnyRange(s, r.value.value.ranges)
          <==> 0 < Distance(s, previous) < Distance(current, previous))
  {
    AckRangeRoundTrip(0xA0, Next(previous), Previous(current));
    var range := (Next(previous), Previous(current));
    assert InAnyRange(s, [range]) <==> InRange(s, range) by {
      assert [range][0] == range;
    }
  }
}
