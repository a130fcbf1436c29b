/** The cursor-based decoder, proved against the suffix parsers of the Wire module. */
module WireReader {
  import opened Wrappers
  import opened Bytes
  import opened Budget
  import W = Wire

  /** A read answers as its parser does, and on success leaves the parser's rest unread. */
  ghost predicate Reads<T>(r: Result<T, RakNetError>, parsed: W.Parsed<T>, rest: bytes) {
    match parsed
    case Malformed(error) => r == Err(error)
    case Parsed(value, after) => r == Ok(value) && rest == after
  }

  class Reader {
    const input: bytes
    var cursor: nat

    ghost predicate Valid()
      reads this
    {
      cursor <= |input|
    }

    ghost function Rest(): bytes
      requires Valid()
      reads this
    {
      input[cursor..]
    }

    constructor (input: bytes)
      ensures Valid() && Rest() == input && this.input == input
    {
      this.input, cursor := input, 0;
    }

    method Take(n: nat) returns (r: Result<bytes, RakNetError>)
      requires Valid()
      modifies this
      ensures Valid() && Reads(r, W.Take(n, old(Rest())), Rest())
    {
      if cursor + n > |input| {
        return Err(RakNetError.Wire);
      }
      r := Ok(input[cursor..cursor + n]);
      assert input[cursor..][..n] == input[cursor..cursor + n];
      cursor := cursor + n;
    }

    method U8() returns (r: Result<byte, RakNetError>)
      requires Valid()
      modifies this
      ensures Valid() && Reads(r, W.TakeU8(old(Rest())), Rest())
    {
      var b :- Take(1);
      r := Ok(b[0]);
    }

    method BE16() returns (r: Result<u16, RakNetError>)
      requires Valid()
      modifies this
      ensures Valid() && Reads(r, W.TakeBE16(old(Rest())), Rest())
    {
      var b :- Take(2);
      r := Ok(FromBE16(b));
    }

    method LE24() returns (r: Result<u24, RakNetError>)
      requires Valid()
      modifies this
      ensures Valid() && Reads(r, W.TakeLE24(old(Rest())), Rest())
    {
      var b :- Take(3);
      r := Ok(FromLE24(b));
    }

    method BE32() returns (r: Result<u32, RakNetError>)
      requires Valid()
      modifies this
      ensures Valid() && Reads(r, W.TakeBE32(old(Rest())), Rest())
    {
      var b :- Take(4);
      r := Ok(FromBE32(b));
    }

    method Index(present: bool) returns (r: Result<Option<u24>, RakNetError>)
      requires Valid()
      modifies this
      ensures Valid() && Reads(r, W.TakeIndex(present, old(Rest())), Rest())
    {
      if !present {
        return Ok(None);
      }
      var index :- LE24();
      r := Ok(Some(index));
    }

    method OrderFields(present: bool) returns (r: Result<(Option<u24>, byte), RakNetError>)
      requires Valid()
      modifies this
      ensures Valid() && Reads(r, W.TakeOrder(present, old(Rest())), Rest())
    {
      if !present {
        return Ok((None, 0));
      }
      var index :- LE24();
      var channel :- U8();
      r := Ok((Some(index), channel));
    }

    method Split(present: bool) returns (r: Result<Option<W.SplitHeader>, RakNetError>)
      requires Valid()
      modifies this
      ensures Valid() && Reads(r, W.TakeSplit(present, old(Rest())), Rest())
    {
      if !present {
        return Ok(None);
      }
      var count :- BE32();
      var id :- BE16();
      var index :- BE32();
      r := Ok(Some(W.SplitHeader(count, id, index)));
    }

    method Fields(reliability: W.Reliability, hasSplit: bool) returns (r: Result<W.Frame, RakNetError>)
      requires Valid()
      modifies this
      ensures Valid() && Reads(r, W.TakeFields(reliability, hasSplit, old(Rest())), Rest())
    {
      var reliableIndex :- Index(reliability.IsReliable());
      var sequenceIndex :- Index(reliability.IsSequenced());
      var order :- OrderFields(reliability.IsOrdered());
      var split :- Split(hasSplit);
      r := Ok(W.Frame(reliability, reliableIndex, sequenceIndex, order.0, order.1, split, []));
    }

    method ReadFrame(limit: usize) returns (r: Result<W.Frame, RakNetError>)
      requires Valid()
      modifies this
      ensures Valid() && Reads(r, W.DecodeFrame(old(Rest()), limit), Rest())
    {
      var flags :- U8();
      var bitLength :- BE16();
      var length := W.ByteLength(bitLength);
      if length > limit {
        return Err(BudgetExceeded(length, limit));
      }
      var frame :- Fields(W.Reliability.FromTag(flags / 32), flags / 16 % 2 == 1);
      var payload :- Take(length);
      r := Ok(frame.(payload := payload));
    }
  }

  function Prepend(frames: seq<W.Frame>, r: Result<seq<W.Frame>, RakNetError>): Result<seq<W.Frame>, RakNetError> {
    match r
    case Ok(rest) => Ok(frames + rest)
    case Err(error) => Err(error)
  }

  lemma PrependAssociates(frames: seq<W.Frame>, frame: W.Frame, r: Result<seq<W.Frame>, RakNetError>)
    ensures Prepend(frames, Prepend([frame], r)) == Prepend(frames + [frame], r)
    ensures Prepend([], r) == r
  {
    if r.Ok? {
      assert frames + ([frame] + r.value) == frames + [frame] + r.value;
      assert [] + r.value == r.value;
    }
  }

  method DecodeDatagram(input: bytes, b: Budgets) returns (r: Result<W.Datagram, RakNetError>)
    ensures r == W.DecodeDatagram(input, b)
  {
    if |input| > b.maxDatagramBytes {
      return Err(BudgetExceeded(|input|, b.maxDatagramBytes));
    }
    var reader := new Reader(input);
    var flags :- reader.U8();
    if flags / 32 != 4 {
      return Err(RakNetError.Wire);
    }
    var sequence :- reader.LE24();
    var frames :- DecodeFrames(reader, b.maxPayloadBytes);
    r := Ok(W.Datagram(sequence, frames));
  }

  method DecodeFrames(reader: Reader, limit: usize) returns (r: Result<seq<W.Frame>, RakNetError>)
    requires reader.Valid()
    modifies reader
    ensures r == W.DecodeFrames(old(reader.Rest()), limit)
  {
    var frames: seq<W.Frame> := [];
    ghost var all := W.DecodeFrames(reader.Rest(), limit);
    assert all.Ok? ==> [] + all.value == all.value;
    while reader.cursor != |reader.input|
      invariant reader.Valid()
      invariant all == Prepend(frames, W.DecodeFrames(reader.Rest(), limit))
      decreases |reader.input| - reader.cursor
    {
      ghost var before := reader.Rest();
      var frame :- reader.ReadFrame(limit);
      assert |reader.Rest()| < |before|;
      PrependAssociates(frames, frame, W.DecodeFrames(reader.Rest(), limit));
      frames := frames + [frame];
    }
    assert frames + [] == frames;
    r := Ok(frames);
  }

  method DecodeAcknowledgement(input: bytes) returns (r: Result<Option<W.Acknowledgement>, RakNetError>)
    ensures r == W.DecodeAcknowledgement(input)
  {
    if input == [] || (input[0] != 0xA0 && input[0] != 0xC0) {
      return Ok(None);
    }
    var reader := new Reader(input);
    var id :- reader.U8();
    assert reader.Rest() == input[1..];
    var count :- reader.BE16();
    PrependNoRanges(W.TakeRanges(count, reader.Rest()));
    var ranges :- DecodeRanges(reader, count);
    r := Ok(Some(if id == 0xC0 then W.Ack(ranges) else W.Nack(ranges)));
  }

  function PrependRanges(ranges: seq<(u24, u24)>, r: W.Parsed<seq<(u24, u24)>>): Result<seq<(u24, u24)>, RakNetError> {
    match r
    case Parsed(rest, _) => Ok(ranges + rest)
    case Malformed(error) => Err(error)
  }

  lemma PrependNoRanges(r: W.Parsed<seq<(u24, u24)>>)
    ensures r.Parsed? ==> PrependRanges([], r) == Ok(r.value)
    ensures r.Malformed? ==> PrependRanges([], r) == Err(r.error)
  {
    if r.Parsed? {
      assert [] + r.value == r.value;
    }
  }

  /** One range read off the front moves to the end of those collected. */
  lemma PrependRange(ranges: seq<(u24, u24)>, n: nat, s: bytes, single: byte, s1: bytes, start: u24, s2: bytes,
      end: u24, s3: bytes)
    requires n > 0 && W.TakeU8(s) == W.Parsed(single, s1) && W.TakeLE24(s1) == W.Parsed(start, s2)
    requires (if single != 0 then W.Parsed(start, s2) else W.TakeLE24(s2)) == W.Parsed(end, s3)
    ensures PrependRanges(ranges, W.TakeRanges(n, s)) == PrependRanges(ranges + [(start, end)], W.TakeRanges(n - 1, s3))
  {
    var tail := W.TakeRanges(n - 1, s3);
    if tail.Parsed? {
      Assoc(ranges, [(start, end)], tail.value);
    }
  }

  method DecodeRanges(reader: Reader, count: nat) returns (r: Result<seq<(u24, u24)>, RakNetError>)
    requires reader.Valid()
    modifies reader
    ensures r == PrependRanges([], W.TakeRanges(count, old(reader.Rest())))
  {
    var ranges: seq<(u24, u24)> := [];
    for i := 0 to count
      invariant reader.Valid()
      invariant PrependRanges([], W.TakeRanges(count, old(reader.Rest()))) ==
              PrependRanges(ranges, W.TakeRanges(count - i, reader.Rest()))
    {
      ghost var s := reader.Rest();
      var single :- reader.U8();
      ghost var s1 := reader.Rest();
      var start :- reader.LE24();
      ghost var s2 := reader.Rest();
      var end := start;
      if single == 0 {
        end :- reader.LE24();
      }
      PrependRange(ranges, count - i, s, single, s1, start, s2, end, reader.Rest());
      ranges := ranges + [(start, end)];
    }
    assert ranges + [] == ranges;
    r := Ok(ranges);
  }
}
