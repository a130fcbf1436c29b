/** The tag reader and writer as they run: recursive, over a stream that moves with every call. */
module NbtStream {
  import opened Wrappers
  import opened Bytes
  import opened Nbt

  /** A method's result and the stream it leaves are those of the specification. */
  ghost predicate Follows<T>(spec: Result<Parsed<T>, ReadError>, r: Result<T, ReadError>, rest: bytes) {
    if spec.Ok? then r == Ok(spec.value.value) && rest == spec.value.rest else r == Err(spec.error)
  }

  /** The outcome of a loop that has already collected `done`. */
  ghost function After<T>(done: seq<T>, r: Result<Parsed<seq<T>>, ReadError>): Result<Parsed<seq<T>>, ReadError> {
    if r.Err? then r else Ok(Parsed(done + r.value.value, r.value.rest))
  }

  lemma AfterNothing<T>(r: Result<Parsed<seq<T>>, ReadError>)
    ensures After([], r) == r
  {
    if r.Ok? {
      assert [] + r.value.value == r.value.value;
    }
  }

  lemma AfterItem(done: seq<Tag>, element: byte, n: nat, s: bytes)
    requires n > 0 && ReadPayload(element, s).Ok?
    ensures
      var first := ReadPayload(element, s).value;
      After(done, ReadItems(element, n, s)) == After(done + [first.value], ReadItems(element, n - 1, first.rest))
  {
    var first := ReadPayload(element, s).value;
    var more := ReadItems(element, n - 1, first.rest);
    if more.Ok? {
      Assoc(done, [first.value], more.value.value);
    }
  }

  lemma AfterInt(done: seq<i32>, n: nat, s: bytes)
    requires n > 0 && |s| >= 4
    ensures
      var v := ToI32(FromBE32(s[..4]));
      After(done, ReadInts(s, n)) == After(done + [v], ReadInts(s[4..], n - 1))
  {
    var more := ReadInts(s[4..], n - 1);
    if more.Ok? {
      Assoc(done, [ToI32(FromBE32(s[..4]))], more.value.value);
    }
  }

  class TagReader {
    var rest: bytes

    constructor (data: bytes)
      ensures rest == data
    {
      rest := data;
    }

    method ReadExact(n: nat) returns (r: Result<bytes, ReadError>)
      modifies this
      ensures Follows(Take(old(rest), n), r, rest)
    {
      if n > |rest| {
        return Err(UnexpectedEnd);
      }
      r := Ok(rest[..n]);
      rest := rest[n..];
    }

    method Length() returns (r: Result<nat, ReadError>)
      modifies this
      ensures Follows(ReadLength(old(rest)), r, rest)
    {
      var raw :- ReadExact(4);
      var v: int := ToI32(FromBE32(raw));
      if v < 0 {
        return Err(NegativeLength);
      }
      r := Ok(v);
    }

    method Text() returns (r: Result<bytes, ReadError>)
      modifies this
      ensures Follows(ReadText(old(rest)), r, rest)
    {
      var size :- ReadExact(2);
      var text :- ReadExact(FromBE16(size));
      if !ValidUtf8(text) {
        return Err(InvalidUtf8);
      }
      r := Ok(text);
    }

    method Scalar(tagType: byte) returns (r: Result<Tag, ReadError>)
      requires 1 <= tagType <= 6
      modifies this
      ensures Follows(ReadScalar(tagType, old(rest)), r, rest)
    {
      var parsed := ReadScalar(tagType, rest);
      if parsed.Err? {
        return Err(parsed.error);
      }
      rest := parsed.value.rest;
      r := Ok(parsed.value.value);
    }

    method Ints(n: nat) returns (r: Result<seq<i32>, ReadError>)
      modifies this
      ensures Follows(ReadInts(old(rest), n), r, rest)
    {
      var values: seq<i32> := [];
      AfterNothing(ReadInts(rest, n));
      for k := 0 to n
        invariant After(values, ReadInts(rest, n - k)) == ReadInts(old(rest), n)
      {
        ghost var before := rest;
        var raw :- ReadExact(4);
        AfterInt(values, n - k, before);
        values := values + [ToI32(FromBE32(raw))];
      }
      assert values + [] == values;
      r := Ok(values);
    }

    /** Reads one payload, calling itself for the elements of lists and compounds. */
    method Payload(tagType: byte) returns (r: Result<Tag, ReadError>)
      modifies this
      ensures Follows(ReadPayload(tagType, old(rest)), r, rest)
      decreases |rest|, 1
    {
      if 1 <= tagType <= 6 {
        r := Scalar(tagType);
      } else if tagType == 7 {
        var size :- Length();
        var content :- ReadExact(size);
        r := Ok(ByteArray(content));
      } else if tagType == 8 {
        var text :- Text();
        r := Ok(String(text));
      } else if tagType == 9 {
        var element :- ReadExact(1);
        var size :- Length();
        var items := Items(element[0], size);
        if items.Err? {
          return Err(items.error);
        }
        r := Ok(List(element[0], items.value));
      } else if tagType == 10 {
        var entries := Entries();
        if entries.Err? {
          return Err(entries.error);
        }
        r := Ok(Compound(entries.value));
      } else if tagType == 11 {
        var size :- Length();
        var ints :- Ints(size);
        r := Ok(IntArray(ints));
      } else {
        r := Err(UnsupportedType(tagType));
      }
    }

    method Items(element: byte, n: nat) returns (r: Result<seq<Tag>, ReadError>)
      modifies this
      ensures Follows(ReadItems(element, n, old(rest)), r, rest)
      decreases |rest|, 2
    {
      var values: seq<Tag> := [];
      AfterNothing(ReadItems(element, n, rest));
      for k := 0 to n
        invariant |rest| <= |old(rest)|
        invariant After(values, ReadItems(element, n - k, rest)) == ReadItems(element, n, old(rest))
      {
        ghost var before := rest;
        var item := Payload(element);
        if item.Err? {
          return Err(item.error);
        }
        AfterItem(values, element, n - k, before);
        values := values + [item.value];
      }
      assert values + [] == values;
      r := Ok(values);
    }

    method Entries() returns (r: Result<seq<Entry>, ReadError>)
      modifies this
      ensures Follows(ReadEntries(old(rest), []), r, rest)
      decreases |rest|, 0
    {
      var values: seq<Entry> := [];
      while true
        invariant |rest| <= |old(rest)|
        invariant ReadEntries(rest, values) == ReadEntries(old(rest), [])
        decreases |rest|
      {
        var child :- ReadExact(1);
        if child[0] == 0 {
          return Ok(values);
        }
        var name :- Text();
        var value := Payload(child[0]);
        if value.Err? {
          return Err(value.error);
        }
        values := Put(values, Entry(name, value.value));
      }
    }
  }

  /** Reads a root: a compound with a name that is thrown away. */
  method ReadRoot(data: bytes) returns (r: Result<Tag, ReadError>)
    ensures r == ReadNbt(data)
  {
    var reader := new TagReader(data);
    var tagType :- reader.ReadExact(1);
    if tagType[0] != 10 {
      return Err(RootNotCompound);
    }
    var _ :- reader.Text();
    r := reader.Payload(10);
  }

  // ---- The writer ----

  /** A string too long for its 16-bit length, or a collection too long for its 31-bit length. */
  datatype WriteError = StringTooLong | LengthOverflow

  lemma {:induction false} ItemsAppend(a: seq<Tag>, x: Tag)
    requires (forall t <- a :: Writable(t)) && Writable(x)
    ensures forall t <- a + [x] :: Writable(t)
    ensures ItemsBytes(a + [x]) == ItemsBytes(a) + Nbt.Payload(x)
    decreases |a|
  {
    if a == [] {
      assert a + [x] == [x];
      assert ItemsBytes([x]) == Nbt.Payload(x) + ItemsBytes([]);
    } else {
      assert (a + [x])[1..] == a[1..] + [x];
      ItemsAppend(a[1..], x);
      Assoc(Nbt.Payload(a[0]), ItemsBytes(a[1..]), Nbt.Payload(x));
    }
  }

  lemma {:induction false} IntsAppend(a: seq<i32>, x: i32)
    ensures IntsBytes(a + [x]) == IntsBytes(a) + BE32(FromI32(x))
    decreases |a|
  {
    if a == [] {
      assert a + [x] == [x];
      assert IntsBytes([x]) == BE32(FromI32(x)) + IntsBytes([]);
    } else {
      assert (a + [x])[1..] == a[1..] + [x];
      IntsAppend(a[1..], x);
      Assoc(BE32(FromI32(a[0])), IntsBytes(a[1..]), BE32(FromI32(x)));
    }
  }

  predicate EntryWritable(e: Entry) { |e.name| < 0x1_0000 && Writable(e.value) }

  function EntryBytes(e: Entry): bytes
    requires EntryWritable(e)
  {
    [TypeOf(e.value)] + (TextBytes(e.name) + Nbt.Payload(e.value))
  }

  /** The entries written so far, without the end marker. */
  function Written(es: seq<Entry>): bytes
    requires forall i :: 0 <= i < |es| ==> EntryWritable(es[i])
  {
    if es == [] then [] else Written(es[..|es| - 1]) + EntryBytes(es[|es| - 1])
  }

  lemma EntriesCons(e: Entry, es: seq<Entry>)
    requires EntryWritable(e) && forall x <- es :: |x.name| < 0x1_0000 && Writable(x.value)
    ensures forall x <- [e] + es :: |x.name| < 0x1_0000 && Writable(x.value)
    ensures EntriesBytes([e] + es) == EntryBytes(e) + EntriesBytes(es)
  {
    assert ([e] + es)[1..] == es;
    Assoc([TypeOf(e.value)], TextBytes(e.name) + Nbt.Payload(e.value), EntriesBytes(es));
    Assoc(TextBytes(e.name), Nbt.Payload(e.value), EntriesBytes(es));
  }

  lemma {:induction false} WrittenThenRest(a: seq<Entry>, b: seq<Entry>)
    requires forall i :: 0 <= i < |a| ==> EntryWritable(a[i])
    requires forall x <- b :: |x.name| < 0x1_0000 && Writable(x.value)
    ensures forall x <- a + b :: |x.name| < 0x1_0000 && Writable(x.value)
    ensures EntriesBytes(a + b) == Written(a) + EntriesBytes(b)
    decreases |a|
  {
    if a == [] {
      assert a + b == b;
    } else {
      var n := |a| - 1;
      EntriesCons(a[n], b);
      assert a + b == a[..n] + ([a[n]] + b);
      WrittenThenRest(a[..n], [a[n]] + b);
      Assoc(Written(a[..n]), EntryBytes(a[n]), EntriesBytes(b));
    }
  }

  class TagWriter {
    var buffer: bytes

    constructor ()
      ensures buffer == []
    {
      buffer := [];
    }

    method Put(data: bytes)
      modifies this
      ensures buffer == old(buffer) + data
    {
      buffer := buffer + data;
    }

    method Text(text: bytes) returns (r: Option<WriteError>)
      modifies this
      ensures r.None? <==> |text| < 0x1_0000
      ensures r.None? ==> buffer == old(buffer) + TextBytes(text)
    {
      if |text| >= 0x1_0000 {
        return Some(StringTooLong);
      }
      Assoc(buffer, BE16(|text|), text);
      Put(BE16(|text|));
      Put(text);
      r := None;
    }

    /** Writes one payload; refused exactly when some length does not fit its field. */
    method Payload(t: Tag) returns (r: Option<WriteError>)
      modifies this
      ensures r.None? <==> Writable(t)
      ensures r.None? ==> buffer == old(buffer) + Nbt.Payload(t)
      decreases t, 1
    {
      match t {
        case ByteArray(content) =>
          if |content| > I32_MAX {
            return Some(LengthOverflow);
          }
          Assoc(buffer, BE32(|content|), content);
          Put(BE32(|content|));
          Put(content);
          r := None;
        case String(text) => r := Text(text);
        case List(element, items) => r := Items(t, element, items);
        case Compound(entries) => r := Entries(t, entries);
        case IntArray(ints) => r := Ints(ints);
        case _ =>
          Put(Nbt.Payload(t));
          r := None;
      }
    }

    method Ints(ints: seq<i32>) returns (r: Option<WriteError>)
      modifies this
      ensures r.None? <==> Writable(IntArray(ints))
      ensures r.None? ==> buffer == old(buffer) + Nbt.Payload(IntArray(ints))
    {
      if |ints| > I32_MAX {
        return Some(LengthOverflow);
      }
      Put(BE32(|ints|));
      ghost var start := buffer;
      for i := 0 to |ints|
        invariant buffer == start + IntsBytes(ints[..i])
      {
        assert ints[..i + 1] == ints[..i] + [ints[i]];
        IntsAppend(ints[..i], ints[i]);
        Assoc(start, IntsBytes(ints[..i]), BE32(FromI32(ints[i])));
        Put(BE32(FromI32(ints[i])));
      }
      assert ints[..|ints|] == ints;
      Assoc(old(buffer), BE32(|ints|), IntsBytes(ints));
      r := None;
    }

    method Items(ghost t: Tag, element: byte, items: seq<Tag>) returns (r: Option<WriteError>)
      requires t == List(element, items)
      modifies this
      ensures r.None? <==> Writable(t)
      ensures r.None? ==> buffer == old(buffer) + Nbt.Payload(t)
      decreases t, 0
    {
      if |items| > I32_MAX {
        return Some(LengthOverflow);
      }
      Put([element] + BE32(|items|));
      ghost var start := buffer;
      for i := 0 to |items|
        invariant forall x <- items[..i] :: Writable(x)
        invariant buffer == start + ItemsBytes(items[..i])
      {
        r := Payload(items[i]);
        if r.Some? {
          assert items[i] in items;
          return;
        }
        assert items[..i + 1] == items[..i] + [items[i]];
        ItemsAppend(items[..i], items[i]);
        Assoc(start, ItemsBytes(items[..i]), Nbt.Payload(items[i]));
      }
      assert items[..|items|] == items;
      Assoc([element], BE32(|items|), ItemsBytes(items));
      Assoc(old(buffer), [element] + BE32(|items|), ItemsBytes(items));
      r := None;
    }

    method Entries(ghost t: Tag, entries: seq<Entry>) returns (r: Option<WriteError>)
      requires t == Compound(entries)
      modifies this
      ensures r.None? <==> Writable(t)
      ensures r.None? ==> buffer == old(buffer) + Nbt.Payload(t)
      decreases t, 0
    {
      ghost var start := buffer;
      for i := 0 to |entries|
        invariant forall k :: 0 <= k < i ==> EntryWritable(entries[k])
        invariant buffer == start + Written(entries[..i])
      {
        var e := entries[i];
        r := Named(TypeOf(e.value), e.name, e.value);
        if r.Some? {
          assert e in entries;
          return;
        }
        assert entries[..i + 1][..i] == entries[..i];
        Assoc(start, Written(entries[..i]), EntryBytes(e));
      }
      assert entries[..|entries|] == entries;
      WrittenThenRest(entries, []);
      assert entries + [] == entries;
      Assoc(start, Written(entries), [0]);
      Put([0]);
      r := None;
    }

    /** Type, name and payload. */
    method Named(tagType: byte, name: bytes, t: Tag) returns (r: Option<WriteError>)
      modifies this
      ensures r.None? <==> |name| < 0x1_0000 && Writable(t)
      ensures r.None? ==> buffer == old(buffer) + NamedBytes(tagType, name, t)
      decreases t, 2
    {
      Put([tagType]);
      r := Text(name);
      if r.Some? {
        return;
      }
      r := Payload(t);
      if r.None? {
        Assoc(old(buffer) + [tagType], TextBytes(name), Nbt.Payload(t));
        Assoc(old(buffer), [tagType], TextBytes(name) + Nbt.Payload(t));
      }
    }
  }
}
