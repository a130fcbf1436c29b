/**
 * Named binary tags as the level files store them: the payload writer, the payload reader, and
 * the laws that tie them together. A string is its UTF-8 bytes, a float its bit pattern, and a
 * compound the ascending listing of an ordered map.
 */
module Nbt {
  import opened Wrappers
  import opened Bytes

  type i8 = x: int | -0x80 <= x < 0x80
  type i16 = x: int | -0x8000 <= x < 0x8000
  type i64 = x: int | -0x8000_0000_0000_0000 <= x < 0x8000_0000_0000_0000

  datatype Tag =
    | Byte(i8: i8)
    | Short(i16: i16)
    | Int(i32: i32)
    | Long(i64: i64)
    | Float(bits32: u32)
    | Double(bits64: u64)
    | ByteArray(content: bytes)
    | String(text: bytes)
    | List(element: byte, items: seq<Tag>)
    | Compound(entries: seq<Entry>)
    | IntArray(ints: seq<i32>)

  datatype Entry = Entry(name: bytes, value: Tag)

  function TypeOf(t: Tag): byte {
    match t
    case Byte(_) => 1
    case Short(_) => 2
    case Int(_) => 3
    case Long(_) => 4
    case Float(_) => 5
    case Double(_) => 6
    case ByteArray(_) => 7
    case String(_) => 8
    case List(_, _) => 9
    case Compound(_) => 10
    case IntArray(_) => 11
  }

  // ---- Strings and ordered maps ----

  predicate In(b: byte, low: int, high: int) { low <= b <= high }

  predicate Continues(s: bytes, n: nat) {
    n <= |s| && forall i :: 0 <= i < n ==> In(s[i], 0x80, 0xBF)
  }

  /** Well-formed UTF-8: no overlong forms, no surrogates, nothing above U+10FFFF. */
  predicate ValidUtf8(s: bytes) {
    s == [] ||
    (if s[0] < 0x80 then ValidUtf8(s[1..])
     else if In(s[0], 0xC2, 0xDF) then Continues(s[1..], 1) && ValidUtf8(s[2..])
     else if In(s[0], 0xE0, 0xEF) then
       && Continues(s[1..], 2)
       && (s[0] == 0xE0 ==> s[1] >= 0xA0) && (s[0] == 0xED ==> s[1] <= 0x9F)
       && ValidUtf8(s[3..])
     else if In(s[0], 0xF0, 0xF4) then
       && Continues(s[1..], 3)
       && (s[0] == 0xF0 ==> s[1] >= 0x90) && (s[0] == 0xF4 ==> s[1] <= 0x8F)
       && ValidUtf8(s[4..])
     else false)
  }

  /** Byte-wise lexicographic order, the order of the map's keys. */
  predicate Less(a: bytes, b: bytes) {
    b != [] && (a == [] || a[0] < b[0] || (a[0] == b[0] && Less(a[1..], b[1..])))
  }

  lemma {:induction false} LessIsTotal(a: bytes, b: bytes)
    ensures a == b || Less(a, b) || Less(b, a)
    ensures !(Less(a, b) && Less(b, a))
    decreases |a|
  {
    if a != [] && b != [] {
      LessIsTotal(a[1..], b[1..]);
      assert a == [a[0]] + a[1..] && b == [b[0]] + b[1..];
    }
  }

  lemma {:induction false} LessIsTransitive(a: bytes, b: bytes, c: bytes)
    requires Less(a, b) && Less(b, c)
    ensures Less(a, c)
    decreases |a|
  {
    if a != [] && a[0] == b[0] == c[0] {
      LessIsTransitive(a[1..], b[1..], c[1..]);
    }
  }

  predicate Ascending(es: seq<Entry>) {
    forall i, j :: 0 <= i < j < |es| ==> Less(es[i].name, es[j].name)
  }

  /** Inserts into the ordered map, replacing the value of a key already there. */
  function Put(es: seq<Entry>, e: Entry): (r: seq<Entry>)
    ensures forall x <- r :: x == e || x in es
  {
    if es == [] then [e]
    else if es[0].name == e.name then [e] + es[1..]
    else if Less(e.name, es[0].name) then [e] + es
    else [es[0]] + Put(es[1..], e)
  }

  lemma {:induction false} PutKeepsAscending(es: seq<Entry>, e: Entry)
    requires Ascending(es)
    ensures Ascending(Put(es, e))
  {
    if es != [] {
      LessIsTotal(e.name, es[0].name);
      forall j | 0 < j < |es| && Less(e.name, es[0].name) ensures Less(e.name, es[j].name) {
        LessIsTransitive(e.name, es[0].name, es[j].name);
      }
      if es[0].name != e.name && Less(es[0].name, e.name) {
        PutKeepsAscending(es[1..], e);
        var rest := Put(es[1..], e);
        forall j | 0 <= j < |rest| ensures Less(es[0].name, rest[j].name) {
          assert rest[j] in rest;
          if rest[j] != e {
            assert rest[j] in es[1..];
          }
        }
      }
    }
  }

  /** A key beyond all others goes to the end. */
  lemma {:induction false} PutAppends(es: seq<Entry>, e: Entry)
    requires forall i :: 0 <= i < |es| ==> Less(es[i].name, e.name)
    ensures Put(es, e) == es + [e]
  {
    if es != [] {
      LessIsTotal(es[0].name, e.name);
      PutAppends(es[1..], e);
      assert es == [es[0]] + es[1..];
    }
  }

  // ---- What a tag can be ----

  /** What the types guarantee of any tag: strings are UTF-8 and keys are in order. */
  predicate Representable(t: Tag) {
    match t
    case String(text) => ValidUtf8(text)
    case List(_, items) => forall x <- items :: Representable(x)
    case Compound(entries) =>
      Ascending(entries) && forall e <- entries :: ValidUtf8(e.name) && Representable(e.value)
    case _ => true
  }

  /** All lengths fit their length fields. */
  predicate Writable(t: Tag) {
    match t
    case ByteArray(content) => |content| <= I32_MAX
    case String(text) => |text| < 0x1_0000
    case List(_, items) => |items| <= I32_MAX && forall x <- items :: Writable(x)
    case Compound(entries) => forall e <- entries :: |e.name| < 0x1_0000 && Writable(e.value)
    case IntArray(ints) => |ints| <= I32_MAX
    case _ => true
  }

  /** Every list holds only elements of the type it declares. */
  predicate ListsMatch(t: Tag) {
    match t
    case List(element, items) => forall x <- items :: TypeOf(x) == element && ListsMatch(x)
    case Compound(entries) => forall e <- entries :: ListsMatch(e.value)
    case _ => true
  }

  // ---- Fixed-width integers, two's complement, big-endian ----

  function BE64(v: u64): (r: bytes)
    ensures |r| == 8
  {
    BE32(v / 0x1_0000_0000) + BE32(v % 0x1_0000_0000)
  }

  function FromBE64(s: bytes): u64
    requires |s| == 8
  {
    FromBE32(s[..4]) as int * 0x1_0000_0000 + FromBE32(s[4..]) as int
  }

  lemma BE64RoundTrip(v: u64)
    ensures FromBE64(BE64(v)) == v
  {
    Split(BE32(v / 0x1_0000_0000), BE32(v % 0x1_0000_0000));
    BE32RoundTrip(v / 0x1_0000_0000);
    BE32RoundTrip(v % 0x1_0000_0000);
  }

  // ---- Writing ----

  function TextBytes(text: bytes): bytes
    requires |text| < 0x1_0000
  {
    BE16(|text|) + text
  }

  function IntsBytes(ints: seq<i32>): bytes {
    if ints == [] then [] else BE32(FromI32(ints[0])) + IntsBytes(ints[1..])
  }

  /** The payload of a tag, without its type and name. */
  function Payload(t: Tag): bytes
    requires Writable(t)
    decreases t
  {
    match t
    case Byte(v) => [if v < 0 then v + 0x100 else v]
    case Short(v) => BE16(if v < 0 then v + 0x1_0000 else v)
    case Int(v) => BE32(FromI32(v))
    case Long(v) => BE64(if v < 0 then v + 0x1_0000_0000_0000_0000 else v)
    case Float(bits) => BE32(bits)
    case Double(bits) => BE64(bits)
    case ByteArray(content) => BE32(|content|) + content
    case String(text) => TextBytes(text)
    case List(element, items) => [element] + (BE32(|items|) + ItemsBytes(items))
    case Compound(entries) => EntriesBytes(entries)
    case IntArray(ints) => BE32(|ints|) + IntsBytes(ints)
  }

  function ItemsBytes(items: seq<Tag>): bytes
    requires forall x <- items :: Writable(x)
    decreases items
  {
    if items == [] then [] else Payload(items[0]) + ItemsBytes(items[1..])
  }

  /** Named entries and the end marker. */
  function EntriesBytes(entries: seq<Entry>): bytes
    requires forall e <- entries :: |e.name| < 0x1_0000 && Writable(e.value)
    decreases entries
  {
    if entries == [] then [0]
    else
      var e := entries[0];
      [TypeOf(e.value)] + (TextBytes(e.name) + (Payload(e.value) + EntriesBytes(entries[1..])))
  }

  // ---- Reading ----

  datatype ReadError = UnexpectedEnd | NegativeLength | InvalidUtf8 | UnsupportedType(tagType: byte) | RootNotCompound

  datatype Parsed<+T> = Parsed(value: T, rest: bytes)

  function Take(s: bytes, n: nat): (r: Result<Parsed<bytes>, ReadError>)
    ensures r.Ok? <==> n <= |s|
    ensures r.Ok? ==> |r.value.value| == n && s == r.value.value + r.value.rest
  {
    if n > |s| then Err(UnexpectedEnd) else Ok(Parsed(s[..n], s[n..]))
  }

  function ReadLength(s: bytes): (r: Result<Parsed<nat>, ReadError>)
    ensures r.Ok? ==> |r.value.rest| == |s| - 4 && r.value.value <= I32_MAX
  {
    var p :- Take(s, 4);
    var v: int := ToI32(FromBE32(p.value));
    if v < 0 then Err(NegativeLength) else Ok(Parsed(v, p.rest))
  }

  function ReadText(s: bytes): (r: Result<Parsed<bytes>, ReadError>)
    ensures r.Ok? ==> ValidUtf8(r.value.value) && |r.value.value| < 0x1_0000
    ensures r.Ok? ==> |r.value.rest| == |s| - 2 - |r.value.value|
  {
    var size :- Take(s, 2);
    var text :- Take(size.rest, FromBE16(size.value));
    if ValidUtf8(text.value) then Ok(text) else Err(InvalidUtf8)
  }

  function ReadInts(s: bytes, n: nat): (r: Result<Parsed<seq<i32>>, ReadError>)
    ensures r.Ok? ==> |r.value.rest| == |s| - 4 * n && |r.value.value| == n
    decreases n
  {
    if n == 0 then Ok(Parsed([], s))
    else
      var first :- Take(s, 4);
      var more :- ReadInts(first.rest, n - 1);
      Ok(Parsed([ToI32(FromBE32(first.value))] + more.value, more.rest))
  }

  /** Scalars: a fixed number of bytes, then a value. */
  function ReadScalar(tagType: byte, s: bytes): (r: Result<Parsed<Tag>, ReadError>)
    requires 1 <= tagType <= 6
    ensures r.Ok? ==> |r.value.rest| < |s| && TypeOf(r.value.value) == tagType
  {
    match tagType
    case 1 =>
      var p :- Take(s, 1);
      var v: int := p.value[0];
      Ok(Parsed(Byte(if v >= 0x80 then v - 0x100 else v), p.rest))
    case 2 =>
      var p :- Take(s, 2);
      var v: int := FromBE16(p.value);
      Ok(Parsed(Short(if v >= 0x8000 then v - 0x1_0000 else v), p.rest))
    case 3 => var p :- Take(s, 4); Ok(Parsed(Int(ToI32(FromBE32(p.value))), p.rest))
    case 4 =>
      var p :- Take(s, 8);
      var v: int := FromBE64(p.value);
      Ok(Parsed(Long(if v >= 0x8000_0000_0000_0000 then v - 0x1_0000_0000_0000_0000 else v), p.rest))
    case 5 => var p :- Take(s, 4); Ok(Parsed(Float(FromBE32(p.value)), p.rest))
    case _ => var p :- Take(s, 8); Ok(Parsed(Double(FromBE64(p.value)), p.rest))
  }

  /** Reads one payload; every success consumes at least one byte, so reading always ends. */
  function ReadPayload(tagType: byte, s: bytes): (r: Result<Parsed<Tag>, ReadError>)
    ensures r.Ok? ==> |r.value.rest| < |s| && TypeOf(r.value.value) == tagType
    decreases |s|, 1
  {
    if 1 <= tagType <= 6 then ReadScalar(tagType, s)
    else if tagType == 7 then
      var size :- ReadLength(s);
      var content :- Take(size.rest, size.value);
      Ok(Parsed(ByteArray(content.value), content.rest))
    else if tagType == 8 then
      var text :- ReadText(s);
      Ok(Parsed(String(text.value), text.rest))
    else if tagType == 9 then
      var element :- Take(s, 1);
      var size :- ReadLength(element.rest);
      var items :- ReadItems(element.value[0], size.value, size.rest);
      Ok(Parsed(List(element.value[0], items.value), items.rest))
    else if tagType == 10 then
      var entries :- ReadEntries(s, []);
      Ok(Parsed(Compound(entries.value), entries.rest))
    else if tagType == 11 then
      var size :- ReadLength(s);
      var ints :- ReadInts(size.rest, size.value);
      Ok(Parsed(IntArray(ints.value), ints.rest))
    else Err(UnsupportedType(tagType))
  }

  function ReadItems(element: byte, n: nat, s: bytes): (r: Result<Parsed<seq<Tag>>, ReadError>)
    ensures r.Ok? ==> |r.value.rest| <= |s| && |r.value.value| == n
    decreases |s|, 2
  {
    if n == 0 then Ok(Parsed([], s))
    else
      var first :- ReadPayload(element, s);
      var more :- ReadItems(element, n - 1, first.rest);
      Ok(Parsed([first.value] + more.value, more.rest))
  }

  function ReadEntries(s: bytes, done: seq<Entry>): (r: Result<Parsed<seq<Entry>>, ReadError>)
    ensures r.Ok? ==> |r.value.rest| < |s|
    decreases |s|, 0
  {
    var child :- Take(s, 1);
    if child.value[0] == 0 then Ok(Parsed(done, child.rest))
    else
      var name :- ReadText(child.rest);
      var value :- ReadPayload(child.value[0], name.rest);
      ReadEntries(value.rest, Put(done, Entry(name.value, value.value)))
  }

  // ---- What the reader returns ----

  /** Everything the types demand, everything the writer demands, and lists that keep their word. */
  predicate Sound(t: Tag) { Representable(t) && Writable(t) && ListsMatch(t) }

  predicate SoundEntry(e: Entry) { ValidUtf8(e.name) && |e.name| < 0x1_0000 && Sound(e.value) }

  lemma {:induction false} ReadIsSound(tagType: byte, s: bytes)
    requires ReadPayload(tagType, s).Ok?
    ensures Sound(ReadPayload(tagType, s).value.value)
    decreases |s|, 1
  {
    if tagType == 9 {
      var element := Take(s, 1).value;
      var size := ReadLength(element.rest).value;
      ReadItemsAreSound(element.value[0], size.value, size.rest);
    } else if tagType == 10 {
      ReadEntriesAreSound(s, []);
      var entries := ReadEntries(s, []).value.value;
      assert forall e <- entries :: SoundEntry(e);
    }
  }

  lemma {:induction false} ReadItemsAreSound(element: byte, n: nat, s: bytes)
    requires ReadItems(element, n, s).Ok?
    ensures forall x <- ReadItems(element, n, s).value.value :: Sound(x) && TypeOf(x) == element
    decreases |s|, 2
  {
    if n > 0 {
      var first := ReadPayload(element, s).value;
      ReadIsSound(element, s);
      ReadItemsAreSound(element, n - 1, first.rest);
    }
  }

  lemma {:induction false} ReadEntriesAreSound(s: bytes, done: seq<Entry>)
    requires ReadEntries(s, done).Ok? && Ascending(done) && forall e <- done :: SoundEntry(e)
    ensures Ascending(ReadEntries(s, done).value.value)
    ensures forall e <- ReadEntries(s, done).value.value :: SoundEntry(e)
    decreases |s|, 0
  {
    var child := Take(s, 1).value;
    if child.value[0] != 0 {
      var name := ReadText(child.rest).value;
      var value := ReadPayload(child.value[0], name.rest).value;
      ReadIsSound(child.value[0], name.rest);
      PutKeepsAscending(done, Entry(name.value, value.value));
      ReadEntriesAreSound(value.rest, Put(done, Entry(name.value, value.value)));
    }
  }

  // ---- The round trip ----

  lemma TakePrefix(a: bytes, b: bytes)
    ensures Take(a + b, |a|) == Ok(Parsed(a, b))
  {
    Split(a, b);
  }

  lemma LengthReadsBack(n: nat, rest: bytes)
    requires n <= I32_MAX
    ensures ReadLength(BE32(n) + rest) == Ok(Parsed(n, rest))
  {
    TakePrefix(BE32(n), rest);
    BE32RoundTrip(n);
  }

  lemma TextReadsBack(text: bytes, rest: bytes)
    requires ValidUtf8(text) && |text| < 0x1_0000
    ensures ReadText(TextBytes(text) + rest) == Ok(Parsed(text, rest))
  {
    Assoc(BE16(|text|), text, rest);
    TakePrefix(BE16(|text|), text + rest);
    BE16RoundTrip(|text|);
    TakePrefix(text, rest);
  }

  lemma {:induction false} IntsReadBack(ints: seq<i32>, rest: bytes)
    ensures ReadInts(IntsBytes(ints) + rest, |ints|) == Ok(Parsed(ints, rest))
    decreases |ints|
  {
    if ints == [] {
      assert IntsBytes(ints) + rest == rest;
    } else {
      var first, more := BE32(FromI32(ints[0])), IntsBytes(ints[1..]);
      Assoc(first, more, rest);
      TakePrefix(first, more + rest);
      BE32RoundTrip(FromI32(ints[0]));
      IntsReadBack(ints[1..], rest);
      assert [ints[0]] + ints[1..] == ints;
    }
  }

  lemma ScalarReadsBack(t: Tag, rest: bytes)
    requires 1 <= TypeOf(t) <= 6 && Writable(t)
    ensures ReadScalar(TypeOf(t), Payload(t) + rest) == Ok(Parsed(t, rest))
  {
    TakePrefix(Payload(t), rest);
    match t
    case Byte(v) =>
    case Short(v) => BE16RoundTrip(if v < 0 then v + 0x1_0000 else v);
    case Int(v) => BE32RoundTrip(FromI32(v));
    case Long(v) => BE64RoundTrip(if v < 0 then v + 0x1_0000_0000_0000_0000 else v);
    case Float(bits) => BE32RoundTrip(bits);
    case Double(bits) => BE64RoundTrip(bits);
  }

  lemma ArrayReadsBack(t: Tag, rest: bytes)
    requires Writable(t) && (t.ByteArray? || t.IntArray?)
    ensures ReadPayload(TypeOf(t), Payload(t) + rest) == Ok(Parsed(t, rest))
  {
    if t.ByteArray? {
      Assoc(BE32(|t.content|), t.content, rest);
      LengthReadsBack(|t.content|, t.content + rest);
      TakePrefix(t.content, rest);
    } else {
      Assoc(BE32(|t.ints|), IntsBytes(t.ints), rest);
      LengthReadsBack(|t.ints|, IntsBytes(t.ints) + rest);
      IntsReadBack(t.ints, rest);
    }
  }

  /** Reading what was written returns the tag and leaves exactly what follows it. */
  lemma {:induction false} PayloadReadsBack(t: Tag, rest: bytes)
    requires Sound(t)
    ensures ReadPayload(TypeOf(t), Payload(t) + rest) == Ok(Parsed(t, rest))
    decreases t
  {
    match t
    case ByteArray(content) => ArrayReadsBack(t, rest);
    case String(text) => TextReadsBack(text, rest);
    case List(element, items) => ListReadsBack(t, rest);
    case Compound(entries) => CompoundReadsBack(t, rest);
    case IntArray(ints) => ArrayReadsBack(t, rest);
    case _ => ScalarReadsBack(t, rest);
  }

  lemma SoundEntries(t: Tag)
    requires Sound(t) && t.Compound?
    ensures Ascending(t.entries) && Payload(t) == EntriesBytes(t.entries)
    ensures forall i :: 0 <= i < |t.entries| ==> SoundEntry(t.entries[i])
  {
    assert forall i :: 0 <= i < |t.entries| ==> t.entries[i] in t.entries;
  }

  lemma CompoundIsRead(s: bytes, entries: seq<Entry>, rest: bytes)
    requires ReadEntries(s, []) == Ok(Parsed(entries, rest))
    ensures ReadPayload(10, s) == Ok(Parsed(Compound(entries), rest))
  {
  }

  lemma {:induction false} CompoundReadsBack(t: Tag, rest: bytes)
    requires Sound(t) && t.Compound?
    ensures ReadPayload(10, Payload(t) + rest) == Ok(Parsed(t, rest))
    decreases t, 0
  {
    SoundEntries(t);
    assert [] + t.entries == t.entries;
    EntriesReadBack([], t.entries, rest);
    CompoundIsRead(Payload(t) + rest, t.entries, rest);
  }

  lemma {:induction false} ListReadsBack(t: Tag, rest: bytes)
    requires Sound(t) && t.List?
    ensures ReadPayload(9, Payload(t) + rest) == Ok(Parsed(t, rest))
    decreases t, 0
  {
    var items := t.items;
    var tail := ItemsBytes(items) + rest;
    Assoc([t.element], BE32(|items|) + ItemsBytes(items), rest);
    Assoc(BE32(|items|), ItemsBytes(items), rest);
    TakePrefix([t.element], BE32(|items|) + tail);
    LengthReadsBack(|items|, tail);
    ItemsReadBack(t.element, items, rest);
  }

  lemma {:induction false} ItemsReadBack(element: byte, items: seq<Tag>, rest: bytes)
    requires forall i :: 0 <= i < |items| ==> Sound(items[i]) && TypeOf(items[i]) == element
    requires forall x <- items :: Writable(x)
    ensures ReadItems(element, |items|, ItemsBytes(items) + rest) == Ok(Parsed(items, rest))
    decreases items
  {
    if items == [] {
      assert ItemsBytes(items) + rest == rest;
    } else {
      var more := ItemsBytes(items[1..]);
      Assoc(Payload(items[0]), more, rest);
      PayloadReadsBack(items[0], more + rest);
      ItemsReadBack(element, items[1..], rest);
      assert [items[0]] + items[1..] == items;
    }
  }

  lemma EntriesSplit(entries: seq<Entry>, rest: bytes)
    requires entries != [] && forall e <- entries :: |e.name| < 0x1_0000 && Writable(e.value)
    ensures
      var e, more := entries[0], EntriesBytes(entries[1..]);
      EntriesBytes(entries) + rest == [TypeOf(e.value)] + (TextBytes(e.name) + (Payload(e.value) + (more + rest)))
  {
    var e, more := entries[0], EntriesBytes(entries[1..]);
    Assoc([TypeOf(e.value)], TextBytes(e.name) + (Payload(e.value) + more), rest);
    Assoc(TextBytes(e.name), Payload(e.value) + more, rest);
    Assoc(Payload(e.value), more, rest);
  }

  lemma EntryReadsBack(done: seq<Entry>, e: Entry, more: bytes)
    requires SoundEntry(e) && forall i :: 0 <= i < |done| ==> Less(done[i].name, e.name)
    requires ReadPayload(TypeOf(e.value), Payload(e.value) + more) == Ok(Parsed(e.value, more))
    ensures ReadEntries([TypeOf(e.value)] + (TextBytes(e.name) + (Payload(e.value) + more)), done)
            == ReadEntries(more, done + [e])
  {
    TakePrefix([TypeOf(e.value)], TextBytes(e.name) + (Payload(e.value) + more));
    TextReadsBack(e.name, Payload(e.value) + more);
    PutAppends(done, e);
  }

  lemma {:induction false} EntriesReadBack(done: seq<Entry>, entries: seq<Entry>, rest: bytes)
    requires Ascending(done + entries) && forall i :: 0 <= i < |entries| ==> SoundEntry(entries[i])
    requires forall e <- entries :: |e.name| < 0x1_0000 && Writable(e.value)
    ensures ReadEntries(EntriesBytes(entries) + rest, done) == Ok(Parsed(done + entries, rest))
    decreases entries
  {
    if entries == [] {
      TakePrefix([0], rest);
      assert done + entries == done;
    } else {
      var e, more := entries[0], EntriesBytes(entries[1..]) + rest;
      EntriesSplit(entries, rest);
      PayloadReadsBack(e.value, more);
      forall i | 0 <= i < |done| ensures Less(done[i].name, e.name) {
        assert (done + entries)[i] == done[i] && (done + entries)[|done|] == e;
      }
      EntryReadsBack(done, e, more);
      assert done + [e] + entries[1..] == done + entries;
      EntriesReadBack(done + [e], entries[1..], rest);
    }
  }

  /**
   * For any tag the writer accepts, the round trip succeeds if and only if every list holds
   * elements of its declared type.
   */
  lemma RoundTripIff(t: Tag, rest: bytes)
    requires Representable(t) && Writable(t)
    ensures ReadPayload(TypeOf(t), Payload(t) + rest) == Ok(Parsed(t, rest)) <==> ListsMatch(t)
  {
    if ListsMatch(t) {
      PayloadReadsBack(t, rest);
    }
    if ReadPayload(TypeOf(t), Payload(t) + rest) == Ok(Parsed(t, rest)) {
      ReadIsSound(TypeOf(t), Payload(t) + rest);
    }
  }

  // ---- Self-delimiting reads ----

  /** The same outcome, with `more` left over as well. */
  function Longer<T>(r: Result<Parsed<T>, ReadError>, more: bytes): Result<Parsed<T>, ReadError> {
    if r.Err? then r else Ok(Parsed(r.value.value, r.value.rest + more))
  }

  lemma TakeLonger(s: bytes, n: nat, more: bytes)
    requires n <= |s|
    ensures Take(s + more, n) == Longer(Take(s, n), more)
  {
    assert (s + more)[..n] == s[..n] && (s + more)[n..] == s[n..] + more;
  }

  lemma LengthLonger(s: bytes, more: bytes)
    requires ReadLength(s).Ok?
    ensures ReadLength(s + more) == Longer(ReadLength(s), more)
  {
    TakeLonger(s, 4, more);
  }

  lemma TextLonger(s: bytes, more: bytes)
    requires ReadText(s).Ok?
    ensures ReadText(s + more) == Longer(ReadText(s), more)
  {
    TakeLonger(s, 2, more);
    var size := Take(s, 2).value;
    TakeLonger(size.rest, FromBE16(size.value), more);
  }

  lemma {:induction false} IntsLonger(s: bytes, n: nat, more: bytes)
    requires ReadInts(s, n).Ok?
    ensures ReadInts(s + more, n) == Longer(ReadInts(s, n), more)
    decreases n
  {
    if n > 0 {
      TakeLonger(s, 4, more);
      IntsLonger(Take(s, 4).value.rest, n - 1, more);
    }
  }

  lemma ScalarLonger(tagType: byte, s: bytes, more: bytes)
    requires 1 <= tagType <= 6 && ReadScalar(tagType, s).Ok?
    ensures ReadScalar(tagType, s + more) == Longer(ReadScalar(tagType, s), more)
  {
    TakeLonger(s, if tagType == 1 then 1 else if tagType == 2 then 2 else if tagType == 3 || tagType ==
        5 then 4 else 8, more);
  }

  /** A payload ends where it ends: bytes that follow never change how it is read. */
  lemma {:induction false} PayloadIsSelfDelimiting(tagType: byte, s: bytes, more: bytes)
    requires ReadPayload(tagType, s).Ok?
    ensures ReadPayload(tagType, s + more) == Longer(ReadPayload(tagType, s), more)
    decreases |s|, 1
  {
    if 1 <= tagType <= 6 {
      ScalarLonger(tagType, s, more);
    } else if tagType == 8 {
      TextLonger(s, more);
    } else if tagType == 9 {
      TakeLonger(s, 1, more);
      var element := Take(s, 1).value;
      LengthLonger(element.rest, more);
      var size := ReadLength(element.rest).value;
      ItemsLonger(element.value[0], size.value, size.rest, more);
    } else if tagType == 10 {
      EntriesLonger(s, [], more);
    } else {
      LengthLonger(s, more);
      var size := ReadLength(s).value;
      if tagType == 7 {
        TakeLonger(size.rest, size.value, more);
      } else {
        IntsLonger(size.rest, size.value, more);
      }
    }
  }

  lemma {:induction false} ItemsLonger(element: byte, n: nat, s: bytes, more: bytes)
    requires ReadItems(element, n, s).Ok?
    ensures ReadItems(element, n, s + more) == Longer(ReadItems(element, n, s), more)
    decreases |s|, 2
  {
    if n > 0 {
      PayloadIsSelfDelimiting(element, s, more);
      ItemsLonger(element, n - 1, ReadPayload(element, s).value.rest, more);
    }
  }

  lemma {:induction false} EntriesLonger(s: bytes, done: seq<Entry>, more: bytes)
    requires ReadEntries(s, done).Ok?
    ensures ReadEntries(s + more, done) == Longer(ReadEntries(s, done), more)
    decreases |s|, 0
  {
    TakeLonger(s, 1, more);
    var child := Take(s, 1).value;
    if child.value[0] != 0 {
      TextLonger(child.rest, more);
      var name := ReadText(child.rest).value;
      PayloadIsSelfDelimiting(child.value[0], name.rest, more);
      var value := ReadPayload(child.value[0], name.rest).value;
      EntriesLonger(value.rest, Put(done, Entry(name.value, value.value)), more);
    }
  }

  // ---- Whole files ----

  function NamedBytes(tagType: byte, name: bytes, t: Tag): bytes
    requires |name| < 0x1_0000 && Writable(t)
  {
    [tagType] + (TextBytes(name) + Payload(t))
  }

  function ReadNbt(s: bytes): Result<Tag, ReadError> {
    var tagType :- Take(s, 1);
    if tagType.value[0] != 10 then Err(RootNotCompound)
    else
      var name :- ReadText(tagType.rest);
      var root :- ReadPayload(10, name.rest);
      Ok(root.value)
  }

  /** A compound written as a root is read back, whatever its name and whatever follows. */
  lemma RootReadsBack(name: bytes, t: Tag, rest: bytes)
    requires ValidUtf8(name) && |name| < 0x1_0000 && Sound(t) && t.Compound?
    ensures ReadNbt(NamedBytes(10, name, t) + rest) == Ok(t)
  {
    var body := TextBytes(name) + (Payload(t) + rest);
    Assoc([10], TextBytes(name) + Payload(t), rest);
    Assoc(TextBytes(name), Payload(t), rest);
    TakePrefix([10], body);
    TextReadsBack(name, Payload(t) + rest);
    PayloadReadsBack(t, rest);
  }

  /** Rewriting a file that was read loses nothing: it reads back as the same tag. */
  lemma RewritingIsStable(s: bytes, name: bytes)
    requires ReadNbt(s).Ok? && ValidUtf8(name) && |name| < 0x1_0000
    ensures Writable(ReadNbt(s).value) && ReadNbt(NamedBytes(10, name, ReadNbt(s).value)) == ReadNbt(s)
  {
    var root := Take(s, 1).value;
    var text := ReadText(root.rest).value;
    ReadIsSound(10, text.rest);
    var t := ReadNbt(s).value;
    RootReadsBack(name, t, []);
    assert NamedBytes(10, name, t) + [] == NamedBytes(10, name, t);
  }
}
