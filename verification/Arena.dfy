/**
 * The shared transfer arena: a lock-free bump allocator used by any number of threads, the
 * reservations they fill, the regions they seal, and the reader in the other process.
 *
 * Atomic operations are separate steps. A relaxed load may return any value the counter ever had,
 * and the weak compare-exchange may fail for no reason.
 */
module Arena {
  import opened Wrappers
  import opened Bytes

  const ALIGNMENT := 8

  /** Rounds up to the alignment, if that fits the machine word. */
  function AlignUp(value: nat): (r: Option<nat>)
    ensures r.Some? ==> value <= r.value < value + ALIGNMENT && r.value % ALIGNMENT == 0
    ensures r.None? <==> value + (ALIGNMENT - 1) > USIZE_MAX
  {
    if value + 7 > USIZE_MAX then None else Some((value + 7) / 8 * 8)
  }

  /** A thread inside `reserve`: what it asked for and the counter value it last observed. */
  datatype Attempt = Attempt(length: usize, current: nat)

  /** A reservation; `content` is what its owner has written so far. */
  datatype Reservation = Reservation(offset: nat, capacity: nat, content: bytes, owned: bool)

  /** A sealed region, and the number of the reservation it was. */
  datatype Region = Region(offset: nat, content: bytes, source: nat)

  datatype State = State(
    capacity: nat,
    memory: bytes,
    history: seq<nat>,              // every value of the counter, oldest first
    attempts: map<nat, Attempt>,    // by thread
    reservations: seq<Reservation>,
    sealedRegions: seq<Region>,
    refused: seq<Attempt>,          // attempts answered with CapacityExhausted
    published: nat)                 // the reader's boundary

  /** The counter, as `used` reports it. */
  function Used(s: State): nat
    requires s.history != []
  {
    s.history[|s.history| - 1]
  }

  datatype Action =
    | Load(thread: nat, length: usize, seen: nat)        // `seen` indexes the history
    | Exchange(thread: nat, spurious: bool, seen: nat)
    | Write(reservation: nat, buffer: bytes)
    | Seal(reservation: nat)
    | SealWritten(reservation: nat)
    | AdvancePublished(boundary: nat)

  /** Where an attempt would place its region, if it fits at the value it observed. */
  function Placement(capacity: nat, a: Attempt): (r: Option<nat>)
    ensures r.Some? ==> r.value % ALIGNMENT == 0 && a.current <= r.value && r.value + a.length <= capacity
  {
    var aligned := AlignUp(a.current);
    if aligned.None? || aligned.value + a.length > USIZE_MAX || aligned.value + a.length > capacity then None
    else aligned
  }

  function Overwrite(memory: bytes, at: nat, buffer: bytes): (r: bytes)
    requires at + |buffer| <= |memory|
    ensures |r| == |memory|
    ensures forall i :: 0 <= i < |memory| ==>
              r[i] == if at <= i < at + |buffer| then buffer[i - at] else memory[i]
  {
    memory[..at] + buffer + memory[at + |buffer|..]
  }

  function End(r: Reservation): nat { r.offset + r.capacity }

  ghost predicate WellFormed(s: State) {
    && s.history != []
    && s.published <= s.capacity == |s.memory|
    && (forall i :: 0 <= i < |s.reservations| ==> WithinBounds(s.capacity, s.reservations[i]))
  }

  ghost predicate WithinBounds(capacity: nat, r: Reservation) {
    |r.content| <= r.capacity && End(r) <= capacity
  }

  /** One atomic step; an action that does not apply changes nothing. */
  function Step(s: State, a: Action): State
    requires WellFormed(s)
  {
    match a
    case Load(thread, length, seen) =>
      if thread in s.attempts || seen >= |s.history| then s
      else s.(attempts := s.attempts[thread := Attempt(length, s.history[seen])])
    case Exchange(thread, spurious, seen) =>
      if thread !in s.attempts then s else
      var attempt := s.attempts[thread];
      var placed := Placement(s.capacity, attempt);
      if placed.None? then
        s.(attempts := s.attempts - {thread}, refused := s.refused + [attempt])
      else if !spurious && attempt.current == Used(s) then
        s.(history := s.history + [placed.value + attempt.length],
           attempts := s.attempts - {thread},
           reservations := s.reservations + [Reservation(placed.value, attempt.length, [], true)])
      else if seen >= |s.history| then s
      else s.(attempts := s.attempts[thread := attempt.(current := s.history[seen])])
    case Write(i, buffer) =>
      if i >= |s.reservations| || !s.reservations[i].owned then s else
      var r := s.reservations[i];
      assert WithinBounds(s.capacity, r);
      if |buffer| > r.capacity - |r.content| then s
      else s.(memory := Overwrite(s.memory, r.offset + |r.content|, buffer),
              reservations := s.reservations[i := r.(content := r.content + buffer)])
    case Seal(i) =>
      if i >= |s.reservations| || !s.reservations[i].owned then s else
      var r := s.reservations[i];
      // Sealing consumes the write authority even when it is refused as incomplete.
      var s1 := s.(reservations := s.reservations[i := r.(owned := false)]);
      if |r.content| != r.capacity then s1
      else s1.(sealedRegions := s1.sealedRegions + [Region(r.offset, r.content, i)])
    case SealWritten(i) =>
      if i >= |s.reservations| || !s.reservations[i].owned then s else
      var r := s.reservations[i];
      s.(reservations := s.reservations[i := r.(owned := false)],
         sealedRegions := s.sealedRegions + [Region(r.offset, r.content, i)])
    case AdvancePublished(boundary) =>
      if boundary < s.published || boundary > s.capacity then s else s.(published := boundary)
  }

  /** What the reader returns for a range. */
  function ReadRegion(s: State, offset: nat, length: nat): Option<bytes>
    requires WellFormed(s)
  {
    if offset + length > USIZE_MAX || offset + length > s.published then None
    else Some(s.memory[offset..offset + length])
  }

  function Create(capacity: nat, memory: bytes): State { State(capacity, memory, [0], map[], [], [], [], 0) }

  // ---- The invariant ----

  ghost predicate Disjoint(a: Reservation, b: Reservation) { End(a) <= b.offset || End(b) <= a.offset }

  ghost predicate ReservationOk(s: State, r: Reservation)
    requires WellFormed(s)
  {
    && r.offset % ALIGNMENT == 0
    && End(r) <= Used(s)
    && WithinBounds(s.capacity, r)
    && s.memory[r.offset..r.offset + |r.content|] == r.content
  }

  /** A sealed region is the content of a reservation that nobody can write any more. */
  ghost predicate SealedBy(g: Region, r: Reservation) {
    !r.owned && g.offset == r.offset && g.content == r.content
  }

  ghost predicate RegionOk(s: State, g: Region) {
    g.source < |s.reservations| && SealedBy(g, s.reservations[g.source])
  }

  ghost predicate Inv(s: State) {
    && WellFormed(s)
    && Used(s) <= s.capacity
    && (forall i, j :: 0 <= i < j < |s.history| ==> s.history[i] <= s.history[j])
    && (forall i :: 0 <= i < |s.reservations| ==> ReservationOk(s, s.reservations[i]))
    && (forall i, j :: 0 <= i < j < |s.reservations| ==> Disjoint(s.reservations[i], s.reservations[j]))
    && (forall k :: 0 <= k < |s.sealedRegions| ==> RegionOk(s, s.sealedRegions[k]))
    && (forall k, l :: 0 <= k < l < |s.sealedRegions| ==> s.sealedRegions[k].source != s.sealedRegions[l].source)
  }

  lemma CreateInv(capacity: nat, memory: bytes)
    requires |memory| == capacity
    ensures Inv(Create(capacity, memory))
  {
  }

  lemma RegionsSurvive(s: State, s': State)
    requires forall k :: 0 <= k < |s.sealedRegions| ==> RegionOk(s, s.sealedRegions[k])
    requires |s.reservations| <= |s'.reservations|
    requires forall i :: 0 <= i < |s.reservations| && !s.reservations[i].owned ==>
            s'.reservations[i] == s.reservations[i]
    ensures forall k :: 0 <= k < |s.sealedRegions| ==> RegionOk(s', s.sealedRegions[k])
  {
    forall k | 0 <= k < |s.sealedRegions| ensures RegionOk(s', s.sealedRegions[k]) {
      assert RegionOk(s, s.sealedRegions[k]);
    }
  }

  /** A successful exchange places the new reservation after every earlier one. */
  lemma ExchangeKeeps(s: State, thread: nat, spurious: bool, seen: nat)
    requires Inv(s)
    ensures Inv(Step(s, Exchange(thread, spurious, seen)))
  {
    RegionsSurvive(s, Step(s, Exchange(thread, spurious, seen)));
  }

  /** Writing into one reservation leaves the content of every other where it was. */
  lemma WriteKeeps(s: State, i: nat, buffer: bytes)
    requires Inv(s) && i < |s.reservations| && s.reservations[i].owned
    requires |s.reservations[i].content| + |buffer| <= s.reservations[i].capacity
    ensures Inv(Step(s, Write(i, buffer)))
  {
    var s' := Step(s, Write(i, buffer));
    var r := s.reservations[i];
    assert ReservationOk(s, r);
    forall j | 0 <= j < |s'.reservations| ensures ReservationOk(s', s'.reservations[j]) {
      var other := s.reservations[j];
      assert ReservationOk(s, other);
      if j == i {
        ContentExtends(s.memory, r.offset, r.content, buffer);
      } else {
        assert Disjoint(other, r) by {
          if i < j { assert Disjoint(s.reservations[i], s.reservations[j]); }
          else { assert Disjoint(s.reservations[j], s.reservations[i]); }
        }
        assert s'.memory[other.offset..other.offset + |other.content|] ==
               s.memory[other.offset..other.offset + |other.content|];
      }
    }
    forall j, k | 0 <= j < k < |s'.reservations| ensures Disjoint(s'.reservations[j], s'.reservations[k]) {
      assert Disjoint(s.reservations[j], s.reservations[k]);
    }
    RegionsSurvive(s, s');
  }

  lemma ContentExtends(memory: bytes, offset: nat, content: bytes, buffer: bytes)
    requires offset + |content| + |buffer| <= |memory| && memory[offset..offset + |content|] == content
    ensures
      var r := Overwrite(memory, offset + |content|, buffer);
      r[offset..offset + |content + buffer|] == content + buffer
  {
    var r := Overwrite(memory, offset + |content|, buffer);
    forall k | 0 <= k < |content| ensures r[offset + k] == content[k] {
      assert memory[offset..offset + |content|][k] == content[k];
    }
  }

  /** Giving up write authority changes nothing else. */
  lemma DisownKeeps(s: State, i: nat)
    requires Inv(s) && i < |s.reservations| && s.reservations[i].owned
    ensures Inv(s.(reservations := s.reservations[i := s.reservations[i].(owned := false)]))
  {
    var s' := s.(reservations := s.reservations[i := s.reservations[i].(owned := false)]);
    forall j | 0 <= j < |s'.reservations| ensures ReservationOk(s', s'.reservations[j]) {
      assert ReservationOk(s, s.reservations[j]);
    }
    forall j, k | 0 <= j < k < |s'.reservations| ensures Disjoint(s'.reservations[j], s'.reservations[k]) {
      assert Disjoint(s.reservations[j], s.reservations[k]);
    }
    RegionsSurvive(s, s');
  }

  lemma RegionKeeps(s: State, i: nat)
    requires Inv(s) && i < |s.reservations| && !s.reservations[i].owned
    requires forall k :: 0 <= k < |s.sealedRegions| ==> s.sealedRegions[k].source != i
    ensures Inv(s.(sealedRegions := s.sealedRegions + [Region(s.reservations[i].offset, s.reservations[i].content, i)]))
  {
    var g := Region(s.reservations[i].offset, s.reservations[i].content, i);
    var s' := s.(sealedRegions := s.sealedRegions + [g]);
    RegionsSurvive(s, s');
    assert RegionOk(s', g);
  }

  lemma SealKeeps(s: State, i: nat, whole: bool)
    requires Inv(s) && i < |s.reservations| && s.reservations[i].owned
    ensures Inv(Step(s, if whole then Seal(i) else SealWritten(i)))
  {
    DisownKeeps(s, i);
    forall k | 0 <= k < |s.sealedRegions| ensures s.sealedRegions[k].source != i {
      assert RegionOk(s, s.sealedRegions[k]);
    }
    RegionKeeps(s.(reservations := s.reservations[i := s.reservations[i].(owned := false)]), i);
  }

  /** Every step of every thread, writer and reader keeps the invariant. */
  lemma StepKeeps(s: State, a: Action)
    requires Inv(s)
    ensures Inv(Step(s, a))
  {
    match a
    case Load(_, _, _) => RegionsSurvive(s, Step(s, a));
    case Exchange(thread, spurious, seen) => ExchangeKeeps(s, thread, spurious, seen);
    case Write(i, buffer) =>
      if i < |s.reservations| && s.reservations[i].owned {
        assert ReservationOk(s, s.reservations[i]);
        if |buffer| <= s.reservations[i].capacity - |s.reservations[i].content| {
          WriteKeeps(s, i, buffer);
        }
      }
    case Seal(i) =>
      if i < |s.reservations| && s.reservations[i].owned {
        SealKeeps(s, i, true);
      }
    case SealWritten(i) =>
      if i < |s.reservations| && s.reservations[i].owned {
        SealKeeps(s, i, false);
      }
    case AdvancePublished(_) => RegionsSurvive(s, Step(s, a));
  }

  ghost predicate Reaches(s: State, actions: seq<Action>, s': State)
    decreases |actions|
  {
    if actions == [] then s' == s
    else WellFormed(s) && Reaches(Step(s, actions[0]), actions[1..], s')
  }

  // ---- The theorems ----

  lemma StepMovesForward(s: State, a: Action)
    requires Inv(s)
    ensures Used(s) <= Used(Step(s, a)) && s.published <= Step(s, a).published
    ensures s.sealedRegions <= Step(s, a).sealedRegions
    ensures Step(s, a).capacity == s.capacity
  {
  }

  /** Over any run, neither the counter nor the published boundary decreases, and a sealed region stays sealed. */
  lemma {:induction false} RunMovesForward(s: State, actions: seq<Action>, s': State)
    requires Inv(s) && Reaches(s, actions, s')
    ensures Inv(s') && Used(s) <= Used(s') && s.published <= s'.published
    ensures s.sealedRegions <= s'.sealedRegions && s'.capacity == s.capacity
    decreases |actions|
  {
    if actions != [] {
      StepKeeps(s, actions[0]);
      StepMovesForward(s, actions[0]);
      RunMovesForward(Step(s, actions[0]), actions[1..], s');
    }
  }

  /** For any interleaving: reservations are aligned, within capacity and pairwise disjoint. */
  lemma ReservationsAreDisjoint(capacity: nat, memory: bytes, actions: seq<Action>, s: State)
    requires |memory| == capacity && Reaches(Create(capacity, memory), actions, s)
    ensures forall i :: 0 <= i < |s.reservations| ==>
              s.reservations[i].offset % ALIGNMENT == 0 && End(s.reservations[i]) <= s.capacity == capacity
    ensures forall i, j :: 0 <= i < j < |s.reservations| ==> Disjoint(s.reservations[i], s.reservations[j])
  {
    CreateInv(capacity, memory);
    RunMovesForward(Create(capacity, memory), actions, s);
    forall i | 0 <= i < |s.reservations|
      ensures s.reservations[i].offset % ALIGNMENT == 0 && End(s.reservations[i]) <= s.capacity
    {
      assert ReservationOk(s, s.reservations[i]);
    }
  }

  lemma SealedBytesInMemory(s: State, k: nat)
    requires Inv(s) && k < |s.sealedRegions|
    ensures
      var g := s.sealedRegions[k];
      g.offset + |g.content| <= Used(s) && s.memory[g.offset..g.offset + |g.content|] == g.content
  {
    var g := s.sealedRegions[k];
    assert RegionOk(s, g);
    assert ReservationOk(s, s.reservations[g.source]);
  }

  /** Two sealed regions never share a byte. */
  lemma SealedRegionsAreDisjoint(s: State, k: nat, l: nat)
    requires Inv(s) && k < |s.sealedRegions| && l < |s.sealedRegions| && k != l
    ensures
      var g, h := s.sealedRegions[k], s.sealedRegions[l];
      && g.offset + |g.content| <= Used(s) && h.offset + |h.content| <= Used(s)
      && (g.offset + |g.content| <= h.offset || h.offset + |h.content| <= g.offset)
  {
    var g, h := s.sealedRegions[k], s.sealedRegions[l];
    assert RegionOk(s, g) && RegionOk(s, h);
    var a, b := s.reservations[g.source], s.reservations[h.source];
    assert ReservationOk(s, a) && ReservationOk(s, b);
    assert g.source != h.source;
    assert Disjoint(a, b) || Disjoint(b, a);
  }

  /**
   * Once sealed, a region's bytes never change again, whatever any thread does afterwards, and
   * once the published boundary covers it the reader returns exactly what its owner wrote.
   */
  lemma SealedRegionIsReadBack(s: State, actions: seq<Action>, s': State, k: nat)
    requires Inv(s) && Reaches(s, actions, s') && k < |s.sealedRegions| && s.capacity <= USIZE_MAX
    ensures
      var g := s.sealedRegions[k];
      && Inv(s') && g.offset + |g.content| <= |s.memory| == |s'.memory|
      && s'.memory[g.offset..g.offset + |g.content|] == s.memory[g.offset..g.offset + |g.content|] == g.content
      && (g.offset + |g.content| <= s'.published ==> ReadRegion(s', g.offset, |g.content|) == Some(g.content))
  {
    RunMovesForward(s, actions, s');
    assert s'.sealedRegions[k] == s.sealedRegions[k];
    SealedBytesInMemory(s, k);
    SealedBytesInMemory(s', k);
  }

  /** A refusal is justified: the request did not fit at a value the counter really had. */
  ghost predicate RefusalsJustified(s: State) {
    && (forall k :: 0 <= k < |s.refused| ==>
        s.refused[k].current in s.history && Placement(s.capacity, s.refused[k]).None?)
    && (forall t <- s.attempts :: s.attempts[t].current in s.history)
  }

  lemma {:induction false} RunJustifiesRefusals(s: State, actions: seq<Action>, s': State)
    requires Inv(s) && RefusalsJustified(s) && Reaches(s, actions, s')
    ensures RefusalsJustified(s')
    decreases |actions|
  {
    if actions != [] {
      StepKeeps(s, actions[0]);
      StepJustifiesRefusals(s, actions[0]);
      RunJustifiesRefusals(Step(s, actions[0]), actions[1..], s');
    }
  }

  lemma StepJustifiesRefusals(s: State, a: Action)
    requires Inv(s) && RefusalsJustified(s)
    ensures RefusalsJustified(Step(s, a))
  {
    var s' := Step(s, a);
    assert s.history <= s'.history;
    forall v | v in s.history ensures v in s'.history {
      var i :| 0 <= i < |s.history| && s.history[i] == v;
      assert s'.history[i] == v;
    }
  }

  /**
   * Since the counter only grows, a request refused at one of its values would be refused at
   * every later one as well: no attempt gives up while room for it remains.
   */
  lemma RefusalIsFinal(s: State, k: nat)
    requires Inv(s) && RefusalsJustified(s) && k < |s.refused| && s.capacity + 7 <= USIZE_MAX
    ensures Placement(s.capacity, s.refused[k].(current := Used(s))).None?
  {
    var a := s.refused[k];
    var i :| 0 <= i < |s.history| && s.history[i] == a.current;
    assert a.current <= Used(s);
    AlignUpIsMonotone(a.current, Used(s));
  }

  lemma AlignUpIsMonotone(a: nat, b: nat)
    requires a <= b && AlignUp(b).Some?
    ensures AlignUp(a).Some? && AlignUp(a).value <= AlignUp(b).value
  {
  }
}
