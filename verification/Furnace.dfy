/** The furnace: smelting one input at a time on burning fuel, and taking the output by hand. */
module Furnace {
  import opened Wrappers
  import opened Bytes

  const COOK_TOTAL := 200
  const STACK_LIMIT := 64

  const SAND := "minecraft:sand"
  const GLASS := "minecraft:glass"
  const COBBLESTONE := "minecraft:cobblestone"
  const STONE := "minecraft:stone"
  const STICK := "minecraft:stick"
  const OAK_PLANKS := "minecraft:oak_planks"
  const OAK_LOG := "minecraft:oak_log"

  type i16 = x: int | -0x8000 <= x < 0x8000

  datatype ItemStack = ItemStack(key: string, count: byte, damage: u16)

  type Slot = Option<ItemStack>

  datatype Property = BurnLeft | BurnMax | CookProgress | CookTotal

  type Properties = map<Property, i16>

  datatype Button = Left | Right

  function Get(p: Properties, k: Property): i16 { if k in p then p[k] else 0 }

  function SlotAt(slots: seq<Slot>, i: nat): Slot { if i < |slots| then slots[i] else None }

  /** What the input smelts to, if the output slot can take one more. */
  function AvailableOutput(slots: seq<Slot>): Option<ItemStack> {
    var input := SlotAt(slots, 0);
    if input.None? || input.value.count == 0 || (input.value.key != SAND && input.value.key != COBBLESTONE) then None
    else
      var output := ItemStack(if input.value.key == SAND then GLASS else STONE, 1, 0);
      var existing := SlotAt(slots, 2);
      if existing.None? || (existing.value.key == output.key && existing.value.count < STACK_LIMIT) then Some(output)
      else None
  }

  /** How long one piece of fuel burns. */
  function BurnTime(fuel: Slot): Option<i16> {
    if fuel.None? || fuel.value.count == 0 then None
    else if fuel.value.key == STICK then Some(100)
    else if fuel.value.key == OAK_PLANKS || fuel.value.key == OAK_LOG then Some(300)
    else None
  }

  /** One less, and an empty slot once nothing is left. */
  function Less(slot: Slot, taken: byte): Slot {
    if slot.None? then None
    else
      var left := SaturatingSub(slot.value.count, taken);
      if left == 0 then None else Some(slot.value.(count := left))
  }

  datatype State = State(slots: seq<Slot>, properties: Properties, cursor: Slot)

  // ---- Specification ----

  function Normalized(s: State): State {
    var p := s.properties[CookTotal := COOK_TOTAL];
    var p := if Get(p, BurnLeft) == 0 then p[BurnMax := 0] else p;
    var p := if AvailableOutput(s.slots).None? then p[CookProgress := 0] else p;
    s.(properties := p)
  }

  /** The fire burns down by one, and is lit again when there is something to smelt. */
  function Burned(s: State): State {
    var left := Get(s.properties, BurnLeft);
    var p := if left > 0 then s.properties[BurnLeft := left - 1] else s.properties;
    var time := BurnTime(SlotAt(s.slots, 1));
    if Get(p, BurnLeft) == 0 && AvailableOutput(s.slots).Some? && time.Some? then
      s.(properties := p[BurnLeft := time.value][BurnMax := time.value], slots := s.slots[1 := Less(s.slots[1], 1)])
    else s.(properties := p)
  }

  /** One input becomes one output. */
  function Smelted(slots: seq<Slot>, output: ItemStack): seq<Slot>
    requires slots != []
  {
    var slots := slots[0 := Less(slots[0], 1)];
    if |slots| <= 2 then slots
    else if slots[2].Some? && slots[2].value.key == output.key then
      slots[2 := Some(slots[2].value.(count := Min(slots[2].value.count as int + output.count as int, 255)))]
    else slots[2 := Some(output)]
  }

  function Cooked(s: State): State {
    var output := AvailableOutput(s.slots);
    if Get(s.properties, BurnLeft) <= 0 then
      s.(properties := s.properties[CookProgress := 0][BurnMax := 0])
    else if output.None? then s.(properties := s.properties[CookProgress := 0])
    else
      var progress := Min(Get(s.properties, CookProgress) as int + 1, 0x7FFF);
      if progress >= Get(s.properties, CookTotal) then
        s.(slots := Smelted(s.slots, output.value), properties := s.properties[CookProgress := 0])
      else s.(properties := s.properties[CookProgress := progress])
  }

  function Tick(s: State): State { Cooked(Burned(Normalized(s))) }

  /** Takes all or one of the output onto the cursor; nothing happens if the cursor cannot hold it. */
  function Taken(s: State, button: Button): (State, bool) {
    var output := SlotAt(s.slots, 2);
    if output.None? then (s, false) else
    var take := if button.Left? then output.value.count else 1;
    if take == 0 then (s, false)
    else if s.cursor.None? then
      (s.(cursor := Some(output.value.(count := take)), slots := s.slots[2 := Less(s.slots[2], take)]), true)
    else if s.cursor.value.key == output.value.key && s.cursor.value.count as int + take as int <= STACK_LIMIT then
      (s.(cursor := Some(s.cursor.value.(count := s.cursor.value.count + take)), slots :=
          s.slots[2 := Less(s.slots[2], take)]), true)
    else (s, false)
  }

  datatype Event = TickEvent | TakeEvent(button: Button) | NormalizeEvent

  function Step(s: State, e: Event): State {
    match e
    case TickEvent => Tick(s)
    case TakeEvent(button) => Taken(s, button).0
    case NormalizeEvent => Normalized(s)
  }

  function Run(s: State, events: seq<Event>): State
    decreases |events|
  {
    if events == [] then s else Run(Step(s, events[0]), events[1..])
  }

  // ---- What is counted ----

  function Count(slot: Slot): nat { if slot.None? then 0 else slot.value.count }

  function Items(s: State): nat { Count(SlotAt(s.slots, 0)) + Count(SlotAt(s.slots, 2)) + Count(s.cursor) }

  function TimeOf(fuel: Slot): nat { if BurnTime(fuel).Some? then BurnTime(fuel).value else 0 }

  /** Items that left the input slot in a step. */
  function StepSmelted(s: State, e: Event): int { Count(SlotAt(s.slots, 0)) - Count(SlotAt(Step(s, e).slots, 0)) }

  /** Burn time of the fuel that left the fuel slot in a step. */
  function StepFuel(s: State, e: Event): int {
    TimeOf(SlotAt(s.slots, 1)) * (Count(SlotAt(s.slots, 1)) - Count(SlotAt(Step(s, e).slots, 1)))
  }

  function RunSmelted(s: State, events: seq<Event>): int
    decreases |events|
  {
    if events == [] then 0 else StepSmelted(s, events[0]) + RunSmelted(Step(s, events[0]), events[1..])
  }

  function RunFuel(s: State, events: seq<Event>): int
    decreases |events|
  {
    if events == [] then 0 else StepFuel(s, events[0]) + RunFuel(Step(s, events[0]), events[1..])
  }

  // ---- The invariant ----

  ghost predicate Inv(s: State) {
    && |s.slots| == 3
    && (s.slots[2].Some? ==> s.slots[2].value.count <= STACK_LIMIT)
    && 0 <= Get(s.properties, BurnLeft) <= 300
    && 0 <= Get(s.properties, CookProgress) < COOK_TOTAL
  }

  /** Progress that can still be made on the fire now burning. */
  function Reserve(s: State): nat { SaturatingSub(Get(s.properties, BurnLeft), 1) }

  lemma NormalizedKeeps(s: State)
    requires Inv(s)
    ensures Inv(Normalized(s)) && Normalized(s).slots == s.slots && Normalized(s).cursor == s.cursor
    ensures Get(Normalized(s).properties, CookTotal) == COOK_TOTAL
    ensures Get(Normalized(s).properties, BurnLeft) == Get(s.properties, BurnLeft)
    ensures Get(Normalized(s).properties, CookProgress) <= Get(s.properties, CookProgress)
  {
  }

  /** Burning gains at most the time of the fuel consumed, minus one for the tick that passes. */
  lemma BurnedKeeps(s: State)
    requires Inv(s)
    ensures Inv(Burned(s)) && Burned(s).cursor == s.cursor
    ensures Get(Burned(s).properties, CookTotal) == Get(s.properties, CookTotal)
    ensures Get(Burned(s).properties, CookProgress) == Get(s.properties, CookProgress)
    ensures Burned(s).slots[0] == s.slots[0] && Burned(s).slots[2] == s.slots[2]
    ensures
      var fuel := TimeOf(s.slots[1]) * (Count(s.slots[1]) - Count(Burned(s).slots[1]));
      && fuel >= 0
      && (Get(Burned(s).properties, BurnLeft) > 0 ==> Reserve(Burned(s)) + 1 <= Reserve(s) + fuel)
      && Reserve(Burned(s)) <= Reserve(s) + fuel
  {
    if Burned(s).slots != s.slots {
      assert Count(s.slots[1]) - Count(Burned(s).slots[1]) == 1;
    }
  }

  lemma CookedKeeps(s: State)
    requires Inv(s) && Get(s.properties, CookTotal) == COOK_TOTAL
    ensures Inv(Cooked(s)) && Cooked(s).cursor == s.cursor && Cooked(s).slots[1] == s.slots[1]
    ensures Get(Cooked(s).properties, BurnLeft) == Get(s.properties, BurnLeft)
    ensures Count(s.slots[0]) + Count(s.slots[2]) == Count(Cooked(s).slots[0]) + Count(Cooked(s).slots[2])
    ensures
      var smelted := Count(s.slots[0]) - Count(Cooked(s).slots[0]);
      && smelted >= 0
      && COOK_TOTAL * smelted + Get(Cooked(s).properties, CookProgress)
         <= Get(s.properties, CookProgress) as int + if Get(s.properties, BurnLeft) > 0 then 1 else 0
  {
  }

  lemma TakenKeeps(s: State, button: Button)
    requires Inv(s)
    ensures Inv(Taken(s, button).0)
    ensures Taken(s, button).0.properties == s.properties
    ensures Taken(s, button).0.slots[0] == s.slots[0] && Taken(s, button).0.slots[1] == s.slots[1]
  {
  }

  /** One step: what it smelts is paid for by what it burns. */
  lemma StepAccounts(s: State, e: Event)
    requires Inv(s)
    ensures Inv(Step(s, e)) && StepSmelted(s, e) >= 0 && StepFuel(s, e) >= 0
    ensures COOK_TOTAL * StepSmelted(s, e) + Get(Step(s, e).properties, CookProgress) + Reserve(Step(s, e))
            <= Get(s.properties, CookProgress) as int + Reserve(s) + StepFuel(s, e)
  {
    match e
    case TickEvent =>
      NormalizedKeeps(s);
      BurnedKeeps(Normalized(s));
      CookedKeeps(Burned(Normalized(s)));
    case TakeEvent(button) => TakenKeeps(s, button);
    case NormalizeEvent => NormalizedKeeps(s);
  }

  lemma {:induction false} RunAccounts(s: State, events: seq<Event>)
    requires Inv(s)
    ensures Inv(Run(s, events)) && RunSmelted(s, events) >= 0 && RunFuel(s, events) >= 0
    ensures COOK_TOTAL * RunSmelted(s, events) + Get(Run(s, events).properties, CookProgress) + Reserve(Run(s, events))
            <= Get(s.properties, CookProgress) as int + Reserve(s) + RunFuel(s, events)
    decreases |events|
  {
    if events != [] {
      StepAccounts(s, events[0]);
      RunAccounts(Step(s, events[0]), events[1..]);
    }
  }

  // ---- Items ----

  /** A right click on an output stack of zero items puts one on the cursor. */
  ghost predicate Conjures(s: State, button: Button) {
    var output := SlotAt(s.slots, 2);
    && output.Some? && output.value.count == 0 && button.Right?
    && (s.cursor.None? || (s.cursor.value.key == output.value.key && s.cursor.value.count < STACK_LIMIT))
  }

  /** In any state whatever, taking output conserves items exactly when it does not conjure one up. */
  lemma TakingConservesIff(s: State, button: Button)
    ensures Items(Taken(s, button).0) == Items(s) <==> !Conjures(s, button)
  {
  }

  lemma EmptyStackConjures(s: State)
    requires s == State([None, None, Some(ItemStack(GLASS, 0, 0))], map[], None)
    ensures Items(s) == 0 && Items(Taken(s, Right).0) == 1
  {
  }

  /** Ticking conserves items and never empties the output into a stack of zero. */
  lemma TickConserves(s: State)
    requires Inv(s) && !Conjures(s, Right)
    ensures Items(Tick(s)) == Items(s) && !Conjures(Tick(s), Right)
  {
    NormalizedKeeps(s);
    BurnedKeeps(Normalized(s));
    CookedKeeps(Burned(Normalized(s)));
    CookedOutput(Burned(Normalized(s)));
  }

  lemma CookedOutput(s: State)
    requires Inv(s)
    ensures Cooked(s).slots[2] == s.slots[2] || (Cooked(s).slots[2].Some? && Cooked(s).slots[2].value.count > 0)
  {
  }

  lemma StepConserves(s: State, e: Event)
    requires Inv(s) && !Conjures(s, Right)
    ensures Items(Step(s, e)) == Items(s) && !Conjures(Step(s, e), Right)
  {
    match e
    case TickEvent => TickConserves(s);
    case TakeEvent(button) => TakingConservesIff(s, button);
    case NormalizeEvent => NormalizedKeeps(s);
  }

  lemma {:induction false} RunConserves(s: State, events: seq<Event>)
    requires Inv(s) && !Conjures(s, Right)
    ensures Items(Run(s, events)) == Items(s)
    decreases |events|
  {
    if events != [] {
      StepConserves(s, events[0]);
      StepAccounts(s, events[0]);
      RunConserves(Step(s, events[0]), events[1..]);
    }
  }

  /**
   * Input, output and cursor hold the same number of items after every run if and only if a right
   * click now would not conjure one up: no tick and no take ever brings that situation about.
   */
  lemma ItemsAreConservedIff(s: State)
    requires Inv(s)
    ensures (forall events: seq<Event> :: Items(Run(s, events)) == Items(s)) <==> !Conjures(s, Right)
  {
    if Conjures(s, Right) {
      TakingConservesIff(s, Right);
      var click := [TakeEvent(Right)];
      assert click[1..] == [];
      assert Run(s, click) == Run(Taken(s, Right).0, []);
      assert Items(Run(s, click)) != Items(s);
    } else {
      forall events: seq<Event> ensures Items(Run(s, events)) == Items(s) {
        RunConserves(s, events);
      }
    }
  }

  // ---- The theorem ----

  /** A three-slot furnace with no fire, no progress and at most a full stack of output. */
  ghost predicate AtRest(s: State) {
    Inv(s) && Get(s.properties, BurnLeft) == 0 && Get(s.properties, CookProgress) == 0
  }

  /**
   * Over any run from rest: the output never exceeds a stack, progress stays below the total, every
   * 200 units of burn time pay for at most one smelted item, and items are conserved unless the
   * furnace started with a stack of zero to click on.
   */
  lemma FurnaceAccounting(s: State, events: seq<Event>)
    requires AtRest(s)
    ensures Count(SlotAt(Run(s, events).slots, 2)) <= STACK_LIMIT
    ensures 0 <= Get(Run(s, events).properties, CookProgress) < COOK_TOTAL
    ensures COOK_TOTAL * RunSmelted(s, events) <= RunFuel(s, events)
    ensures !Conjures(s, Right) ==> Items(Run(s, events)) == Items(s)
  {
    RunAccounts(s, events);
    if !Conjures(s, Right) {
      RunConserves(s, events);
    }
  }

  // ---- As the code runs ----

  class OpenContainer {
    var slots: seq<Slot>
    var properties: Properties

    constructor (slots: seq<Slot>, properties: Properties)
      ensures this.slots == slots && this.properties == properties
    {
      this.slots := slots;
      this.properties := properties;
    }

    ghost function View(cursor: Slot): State
      reads this
    {
      State(slots, properties, cursor)
    }

    method Normalize()
      modifies this
      ensures forall cursor :: View(cursor) == Normalized(old(View(cursor)))
    {
      properties := properties[CookTotal := COOK_TOTAL];
      var available := AvailableOutput(slots);
      if Get(properties, BurnLeft) == 0 {
        properties := properties[BurnMax := 0];
      }
      if available.None? {
        properties := properties[CookProgress := 0];
      }
    }

    method Burn()
      modifies this
      ensures forall cursor :: View(cursor) == Burned(old(View(cursor)))
    {
      var left := Get(properties, BurnLeft);
      if left > 0 {
        properties := properties[BurnLeft := left - 1];
      }
      var time := BurnTime(SlotAt(slots, 1));
      if Get(properties, BurnLeft) == 0 && AvailableOutput(slots).Some? && time.Some? {
        properties := properties[BurnLeft := time.value];
        properties := properties[BurnMax := time.value];
        slots := slots[1 := Less(slots[1], 1)];
      }
    }

    method Cook()
      modifies this
      ensures forall cursor :: View(cursor) == Cooked(old(View(cursor)))
    {
      if Get(properties, BurnLeft) > 0 {
        var output := AvailableOutput(slots);
        if output.Some? {
          var progress := Min(Get(properties, CookProgress) as int + 1, 0x7FFF);
          if progress >= Get(properties, CookTotal) {
            slots := Smelted(slots, output.value);
            properties := properties[CookProgress := 0];
          } else {
            properties := properties[CookProgress := progress];
          }
        } else {
          properties := properties[CookProgress := 0];
        }
      } else {
        properties := properties[CookProgress := 0];
        properties := properties[BurnMax := 0];
      }
    }

    method TickFurnace()
      modifies this
      ensures forall cursor :: View(cursor) == Tick(old(View(cursor)))
    {
      Normalize();
      Burn();
      Cook();
    }

    /** Returns the new cursor and whether anything moved. */
    method TakeOutputSlot(cursor: Slot, button: Button) returns (cursor': Slot, moved: bool)
      modifies this
      ensures (View(cursor'), moved) == Taken(old(View(cursor)), button)
    {
      cursor' := cursor;
      var output := SlotAt(slots, 2);
      if output.None? {
        return cursor, false;
      }
      var take := if button.Left? then output.value.count else 1;
      if take == 0 {
        return cursor, false;
      }
      if cursor.None? {
        cursor' := Some(output.value.(count := take));
      } else if cursor.value.key == output.value.key && cursor.value.count as int + take as int <= STACK_LIMIT {
        cursor' := Some(cursor.value.(count := cursor.value.count + take));
      } else {
        return cursor, false;
      }
      slots := slots[2 := Less(slots[2], take)];
      moved := true;
    }
  }
}
