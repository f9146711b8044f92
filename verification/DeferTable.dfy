/**
 * The table of deferred requests of one loop: slots, a free list that only the loop touches, and
 * one word per slot that other threads compare and swap. A ticket names a loop, a slot and the
 * generation of the slot's occupant.
 */
module DeferTable {
  import opened Arith
  import opened Options

  // ----- tickets and state words, as the numbers their bits spell -----

  const GENERATIONS := 0x4000_0000
  const SLOT_UNIT := 0x1_0000_0000
  const LOOP_UNIT := 0x100_0000_0000_0000
  const SLOTS_MAX := 0x1_0000

  const FREE := 0
  const ARMED := 1
  const RESUMING := 2

  function TicketOf(loop: nat, slot: nat, generation: nat): nat {
    loop * LOOP_UNIT + slot % SLOTS_MAX * SLOT_UNIT + generation % GENERATIONS
  }

  function LoopOf(ticket: nat): nat {
    ticket / LOOP_UNIT % 0x100
  }

  function IndexOf(ticket: nat): nat {
    ticket / SLOT_UNIT % SLOTS_MAX
  }

  function GenerationOf(ticket: nat): nat {
    ticket % GENERATIONS
  }

  function StateOf(generation: nat, phase: nat): nat {
    generation % GENERATIONS * 4 + phase
  }

  function GenerationIn(state: nat): nat {
    state / 4 % GENERATIONS
  }

  function PhaseIn(state: nat): nat {
    state % 4
  }

  /** Unpacking a ticket gives back what was packed, and no ticket of a real occupant is zero. */
  lemma TicketRoundTrip(loop: nat, slot: nat, generation: nat)
    requires loop < 0x100 && slot < SLOTS_MAX && generation < GENERATIONS
    ensures var t := TicketOf(loop, slot, generation);
            && LoopOf(t) == loop && IndexOf(t) == slot && GenerationOf(t) == generation
            && (generation > 0 ==> t != 0) && t < 0x100 * LOOP_UNIT
  {
    var t := TicketOf(loop, slot, generation);
    Divides(loop, slot * SLOT_UNIT + generation, LOOP_UNIT);
    Divides(loop * 0x100_0000 + slot, generation, SLOT_UNIT);
    Divides(loop * 0x100, slot, SLOTS_MAX);
    Divides(loop * 0x400_0000 + slot * 4, generation, GENERATIONS);
    assert t == loop * LOOP_UNIT + (slot * SLOT_UNIT + generation);
    assert t == (loop * 0x100_0000 + slot) * SLOT_UNIT + generation;
    assert t == (loop * 0x400_0000 + slot * 4) * GENERATIONS + generation;
    assert loop * 0x100_0000 + slot == loop * 0x100 * SLOTS_MAX + slot;
  }

  lemma StateRoundTrip(generation: nat, phase: nat)
    requires generation < GENERATIONS && phase < 4
    ensures GenerationIn(StateOf(generation, phase)) == generation
    ensures PhaseIn(StateOf(generation, phase)) == phase
  {
  }

  // ----- the table as a value -----

  datatype Slot = Slot(req: Option<nat>, work: Option<nat>, arena: Option<nat>, nextFree: int, state: nat)

  datatype Table = Table(loop: nat, slots: seq<Slot>, freeHead: int)

  predicate Shape(tb: Table) {
    && tb.loop < 0x100 && 0 < |tb.slots| <= SLOTS_MAX
    && -1 <= tb.freeHead < |tb.slots|
  }

  function PhaseAt(tb: Table, i: nat): nat
    requires i < |tb.slots|
  {
    PhaseIn(tb.slots[i].state)
  }

  function NextGeneration(state: nat): nat {
    var g := GenerationIn(state) + 1;
    if g % GENERATIONS == 0 then 1 else g
  }

  function Arm(tb: Table, req: nat, work: nat, arena: Option<nat>): (Table, nat)
    requires Shape(tb)
  {
    var i := tb.freeHead;
    if i < 0 then (tb, 0)
    else
      var g := NextGeneration(tb.slots[i].state);
      (tb.(freeHead := tb.slots[i].nextFree,
           slots := tb.slots[i := Slot(Some(req), Some(work), arena, -1, StateOf(g, ARMED))]),
       TicketOf(tb.loop, i, g))
  }

  /** The slot a ticket would claim, if the compare and swap would succeed now. */
  function Claimable(tb: Table, ticket: nat): Option<nat> {
    var i := IndexOf(ticket);
    if ticket == 0 || LoopOf(ticket) != tb.loop || i >= |tb.slots| then None
    else if tb.slots[i].state != StateOf(GenerationOf(ticket), ARMED) then None
    else Some(i)
  }

  function Claim(tb: Table, ticket: nat): (t: Table)
    ensures |t.slots| == |tb.slots|
  {
    match Claimable(tb, ticket)
    case None => tb
    case Some(i) =>
      tb.(slots := tb.slots[i := tb.slots[i].(state := StateOf(GenerationOf(ticket), RESUMING))])
  }

  function Release(tb: Table, i: nat): Table
    requires i < |tb.slots|
  {
    tb.(freeHead := i,
        slots := tb.slots[i := Slot(None, None, None, tb.freeHead, StateOf(GenerationIn(tb.slots[i].state), FREE))])
  }

  function Forget(tb: Table, i: int, generation: nat): Table {
    if i < 0 || i >= |tb.slots| then tb
    else if PhaseAt(tb, i) == FREE || GenerationIn(tb.slots[i].state) != generation % GENERATIONS then tb
    else tb.(slots := tb.slots[i := tb.slots[i].(req := None)])
  }

  // ----- the free list -----

  /** `free` is the list reached from `freeHead` through `nextFree`: no slot twice, and it ends. */
  ghost predicate Lists(tb: Table, free: seq<nat>) {
    && (forall k | 0 <= k < |free| :: free[k] < |tb.slots|)
    && (forall k, l | 0 <= k < l < |free| :: free[k] != free[l])
    && tb.freeHead == (if free == [] then -1 else free[0])
    && (forall k, l | 0 <= k && k + 1 == l < |free| :: tb.slots[free[k]].nextFree == free[l])
    && (|free| > 0 ==> tb.slots[free[|free| - 1]].nextFree == -1)
  }

  /** The list holds exactly the slots in the free phase. */
  ghost predicate ListsFree(tb: Table, free: seq<nat>) {
    && Lists(tb, free)
    && (forall i | 0 <= i < |tb.slots| :: PhaseAt(tb, i) == FREE <==> i in free)
  }

  // ----- the table in memory -----

  class Deferred {
    const loop: nat
    const slots: array<Slot>
    var freeHead: int
    ghost var free: seq<nat>

    ghost function Value(): Table
      reads this, slots
    {
      Table(loop, slots[..], freeHead)
    }

    ghost predicate Valid()
      reads this, slots
    {
      Shape(Value()) && ListsFree(Value(), free)
    }

    constructor (loopIndex: nat, max: nat)
      requires loopIndex < 0x100 && 0 < max <= SLOTS_MAX
      ensures Valid() && fresh(slots) && slots.Length == max && loop == loopIndex
      ensures forall i | 0 <= i < max :: slots[i].state == StateOf(0, FREE) && slots[i].req.None?
      ensures free == seq(max, i => i)
    {
      loop := loopIndex;
      freeHead := 0;
      slots := new Slot[max];
      free := seq(max, i => i);
      new;
      for i := 0 to max
        invariant free == seq(max, i => i) && freeHead == 0
        invariant forall j | 0 <= j < i :: slots[j] == Slot(None, None, None, if j + 1 == max then -1 else j + 1, StateOf(0, FREE))
      {
        slots[i] := Slot(None, None, None, if i + 1 == max then -1 else i + 1, StateOf(0, FREE));
      }
      forall j | 0 <= j < max
        ensures PhaseAt(Value(), j) == FREE && j in free
      {
        assert free[j] == j;
      }
    }

    /** 0 when no slot is free. */
    method ArmSlot(req: nat, work: nat, arena: Option<nat>) returns (ticket: nat)
      requires Valid()
      modifies this, slots
      ensures Valid()
      ensures (Value(), ticket) == Arm(old(Value()), req, work, arena)
      ensures ticket == 0 <==> old(free) == []
      ensures ticket != 0 ==> free == old(free)[1..] && IndexOf(ticket) == old(free)[0] && LoopOf(ticket) == loop
    {
      var index := freeHead;
      if index < 0 {
        return 0;
      }
      ghost var before, list := Value(), free;
      freeHead := slots[index].nextFree;
      slots[index] := slots[index].(nextFree := -1, req := Some(req), work := Some(work), arena := arena);
      var generation := GenerationIn(slots[index].state) + 1;
      if generation % GENERATIONS == 0 {
        generation := 1;
      }
      slots[index] := slots[index].(state := StateOf(generation, ARMED));
      ticket := TicketOf(loop, index, generation);
      free := free[1..];
      assert Value() == Arm(before, req, work, arena).0;
      ArmKeepsList(before, list, req, work, arena);
    }

    method ClaimSlot(ticket: nat) returns (slot: Option<nat>)
      requires Valid()
      modifies slots
      ensures Valid() && free == old(free)
      ensures Value() == Claim(old(Value()), ticket) && slot == Claimable(old(Value()), ticket)
    {
      var index := IndexOf(ticket);
      var generation := GenerationOf(ticket);
      if ticket == 0 || LoopOf(ticket) != loop {
        return None;
      }
      if index >= slots.Length {
        return None;
      }
      if slots[index].state != StateOf(generation, ARMED) {
        return None;
      }
      ghost var before := Value();
      slots[index] := slots[index].(state := StateOf(generation, RESUMING));
      assert Value() == Claim(before, ticket);
      ClaimKeepsList(before, free, ticket);
      return Some(index);
    }

    method ReleaseSlot(slot: nat) returns (req: Option<nat>, work: Option<nat>, arena: Option<nat>)
      requires Valid() && slot < slots.Length && PhaseAt(Value(), slot) == RESUMING
      modifies this, slots
      ensures Valid() && free == [slot] + old(free)
      ensures Value() == Release(old(Value()), slot)
      ensures req == old(slots[slot].req) && work == old(slots[slot].work) && arena == old(slots[slot].arena)
    {
      ghost var before, list := Value(), free;
      req, work, arena := slots[slot].req, slots[slot].work, slots[slot].arena;
      slots[slot] := slots[slot].(req := None, work := None, arena := None);
      slots[slot] := slots[slot].(state := StateOf(GenerationIn(slots[slot].state), FREE));
      slots[slot] := slots[slot].(nextFree := freeHead);
      freeHead := slot;
      free := [slot] + free;
      assert Value() == Release(before, slot);
      ReleaseKeepsList(before, list, slot);
    }

    method ForgetRequest(slot: int, generation: nat)
      requires Valid()
      modifies slots
      ensures Valid() && free == old(free)
      ensures Value() == Forget(old(Value()), slot, generation)
    {
      if slot < 0 || slot >= slots.Length {
        return;
      }
      var state := slots[slot].state;
      if PhaseIn(state) == FREE || GenerationIn(state) != generation % GENERATIONS {
        return;
      }
      ghost var before := Value();
      slots[slot] := slots[slot].(req := None);
      assert Value() == Forget(before, slot, generation);
      ForgetKeepsList(before, free, slot, generation);
    }

    /** The first slot at or after `from` that is resuming, or -1. */
    method NextResuming(from: int) returns (slot: int)
      requires Valid() && from <= slots.Length
      ensures -1 <= slot < slots.Length
      ensures slot >= 0 ==> slot >= from && PhaseIn(slots[slot].state) == RESUMING
      ensures forall j | 0 <= j < (if slot >= 0 then slot else slots.Length) && from <= j :: PhaseIn(slots[j].state) != RESUMING
    {
      var i := if from < 0 then 0 else from;
      while i != slots.Length
        invariant 0 <= i <= slots.Length && from <= i
        invariant forall j | 0 <= j < i && from <= j :: PhaseIn(slots[j].state) != RESUMING
      {
        if PhaseIn(slots[i].state) == RESUMING {
          return i;
        }
        i := i + 1;
      }
      return -1;
    }
  }

  // ----- every operation keeps the list -----

  lemma ArmKeepsList(tb: Table, free: seq<nat>, req: nat, work: nat, arena: Option<nat>)
    requires Shape(tb) && ListsFree(tb, free)
    ensures free == [] ==> Arm(tb, req, work, arena) == (tb, 0)
    ensures var (t, ticket) := Arm(tb, req, work, arena);
            free != [] ==>
              && Shape(t) && ListsFree(t, free[1..]) && ticket != 0
              && LoopOf(ticket) == tb.loop && IndexOf(ticket) == free[0]
              && GenerationOf(ticket) == GenerationIn(t.slots[free[0]].state)
              && Claimable(t, ticket) == Some(free[0])
  {
    if free != [] {
      var (t, ticket) := Arm(tb, req, work, arena);
      var g := NextGeneration(tb.slots[free[0]].state);
      TicketRoundTrip(tb.loop, free[0], g);
      StateRoundTrip(g, ARMED);
      assert |free| > 1 ==> tb.slots[free[0]].nextFree == free[1];
      forall i | 0 <= i < |t.slots|
        ensures PhaseAt(t, i) == FREE <==> i in free[1..]
      {
        assert i in free <==> i == free[0] || i in free[1..];
      }
    }
  }

  lemma ClaimKeepsList(tb: Table, free: seq<nat>, ticket: nat)
    requires ListsFree(tb, free)
    ensures ListsFree(Claim(tb, ticket), free)
  {
    StateRoundTrip(GenerationOf(ticket), ARMED);
    StateRoundTrip(GenerationOf(ticket), RESUMING);
  }

  lemma ReleaseKeepsList(tb: Table, free: seq<nat>, i: nat)
    requires ListsFree(tb, free) && i < |tb.slots| && PhaseAt(tb, i) != FREE
    ensures ListsFree(Release(tb, i), [i] + free)
  {
    var t := Release(tb, i);
    var g := GenerationIn(tb.slots[i].state);
    StateRoundTrip(g, FREE);
    assert i !in free;
    forall j | 0 <= j < |t.slots|
      ensures PhaseAt(t, j) == FREE <==> j in [i] + free
    {
      assert j in [i] + free <==> j == i || j in free;
    }
  }

  lemma ForgetKeepsList(tb: Table, free: seq<nat>, i: int, generation: nat)
    requires ListsFree(tb, free)
    ensures ListsFree(Forget(tb, i, generation), free)
  {
  }
}
