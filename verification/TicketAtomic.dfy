/**
 * The operations of the loop on its table take several accesses with claims between them. Here every run is
 * shown to be one of undivided operations: an arming takes effect at its store, a release at its load.
 */
module TicketAtomic {
  import opened Options
  import opened DeferTable
  import opened TicketRuns

  /** What the arming under way, or the last one, was asked to put into its slot. */
  function LastArm(steps: seq<Step>): (arm: Step)
    ensures arm.ArmLoad?
  {
    if steps == [] then ArmLoad(0, 0, None)
    else if steps[|steps| - 1].ArmLoad? then steps[|steps| - 1]
    else LastArm(steps[..|steps| - 1])
  }

  /** One undivided operation, or nothing. */
  function Atomically(tb: Table, step: Step, arm: Step): Table
    requires arm.ArmLoad?
  {
    match step
    case ArmStore => if Shape(tb) then Arm(tb, arm.req, arm.work, arm.arena).0 else tb
    case ClaimWith(ticket) => Claim(tb, ticket)
    case ReleaseLoad(i) => if i < |tb.slots| then Release(tb, i) else tb
    case ForgetAt(i, generation) => Forget(tb, i, generation)
    case _ => tb
  }

  /** The undivided operations of a run, one after another. */
  function Undivided(tb: Table, steps: seq<Step>): Table {
    if steps == [] then tb
    else Atomically(Undivided(tb, steps[..|steps| - 1]), steps[|steps| - 1], LastArm(steps))
  }

  /** The table as it is between undivided operations: an arming has not begun yet, a release is complete. */
  function Whole(s: Sys): Table {
    if s.pc.Idle? || s.pc.slot >= |s.tb.slots| then s.tb
    else
      var i := s.pc.slot;
      if s.pc.Arming? then
        s.tb.(freeHead := i, slots := s.tb.slots[i := Slot(None, None, None, s.tb.freeHead, s.tb.slots[i].state)])
      else Release(s.tb, i)
  }

  /** Free slots are empty, and the one that is being armed holds what was asked for. */
  ghost predicate Filled(s: Sys, arm: Step) {
    && arm.ArmLoad?
    && (forall i | 0 <= i < |s.tb.slots| && PhaseAt(s.tb, i) == FREE && !(s.pc.Arming? && s.pc.slot == i) :: Emptied(s.tb.slots[i]))
    && (s.pc.Arming? ==>
          && s.pc.slot < |s.tb.slots|
          && s.tb.slots[s.pc.slot] == Slot(Some(arm.req), Some(arm.work), arm.arena, -1, s.pc.word))
  }

  lemma FilledStep(s: Sys, step: Step, arm: Step)
    requires Inv(s) && Filled(s, arm) && Enabled(s, step)
    ensures Filled(Apply(s, step), if step.ArmLoad? then step else arm)
  {
    var t := Apply(s, step);
    match step
    case ClaimWith(ticket) => ClaimEffect(s.tb, ticket);
    case ArmStore => StateRoundTrip(NextGeneration(s.pc.word), ARMED);
    case _ =>
  }

  lemma ArmLoadStutters(s: Sys, step: Step, arm: Step)
    requires Inv(s) && Filled(s, arm) && Enabled(s, step) && step.ArmLoad?
    ensures Whole(Apply(s, step)) == Whole(s)
  {
    var i := s.tb.freeHead;
    assert s.free[0] == i && PhaseAt(s.tb, i) == FREE;
    assert Whole(Apply(s, step)).slots == s.tb.slots;
  }

  lemma ArmStoreArms(s: Sys, arm: Step)
    requires Inv(s) && Filled(s, arm) && Enabled(s, ArmStore)
    ensures Shape(Whole(s)) && Whole(Apply(s, ArmStore)) == Arm(Whole(s), arm.req, arm.work, arm.arena).0
  {
    hide StateOf, NextGeneration;
    assert Whole(Apply(s, ArmStore)).slots == Arm(Whole(s), arm.req, arm.work, arm.arena).0.slots;
  }

  /** A word that is not armed is claimed by no ticket. */
  lemma ClaimsElsewhere(tb: Table, ticket: nat, i: nat)
    requires i < |tb.slots| && PhaseAt(tb, i) != ARMED
    ensures Claimable(tb, ticket) != Some(i)
  {
    StateRoundTrip(GenerationOf(ticket), ARMED);
  }

  /** So a claim does not notice what the loop does to such a slot, nor to the list. */
  lemma ClaimOverlays(tb: Table, ticket: nat, i: nat, x: Slot, head: int)
    requires i < |tb.slots| && PhaseAt(tb, i) != ARMED && PhaseIn(x.state) != ARMED
    ensures var over := tb.(freeHead := head, slots := tb.slots[i := x]);
            var after := Claim(tb, ticket);
            && Claim(over, ticket) == after.(freeHead := head, slots := after.slots[i := x])
            && after.slots[i] == tb.slots[i] && after.freeHead == tb.freeHead
  {
    var over := tb.(freeHead := head, slots := tb.slots[i := x]);
    ClaimsElsewhere(tb, ticket, i);
    ClaimsElsewhere(over, ticket, i);
    hide StateOf, PhaseIn, GenerationOf, IndexOf, LoopOf;
    assert Claimable(over, ticket) == Claimable(tb, ticket);
    assert Claim(over, ticket).slots == Claim(tb, ticket).slots[i := x];
  }

  /** What the loop's slot looks like in `Whole`. */
  function InWhole(s: Sys): Slot
    requires !s.pc.Idle? && s.pc.slot < |s.tb.slots|
  {
    var word := s.tb.slots[s.pc.slot].state;
    Slot(None, None, None, s.tb.freeHead, if s.pc.Arming? then word else StateOf(GenerationIn(word), FREE))
  }

  lemma ClaimClaims(s: Sys, ticket: nat)
    requires Inv(s)
    ensures Whole(Apply(s, ClaimWith(ticket))) == Claim(Whole(s), ticket)
  {
    if !s.pc.Idle? {
      var i := s.pc.slot;
      StateRoundTrip(GenerationIn(s.tb.slots[i].state), FREE);
      ClaimOverlays(s.tb, ticket, i, InWhole(s), i);
    }
  }

  lemma ReleaseCompletes(s: Sys, step: Step)
    requires Inv(s) && Enabled(s, step) && (step.ReleaseStore? || step.ReleaseLink?)
    ensures Whole(Apply(s, step)) == Whole(s)
  {
    var i := s.pc.slot;
    WordReads(s, i);
    StateRoundTrip(GenerationIn(s.tb.slots[i].state), FREE);
    hide StateOf, GenerationIn;
    assert Whole(Apply(s, step)).slots == Whole(s).slots;
  }

  lemma ReleaseLoadReleases(s: Sys, i: nat)
    requires Inv(s) && Enabled(s, ReleaseLoad(i))
    ensures Whole(Apply(s, ReleaseLoad(i))) == Release(Whole(s), i)
  {
    hide StateOf, GenerationIn;
    assert Whole(Apply(s, ReleaseLoad(i))).slots == Release(s.tb, i).slots;
  }

  /** Every access is an undivided operation on `Whole`, or leaves it alone. */
  lemma WholeStep(s: Sys, step: Step, arm: Step)
    requires Inv(s) && Filled(s, arm) && Enabled(s, step)
    ensures Whole(Apply(s, step)) == Atomically(Whole(s), step, if step.ArmLoad? then step else arm)
  {
    match step
    case ArmLoad(_, _, _) => ArmLoadStutters(s, step, arm);
    case ArmStore => ArmStoreArms(s, arm);
    case ClaimWith(ticket) => ClaimClaims(s, ticket);
    case ReleaseLoad(i) => ReleaseLoadReleases(s, i);
    case ForgetAt(_, _) =>
    case _ => ReleaseCompletes(s, step);
  }

  lemma {:induction false} RunIs(ss: seq<Sys>, steps: seq<Step>, k: nat)
    requires IsRun(ss, steps) && k < |ss|
    ensures Filled(ss[k], LastArm(steps[..k])) && Whole(ss[k]) == Undivided(ss[0].tb, steps[..k])
  {
    hide Inv, Filled, Whole, Atomically, Apply;
    if k == 0 {
      InitialIs(ss, steps);
    } else {
      var j := k - 1;
      RunIs(ss, steps, j);
      RunInv(ss, steps, j);
      RunStep(ss, steps, j);
      assert steps[..k][..j] == steps[..j] && steps[..k][j] == steps[j];
      FilledStep(ss[j], steps[j], LastArm(steps[..j]));
      WholeStep(ss[j], steps[j], LastArm(steps[..j]));
    }
  }

  lemma InitialIs(ss: seq<Sys>, steps: seq<Step>)
    requires IsRun(ss, steps)
    ensures Filled(ss[0], LastArm(steps[..0])) && Whole(ss[0]) == Undivided(ss[0].tb, steps[..0])
  {
  }

  /**
   * In every run, whenever the loop is between two operations, its table is what the undivided operations make of
   * the first one: each arming with what it was asked for, each claim and each release, in one order for all.
   */
  lemma RunsAreUndivided(ss: seq<Sys>, steps: seq<Step>, k: nat)
    requires IsRun(ss, steps) && k < |ss| && ss[k].pc.Idle?
    ensures ss[k].tb == Undivided(ss[0].tb, steps[..k])
  {
    RunIs(ss, steps, k);
  }

  /** A claim succeeds, at any moment, exactly if it does between the undivided operations. */
  lemma ClaimsAreUndivided(ss: seq<Sys>, steps: seq<Step>, k: nat, ticket: nat)
    requires IsRun(ss, steps) && k < |ss|
    ensures Claimable(ss[k].tb, ticket) == Claimable(Undivided(ss[0].tb, steps[..k]), ticket)
  {
    RunIs(ss, steps, k);
    RunInv(ss, steps, k);
    var s := ss[k];
    if !s.pc.Idle? {
      var i := s.pc.slot;
      StateRoundTrip(GenerationIn(s.tb.slots[i].state), FREE);
      assert PhaseAt(Whole(s), i) != ARMED;
      ClaimsElsewhere(s.tb, ticket, i);
      ClaimsElsewhere(Whole(s), ticket, i);
    }
  }
}
