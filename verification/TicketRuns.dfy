/**
 * Every run of one deferral table: the loop arms, releases and forgets, and any number of other
 * threads claim with any ticket at any moment -- also between the loop's load of a state word and
 * its store, which are separate steps here.
 */
module TicketRuns {
  import opened Arith
  import opened Options
  import opened DeferTable

  /** What the loop has in hand: a slot off the list whose word it loaded, or one not yet on it. */
  datatype LoopPc = Idle | Arming(slot: nat, word: nat) | Releasing(slot: nat, word: nat) | Linking(slot: nat)

  /** `free` and `arms` are histories: the list as it is linked, and how often each slot was armed. */
  datatype Sys = Sys(tb: Table, free: seq<nat>, pc: LoopPc, arms: seq<nat>)

  datatype Step =
    | ArmLoad(req: nat, work: nat, arena: Option<nat>)
    | ArmStore
    | ClaimWith(ticket: nat)
    | ReleaseLoad(slot: nat)
    | ReleaseStore
    | ReleaseLink
    | ForgetAt(index: int, generation: nat)

  predicate Enabled(s: Sys, step: Step) {
    match step
    case ArmLoad(_, _, _) => s.pc.Idle? && 0 <= s.tb.freeHead < |s.tb.slots| && s.free != []
    case ArmStore => s.pc.Arming? && s.pc.slot < |s.tb.slots| == |s.arms|
    case ClaimWith(_) => true
    case ReleaseLoad(i) => s.pc.Idle? && i < |s.tb.slots| && PhaseAt(s.tb, i) == RESUMING
    case ReleaseStore => s.pc.Releasing? && s.pc.slot < |s.tb.slots|
    case ReleaseLink => s.pc.Linking? && s.pc.slot < |s.tb.slots|
    case ForgetAt(_, _) => s.pc.Idle?
  }

  function SetSlot(tb: Table, i: nat, x: Slot): Table
    requires i < |tb.slots|
  {
    tb.(slots := tb.slots[i := x])
  }

  function Apply(s: Sys, step: Step): Sys
    requires Enabled(s, step)
  {
    match step
    case ArmLoad(req, work, arena) =>
      var i := s.tb.freeHead;
      var x := s.tb.slots[i];
      s.(tb := SetSlot(s.tb, i, Slot(Some(req), Some(work), arena, -1, x.state)).(freeHead := x.nextFree),
         free := s.free[1..], pc := Arming(i, x.state))
    case ArmStore =>
      var i := s.pc.slot;
      s.(tb := SetSlot(s.tb, i, s.tb.slots[i].(state := StateOf(NextGeneration(s.pc.word), ARMED))),
         pc := Idle, arms := s.arms[i := s.arms[i] + 1])
    case ClaimWith(ticket) => s.(tb := Claim(s.tb, ticket))
    case ReleaseLoad(i) =>
      s.(tb := SetSlot(s.tb, i, s.tb.slots[i].(req := None, work := None, arena := None)),
         pc := Releasing(i, s.tb.slots[i].state))
    case ReleaseStore =>
      var i := s.pc.slot;
      s.(tb := SetSlot(s.tb, i, s.tb.slots[i].(state := StateOf(GenerationIn(s.pc.word), FREE))), pc := Linking(i))
    case ReleaseLink =>
      var i := s.pc.slot;
      s.(tb := SetSlot(s.tb, i, s.tb.slots[i].(nextFree := s.tb.freeHead)).(freeHead := i),
         free := [i] + s.free, pc := Idle)
    case ForgetAt(slot, generation) => s.(tb := Forget(s.tb, slot, generation))
  }

  // ----- generations -----

  /** How many generations a slot goes through before one comes back: zero is skipped. */
  const CYCLE := GENERATIONS - 1

  /** The generation after `n` armings. */
  function GenerationAfter(n: nat): (g: nat)
    ensures g < GENERATIONS && (g == 0 <==> n == 0)
  {
    if n == 0 then 0 else (n - 1) % CYCLE + 1
  }

  lemma GenerationStep(n: nat, phase: nat)
    requires phase < 4
    ensures NextGeneration(StateOf(GenerationAfter(n), phase)) == GenerationAfter(n + 1)
  {
    StateRoundTrip(GenerationAfter(n), phase);
    if n > 0 {
      var q, r := (n - 1) / CYCLE, (n - 1) % CYCLE;
      if r + 1 < CYCLE {
        Divides(q, r + 1, CYCLE);
      } else {
        Divides(q + 1, 0, CYCLE);
      }
    }
  }

  lemma SameGeneration(m: nat, n: nat)
    requires m > 0 && n > 0
    ensures GenerationAfter(m) == GenerationAfter(n) <==> (m - n) % CYCLE == 0
  {
    var qm, rm, qn, rn := (m - 1) / CYCLE, (m - 1) % CYCLE, (n - 1) / CYCLE, (n - 1) % CYCLE;
    if rm >= rn {
      Divides(qm - qn, rm - rn, CYCLE);
    } else {
      Divides(qm - qn - 1, rm - rn + CYCLE, CYCLE);
    }
  }

  // ----- what every step keeps -----

  predicate InHandFree(pc: LoopPc, i: nat) {
    (pc.Arming? || pc.Linking?) && pc.slot == i
  }

  ghost predicate InvList(s: Sys) {
    && Lists(s.tb, s.free)
    && (forall i | 0 <= i < |s.tb.slots| :: PhaseAt(s.tb, i) == FREE <==> i in s.free || InHandFree(s.pc, i))
    && (!s.pc.Idle? ==> s.pc.slot < |s.tb.slots| && s.pc.slot !in s.free)
  }

  /** The word the loop loaded is still the word when it stores: no claim can come between. */
  ghost predicate InvHand(s: Sys) {
    && (s.pc.Arming? ==> s.pc.slot < |s.tb.slots| && s.tb.slots[s.pc.slot].state == s.pc.word && PhaseIn(s.pc.word) == FREE)
    && (s.pc.Releasing? ==> s.pc.slot < |s.tb.slots| && s.tb.slots[s.pc.slot].state == s.pc.word && PhaseIn(s.pc.word) == RESUMING)
    && (s.pc.Releasing? || s.pc.Linking? ==> s.pc.slot < |s.tb.slots| && Emptied(s.tb.slots[s.pc.slot]))
  }

  predicate Emptied(x: Slot) {
    x.req == None && x.work == None && x.arena == None
  }

  predicate WordAt(s: Sys, i: nat)
    requires i < |s.tb.slots| == |s.arms|
  {
    exists phase | 0 <= phase <= RESUMING :: s.tb.slots[i].state == StateOf(GenerationAfter(s.arms[i]), phase)
  }

  ghost predicate InvWords(s: Sys) {
    && |s.arms| == |s.tb.slots|
    && (forall i | 0 <= i < |s.arms| :: WordAt(s, i))
  }

  ghost predicate Inv(s: Sys) {
    Shape(s.tb) && InvList(s) && InvHand(s) && InvWords(s)
  }

  ghost predicate Initial(s: Sys) {
    && Shape(s.tb) && ListsFree(s.tb, s.free) && s.pc.Idle?
    && |s.arms| == |s.tb.slots|
    && (forall i | 0 <= i < |s.arms| :: s.arms[i] == 0 && Emptied(s.tb.slots[i]) && s.tb.slots[i].state == StateOf(0, FREE))
  }

  lemma WordReads(s: Sys, i: nat)
    requires i < |s.tb.slots| == |s.arms| && WordAt(s, i)
    ensures GenerationIn(s.tb.slots[i].state) == GenerationAfter(s.arms[i])
    ensures s.tb.slots[i].state == StateOf(GenerationAfter(s.arms[i]), PhaseAt(s.tb, i))
  {
    var phase :| 0 <= phase <= RESUMING && s.tb.slots[i].state == StateOf(GenerationAfter(s.arms[i]), phase);
    StateRoundTrip(GenerationAfter(s.arms[i]), phase);
  }

  lemma ClaimEffect(tb: Table, ticket: nat)
    ensures |Claim(tb, ticket).slots| == |tb.slots|
    ensures forall i | 0 <= i < |tb.slots| ::
              && Claim(tb, ticket).slots[i].nextFree == tb.slots[i].nextFree
              && (Claimable(tb, ticket) != Some(i) ==> Claim(tb, ticket).slots[i] == tb.slots[i])
              && (Claimable(tb, ticket) == Some(i) ==>
                    PhaseAt(tb, i) == ARMED && PhaseAt(Claim(tb, ticket), i) == RESUMING
                    && GenerationOf(ticket) == GenerationIn(tb.slots[i].state))
  {
    StateRoundTrip(GenerationOf(ticket), ARMED);
    StateRoundTrip(GenerationOf(ticket), RESUMING);
  }

  lemma ClaimKeeps(s: Sys, ticket: nat)
    requires Inv(s)
    ensures Inv(Apply(s, ClaimWith(ticket)))
  {
    var t := Apply(s, ClaimWith(ticket));
    ClaimEffect(s.tb, ticket);
    forall i | 0 <= i < |t.arms|
      ensures WordAt(t, i)
    {
      WordReads(s, i);
      if Claimable(s.tb, ticket) == Some(i) {
        assert t.tb.slots[i].state == StateOf(GenerationAfter(t.arms[i]), RESUMING);
      } else {
        assert t.tb.slots[i].state == StateOf(GenerationAfter(t.arms[i]), PhaseAt(s.tb, i));
      }
    }
  }

  lemma ArmLoadKeeps(s: Sys, step: Step)
    requires Inv(s) && step.ArmLoad? && Enabled(s, step)
    ensures Inv(Apply(s, step))
  {
    var t := Apply(s, step);
    var i := s.free[0];
    assert |s.free| > 1 ==> s.tb.slots[s.free[0]].nextFree == s.free[1];
    forall j | 0 <= j < |t.tb.slots|
      ensures PhaseAt(t.tb, j) == FREE <==> j in t.free || InHandFree(t.pc, j)
    {
      assert j in s.free <==> j == i || j in s.free[1..];
    }
    forall j | 0 <= j < |t.arms|
      ensures WordAt(t, j)
    {
      assert WordAt(s, j);
    }
  }

  lemma StoreKeeps(s: Sys, step: Step)
    requires Inv(s) && (step.ArmStore? || step.ReleaseStore?) && Enabled(s, step)
    ensures Inv(Apply(s, step))
  {
    var t := Apply(s, step);
    var i := s.pc.slot;
    WordReads(s, i);
    GenerationStep(s.arms[i], FREE);
    StateRoundTrip(GenerationAfter(s.arms[i] + 1), ARMED);
    StateRoundTrip(GenerationAfter(s.arms[i]), FREE);
    forall j | 0 <= j < |t.arms|
      ensures WordAt(t, j)
    {
      if j == i {
        assert t.tb.slots[j].state == StateOf(GenerationAfter(t.arms[j]), if step.ArmStore? then ARMED else FREE);
      } else {
        WordReads(s, j);
        assert t.tb.slots[j].state == StateOf(GenerationAfter(t.arms[j]), PhaseAt(s.tb, j));
      }
    }
  }

  lemma ReleaseLinkKeeps(s: Sys)
    requires Inv(s) && Enabled(s, ReleaseLink)
    ensures Inv(Apply(s, ReleaseLink))
  {
    var t := Apply(s, ReleaseLink);
    var i := s.pc.slot;
    forall j | 0 <= j < |t.tb.slots|
      ensures PhaseAt(t.tb, j) == FREE <==> j in t.free || InHandFree(t.pc, j)
    {
      assert j in [i] + s.free <==> j == i || j in s.free;
    }
    forall j | 0 <= j < |t.arms|
      ensures WordAt(t, j)
    {
      assert WordAt(s, j);
    }
  }

  lemma OtherKeeps(s: Sys, step: Step)
    requires Inv(s) && (step.ReleaseLoad? || step.ForgetAt?) && Enabled(s, step)
    ensures Inv(Apply(s, step))
  {
    var t := Apply(s, step);
    forall j | 0 <= j < |t.arms|
      ensures WordAt(t, j)
    {
      assert WordAt(s, j);
    }
  }

  lemma InvStep(s: Sys, step: Step)
    requires Inv(s) && Enabled(s, step)
    ensures Inv(Apply(s, step))
  {
    hide Inv, Apply;
    match step
    case ArmLoad(_, _, _) => ArmLoadKeeps(s, step);
    case ArmStore => StoreKeeps(s, step);
    case ClaimWith(ticket) => ClaimKeeps(s, ticket);
    case ReleaseLoad(_) => OtherKeeps(s, step);
    case ReleaseStore => StoreKeeps(s, step);
    case ReleaseLink => ReleaseLinkKeeps(s);
    case ForgetAt(_, _) => OtherKeeps(s, step);
  }

  ghost predicate IsRun(ss: seq<Sys>, steps: seq<Step>) {
    && |ss| == |steps| + 1 && Initial(ss[0])
    && forall k, l | 0 <= k && k + 1 == l <= |steps| :: Steps(ss[k], steps[k], ss[l])
  }

  ghost predicate Steps(s: Sys, step: Step, t: Sys) {
    Enabled(s, step) && t == Apply(s, step)
  }

  lemma RunStep(ss: seq<Sys>, steps: seq<Step>, k: nat)
    requires IsRun(ss, steps) && k < |steps|
    ensures Enabled(ss[k], steps[k]) && ss[k + 1] == Apply(ss[k], steps[k])
  {
    var l := k + 1;
    assert Steps(ss[k], steps[k], ss[l]);
  }

  lemma InitialInv(s: Sys)
    requires Initial(s)
    ensures Inv(s)
  {
    forall i | 0 <= i < |s.arms|
      ensures WordAt(s, i)
    {
      assert s.tb.slots[i].state == StateOf(GenerationAfter(s.arms[i]), FREE);
    }
  }

  lemma {:induction false} RunInv(ss: seq<Sys>, steps: seq<Step>, k: nat)
    requires IsRun(ss, steps) && k < |ss|
    ensures Inv(ss[k])
  {
    hide Inv, Initial, Apply;
    if k == 0 {
      InitialInv(ss[0]);
    } else {
      RunInv(ss, steps, k - 1);
      RunStep(ss, steps, k - 1);
      InvStep(ss[k - 1], steps[k - 1]);
    }
  }

  // ----- the theorems -----

  /** Between the loop's operations the free list lists exactly the free slots, each once. */
  lemma FreeListExact(ss: seq<Sys>, steps: seq<Step>, k: nat)
    requires IsRun(ss, steps) && k < |ss| && ss[k].pc.Idle?
    ensures ListsFree(ss[k].tb, ss[k].free)
  {
    RunInv(ss, steps, k);
  }

  /** The ticket handed out for the `n`-th arming of slot `i`. */
  function TicketFor(loop: nat, i: nat, n: nat): nat {
    TicketOf(loop, i, GenerationAfter(n))
  }

  /** Load, then store with claims between them, arms as the undivided operation does and hands out that ticket. */
  lemma ArmedTicket(ss: seq<Sys>, steps: seq<Step>, k: nat)
    requires IsRun(ss, steps) && k < |steps| && steps[k].ArmStore?
    ensures ss[k].pc.Arming?
    ensures var i := ss[k].pc.slot;
            && i < |ss[k + 1].arms|
            && TicketOf(ss[k].tb.loop, i, NextGeneration(ss[k].pc.word)) == TicketFor(ss[k].tb.loop, i, ss[k + 1].arms[i])
            && Claimable(ss[k + 1].tb, TicketFor(ss[k].tb.loop, i, ss[k + 1].arms[i])) == Some(i)
  {
    RunInv(ss, steps, k);
    RunStep(ss, steps, k);
    var s, i := ss[k], ss[k].pc.slot;
    WordReads(s, i);
    GenerationStep(s.arms[i], FREE);
    TicketRoundTrip(s.tb.loop, i, GenerationAfter(s.arms[i] + 1));
  }

  /** Load, store and link, with claims between them, release as the undivided operation does. */
  lemma ReleasedSlot(ss: seq<Sys>, steps: seq<Step>, k: nat)
    requires IsRun(ss, steps) && k < |steps| && steps[k].ReleaseLink?
    ensures ss[k].pc.Linking?
    ensures var i := ss[k].pc.slot;
            && i < |ss[k + 1].tb.slots| && ss[k + 1].pc.Idle?
            && PhaseAt(ss[k + 1].tb, i) == FREE && Emptied(ss[k + 1].tb.slots[i])
            && ss[k + 1].tb.freeHead == i && ss[k + 1].free == [i] + ss[k].free
            && (forall n: nat :: Claimable(ss[k + 1].tb, TicketFor(ss[k].tb.loop, i, n)) == None)
  {
    RunInv(ss, steps, k);
    RunStep(ss, steps, k);
    var i, tb := ss[k].pc.slot, ss[k + 1].tb;
    forall n: nat
      ensures Claimable(tb, TicketFor(ss[k].tb.loop, i, n)) == None
    {
      TicketRoundTrip(ss[k].tb.loop, i, GenerationAfter(n));
      StateRoundTrip(GenerationAfter(n), ARMED);
    }
  }

  /**
   * Exactly when a ticket claims: the ticket of the `n`-th arming of a slot claims in a reachable
   * state if and only if the slot is armed and has been armed a multiple of 2^30 - 1 times since.
   */
  lemma ClaimsIffCurrent(ss: seq<Sys>, steps: seq<Step>, k: nat, i: nat, n: nat)
    requires IsRun(ss, steps) && k < |ss| && i < |ss[k].tb.slots| == |ss[k].arms| && n > 0
    ensures var s := ss[k];
            && Claimable(s.tb, TicketFor(s.tb.loop, i, n)) ==
                 (if PhaseAt(s.tb, i) == ARMED && (s.arms[i] - n) % CYCLE == 0 then Some(i) else None)
  {
    RunInv(ss, steps, k);
    var s := ss[k];
    WordReads(s, i);
    TicketRoundTrip(s.tb.loop, i, GenerationAfter(n));
    StateRoundTrip(GenerationAfter(n), ARMED);
    StateRoundTrip(GenerationAfter(s.arms[i]), PhaseAt(s.tb, i));
    if s.arms[i] > 0 {
      SameGeneration(s.arms[i], n);
    } else if PhaseAt(s.tb, i) == ARMED {
      NeverArmedIsFree(ss, steps, k, i);
    }
  }

  /**
   * And exactly when a leaving client's ticket forgets: its request is cleared if and only if the slot is taken and has
   * been armed a multiple of 2^30 - 1 times since, and then nothing else is; otherwise the table stays as it is.
   */
  lemma ForgetsIffCurrent(ss: seq<Sys>, steps: seq<Step>, k: nat, i: nat, n: nat)
    requires IsRun(ss, steps) && k < |ss| && i < |ss[k].tb.slots| == |ss[k].arms| && n > 0
    ensures var tb, ticket := ss[k].tb, TicketFor(ss[k].tb.loop, i, n);
            Forget(tb, IndexOf(ticket), GenerationOf(ticket)) ==
              if PhaseAt(tb, i) != FREE && (ss[k].arms[i] - n) % CYCLE == 0 then tb.(slots := tb.slots[i := tb.slots[i].(req := None)])
              else tb
  {
    RunInv(ss, steps, k);
    hide IsRun;
    var s := ss[k];
    if s.arms[i] == 0 {
      NeverArmedIsFree(ss, steps, k, i);
    } else {
      SameGeneration(s.arms[i], n);
    }
    ForgetsAt(s, i, n, (s.arms[i] - n) % CYCLE == 0);
  }

  lemma ForgetsAt(s: Sys, i: nat, n: nat, current: bool)
    requires Shape(s.tb) && i < |s.tb.slots| == |s.arms| && WordAt(s, i)
    requires if s.arms[i] == 0 then PhaseAt(s.tb, i) == FREE else current == (GenerationAfter(s.arms[i]) == GenerationAfter(n))
    ensures var ticket := TicketFor(s.tb.loop, i, n);
            Forget(s.tb, IndexOf(ticket), GenerationOf(ticket)) ==
              if PhaseAt(s.tb, i) != FREE && current then s.tb.(slots := s.tb.slots[i := s.tb.slots[i].(req := None)]) else s.tb
  {
    WordReads(s, i);
    TicketRoundTrip(s.tb.loop, i, GenerationAfter(n));
    hide StateOf, GenerationAfter, PhaseIn, GenerationIn, TicketOf, IndexOf, GenerationOf, WordAt;
    ForgetIs(s.tb, i, GenerationAfter(n));
  }

  lemma ForgetIs(tb: Table, i: nat, generation: nat)
    requires i < |tb.slots| && generation < GENERATIONS
    ensures Forget(tb, i, generation) ==
            if PhaseAt(tb, i) != FREE && GenerationIn(tb.slots[i].state) == generation then tb.(slots := tb.slots[i := tb.slots[i].(req := None)])
            else tb
  {
  }

  lemma {:induction false} NeverArmedIsFree(ss: seq<Sys>, steps: seq<Step>, k: nat, i: nat)
    requires IsRun(ss, steps) && k < |ss| && i < |ss[k].tb.slots| == |ss[k].arms| && ss[k].arms[i] == 0
    ensures PhaseAt(ss[k].tb, i) == FREE
  {
    if k == 0 {
      StateRoundTrip(0, FREE);
    } else {
      RunInv(ss, steps, k - 1);
      RunStep(ss, steps, k - 1);
      StepEffect(ss[k - 1], steps[k - 1], i);
      NeverArmedIsFree(ss, steps, k - 1, i);
    }
  }

  /** A slot becomes armed only by being armed, which is counted. */
  lemma StepEffect(s: Sys, step: Step, i: nat)
    requires Inv(s) && Enabled(s, step) && i < |s.tb.slots|
    ensures var t := Apply(s, step);
            && |t.tb.slots| == |s.tb.slots| && |t.arms| == |s.arms| && t.tb.loop == s.tb.loop
            && t.arms[i] >= s.arms[i]
            && (t.arms[i] == s.arms[i] ==>
                  && (PhaseAt(s.tb, i) != ARMED ==> PhaseAt(t.tb, i) != ARMED)
                  && (PhaseAt(s.tb, i) == FREE ==> PhaseAt(t.tb, i) == FREE))
  {
    match step
    case ClaimWith(ticket) => ClaimEffect(s.tb, ticket);
    case ReleaseStore => StateRoundTrip(GenerationIn(s.pc.word), FREE);
    case _ =>
  }

  lemma {:induction false} Onward(ss: seq<Sys>, steps: seq<Step>, k: nat, l: nat, i: nat)
    requires IsRun(ss, steps) && k <= l < |ss| && i < |ss[k].tb.slots|
    ensures |ss[l].tb.slots| == |ss[k].tb.slots| && |ss[l].arms| == |ss[k].arms| == |ss[k].tb.slots|
    ensures ss[l].tb.loop == ss[k].tb.loop
    ensures ss[l].arms[i] >= ss[k].arms[i]
    ensures ss[l].arms[i] == ss[k].arms[i] && PhaseAt(ss[k].tb, i) != ARMED ==> PhaseAt(ss[l].tb, i) != ARMED
    decreases l - k
  {
    RunInv(ss, steps, k);
    if k < l {
      Onward(ss, steps, k, l - 1, i);
      RunInv(ss, steps, l - 1);
      RunStep(ss, steps, l - 1);
      StepEffect(ss[l - 1], steps[l - 1], i);
    }
  }

  /**
   * At most once: if one ticket claims twice in a run, its slot was armed a positive multiple of
   * 2^30 - 1 times in between -- so below that many re-arms neither the first claimer's ticket nor
   * any older one can claim a later occupant.
   */
  lemma ClaimedAtMostOnce(ss: seq<Sys>, steps: seq<Step>, k: nat, l: nat, i: nat, n: nat)
    requires IsRun(ss, steps) && k < l < |steps| && i < |ss[k].tb.slots| && n > 0
    requires steps[k] == steps[l] == ClaimWith(TicketFor(ss[k].tb.loop, i, n))
    requires Claimable(ss[k].tb, TicketFor(ss[k].tb.loop, i, n)).Some?
    requires Claimable(ss[l].tb, TicketFor(ss[k].tb.loop, i, n)).Some?
    ensures |ss[l].arms| == |ss[k].arms| == |ss[k].tb.slots|
    ensures ss[l].arms[i] - ss[k].arms[i] >= CYCLE && (ss[l].arms[i] - ss[k].arms[i]) % CYCLE == 0
  {
    Onward(ss, steps, k, l, i);
    Onward(ss, steps, k + 1, l, i);
    Onward(ss, steps, k, k + 1, i);
    RunStep(ss, steps, k);
    ClaimsIffCurrent(ss, steps, k, i, n);
    ClaimsIffCurrent(ss, steps, l, i, n);
    ClaimEffect(ss[k].tb, TicketFor(ss[k].tb.loop, i, n));
    var a, b := ss[k].arms[i], ss[l].arms[i];
    Divides((b - n) / CYCLE - (a - n) / CYCLE, 0, CYCLE);
  }
}
