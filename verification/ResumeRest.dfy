/**
 * That the protocol comes to rest: every step of a handler that ends, of a worker, of the wake-up and of the
 * walk brings it nearer to the state in which everything has been delivered.
 */
module ResumeRest {
  import opened Options
  import opened DeferTable
  import opened ResumeProtocol

  function Resuming(slots: seq<Slot>): nat {
    if slots == [] then 0 else (if PhaseIn(slots[0].state) == RESUMING then 1 else 0) + Resuming(slots[1..])
  }

  lemma {:induction false} ResumingUpdate(slots: seq<Slot>, i: nat, x: Slot)
    requires i < |slots|
    ensures Resuming(slots[i := x]) == Resuming(slots) - (if PhaseIn(slots[i].state) == RESUMING then 1 else 0) +
                                       (if PhaseIn(x.state) == RESUMING then 1 else 0)
  {
    if i == 0 {
      assert slots[i := x][1..] == slots[1..];
    } else {
      assert slots[i := x][1..] == slots[1..][i - 1 := x];
      ResumingUpdate(slots[1..], i - 1, x);
    }
  }

  /** What the loop itself has before it. */
  function LoopLeft(p: LoopPc, n: nat): nat {
    match p
    case Walking(i) => if i <= n then n - i + 1 else 1
    case Calling(_, _) => n + 3
    case Called(_, _) => n + 2
    case Enqueuing(_, _) => 2 * n + 9
    case Handling(_) => 1
    case Idle => 0
  }

  function Weigh(a: nat, each: nat): nat {
    a * each
  }

  /** What is left to do until everything that was handed over is delivered. */
  function Left(s: State): nat {
    var n := |s.tb.slots|;
    Weigh(|s.flying|, 2 * n + 7) + Weigh(|s.claimers|, n + 3) + Weigh(Resuming(s.tb.slots), n + 3) +
    (if s.pending then n + 2 else 0) + LoopLeft(s.loop, n)
  }

  /** The steps that are bound to come: a handler hands over its unit and leaves, the unit is finished, the loop
      is woken, walks and delivers. */
  predicate Inner(step: Step) {
    || step.Enqueue? || step.HandlerLeaves? || step.Finished? || step.Send? || step.AsyncFires?
    || step.Walk? || step.RunDone? || step.DeliveryLeaves?
  }

  lemma Times(a: nat, b: nat, d: nat)
    requires a == b + 1
    ensures Weigh(a, d) == Weigh(b, d) + d
  {
  }

  lemma OneLess<T>(s: set<T>, x: T)
    requires x in s
    ensures |s - {x}| == |s| - 1
  {
  }

  lemma FinishedBrings(ss: seq<State>, k: nat, u: Unit)
    requires IsRun(ss) && k < |ss| && Enabled(ss[k], Finished(u))
    ensures Left(Apply(ss[k], Finished(u))) < Left(ss[k])
  {
    EveryFinishedClaims(ss, k, u);
    hide IsRun, Resuming, LoopLeft, Weigh;
    var s, t := ss[k], Apply(ss[k], Finished(u));
    var i := Home(s, u);
    ClaimIs(s.tb, s.tickets[u], i);
    ResumingUpdate(s.tb.slots, i, t.tb.slots[i]);
    OneLess(s.flying, u);
    var n := |s.tb.slots|;
    Times(|s.flying|, |t.flying|, 2 * n + 7);
    OneMore(s.claimers, u);
    WeighMore(|t.claimers|, |s.claimers| + 1, n + 3);
    Times(|s.claimers| + 1, |s.claimers|, n + 3);
    WeighMore(Resuming(t.tb.slots), Resuming(s.tb.slots) + 1, n + 3);
    Times(Resuming(s.tb.slots) + 1, Resuming(s.tb.slots), n + 3);
  }

  lemma WeighMore(a: nat, b: nat, d: nat)
    requires a <= b
    ensures Weigh(a, d) <= Weigh(b, d)
  {
  }

  lemma OneMore<T>(s: set<T>, x: T)
    ensures |s + {x}| <= |s| + 1
  {
    if x in s {
      assert s + {x} == s;
    }
  }

  lemma ClaimIs(tb: Table, ticket: nat, i: nat)
    requires Claimable(tb, ticket) == Some(i)
    ensures i < |tb.slots| && Claim(tb, ticket).slots == tb.slots[i := Claim(tb, ticket).slots[i]]
  {
  }

  lemma SendBrings(s: State, u: Unit)
    requires Enabled(s, Send(u))
    ensures Left(Apply(s, Send(u))) < Left(s)
  {
    hide Resuming, LoopLeft, Weigh;
    var t := Apply(s, Send(u));
    OneLess(s.claimers, u);
    Times(|s.claimers|, |t.claimers|, |s.tb.slots| + 3);
  }

  /** The loop's own place and the pending wake-up are all that changed. */
  lemma LoopMoves(s: State, t: State)
    requires t.tb.slots == s.tb.slots && t.flying == s.flying && t.claimers == s.claimers && t.pending == s.pending
    requires LoopLeft(t.loop, |s.tb.slots|) < LoopLeft(s.loop, |s.tb.slots|)
    ensures Left(t) < Left(s)
  {
    hide Resuming, LoopLeft, Weigh;
  }

  /** A released slot is one resuming slot less. */
  lemma ReleaseIs(tb: Table, i: nat)
    requires i < |tb.slots| && PhaseAt(tb, i) == RESUMING
    ensures |Release(tb, i).slots| == |tb.slots| && Resuming(tb.slots) == Resuming(Release(tb, i).slots) + 1
  {
    hide Resuming;
    StateRoundTrip(GenerationIn(tb.slots[i].state), FREE);
    var x := Release(tb, i).slots[i];
    assert Release(tb, i).slots == tb.slots[i := x];
    ResumingUpdate(tb.slots, i, x);
  }

  lemma DeliveryBrings(s: State, t: State)
    requires |t.tb.slots| == |s.tb.slots| && Resuming(s.tb.slots) == Resuming(t.tb.slots) + 1
    requires t.flying == s.flying && t.claimers == s.claimers && t.pending == s.pending && s.loop.Walking? && t.loop.Calling?
    ensures Left(t) < Left(s)
  {
    hide Resuming, Weigh;
    Times(Resuming(s.tb.slots), Resuming(t.tb.slots), |s.tb.slots| + 3);
  }

  lemma WalkBrings(s: State)
    requires Enabled(s, Walk) && (forall i | 0 <= i < |s.tb.slots| && PhaseAt(s.tb, i) == RESUMING :: s.tb.slots[i].work.Some?)
    ensures Left(Apply(s, Walk)) < Left(s)
  {
    hide Left, Resuming, Weigh, Release, PhaseIn;
    var i := s.loop.i;
    if i < |s.tb.slots| && PhaseAt(s.tb, i) == RESUMING {
      ReleaseIs(s.tb, i);
      DeliveryBrings(s, Apply(s, Walk));
    } else {
      LoopMoves(s, Apply(s, Walk));
    }
  }

  lemma EnqueueBrings(s: State)
    requires Enabled(s, Enqueue)
    ensures Left(Apply(s, Enqueue)) < Left(s)
  {
    hide Resuming, Weigh;
    var n := |s.tb.slots|;
    OneMore(s.flying, s.loop.unit);
    WeighMore(|Apply(s, Enqueue).flying|, |s.flying| + 1, 2 * n + 7);
    Times(|s.flying| + 1, |s.flying|, 2 * n + 7);
  }

  lemma HandlerBrings(s: State)
    requires Enabled(s, HandlerLeaves)
    ensures Left(Apply(s, HandlerLeaves)) < Left(s)
  {
    hide Left;
    LoopMoves(s, Apply(s, HandlerLeaves));
  }

  lemma FiringBrings(s: State)
    requires Enabled(s, AsyncFires)
    ensures Left(Apply(s, AsyncFires)) < Left(s)
  {
    hide Resuming, Weigh;
  }

  lemma RunDoneBrings(s: State)
    requires Enabled(s, RunDone)
    ensures Left(Apply(s, RunDone)) < Left(s)
  {
    hide Left;
    LoopMoves(s, Apply(s, RunDone));
  }

  lemma LeavingBrings(s: State)
    requires Enabled(s, DeliveryLeaves)
    ensures Left(Apply(s, DeliveryLeaves)) < Left(s)
  {
    hide Left;
    LoopMoves(s, Apply(s, DeliveryLeaves));
  }

  lemma SlotsHaveWork(ss: seq<State>, k: nat)
    requires IsRun(ss) && k < |ss|
    ensures forall i | 0 <= i < |ss[k].tb.slots| && PhaseAt(ss[k].tb, i) == RESUMING :: ss[k].tb.slots[i].work.Some?
  {
    RunInv(ss, k);
    var s := ss[k];
    forall i | 0 <= i < |s.tb.slots| && PhaseAt(s.tb, i) == RESUMING
      ensures s.tb.slots[i].work.Some?
    {
      assert InvSlot(s, i);
    }
  }

  /**
   * In every run every such step leaves less. So once no request arrives, nothing is parked and no client leaves,
   * only finitely many follow.
   */
  lemma EveryStepLeavesLess(ss: seq<State>, k: nat, step: Step)
    requires IsRun(ss) && k < |ss| && Enabled(ss[k], step) && Inner(step)
    ensures Left(Apply(ss[k], step)) < Left(ss[k])
  {
    SlotsHaveWork(ss, k);
    hide IsRun, Left;
    match step
    case Enqueue => EnqueueBrings(ss[k]);
    case HandlerLeaves => HandlerBrings(ss[k]);
    case Finished(u) => FinishedBrings(ss, k, u);
    case Send(u) => SendBrings(ss[k], u);
    case Walk => WalkBrings(ss[k]);
    case AsyncFires => FiringBrings(ss[k]);
    case RunDone => RunDoneBrings(ss[k]);
    case DeliveryLeaves => LeavingBrings(ss[k]);
  }

  /** And one is always possible, unless all is at rest. */
  lemma OrAtRest(ss: seq<State>, k: nat) returns (step: Step)
    requires IsRun(ss) && k < |ss|
    ensures (Inner(step) && Enabled(ss[k], step)) ||
            (ss[k].loop.Idle? && ss[k].flying == {} && ss[k].claimers == {} && !ss[k].pending)
  {
    var s := ss[k];
    step := Walk;
    if s.loop.Calling? {
      RunInv(ss, k);
      assert InvLoop(s);
      step := RunDone;
    } else if s.loop.Handling? {
      step := HandlerLeaves;
    } else if s.loop.Enqueuing? {
      step := Enqueue;
    } else if s.loop.Called? {
      step := DeliveryLeaves;
    } else if s.loop.Idle? {
      if s.pending {
        step := AsyncFires;
      } else if s.claimers != {} {
        var u :| u in s.claimers;
        step := Send(u);
      } else if s.flying != {} {
        var u :| u in s.flying;
        EveryFinishedClaims(ss, k, u);
        step := Finished(u);
      }
    }
  }

  /** A client that has left is in no slot that is taken: `done` cannot be given its request. */
  lemma GoneIsForgotten(ss: seq<State>, k: nat, r: Req, i: nat)
    requires IsRun(ss) && k < |ss| && Enabled(ss[k], ClientGone(r)) && i < |ss[k].tb.slots|
    ensures var t := Apply(ss[k], ClientGone(r));
            r !in t.live && r !in t.deferred && i < |t.tb.slots| && (PhaseAt(t.tb, i) != FREE ==> t.tb.slots[i].req != Some(r))
  {
    RunInv(ss, k);
    var s, t := ss[k], Apply(ss[k], ClientGone(r));
    InvStep(s, ClientGone(r));
    assert InvSlot(t, i) && InvReq(t, r);
  }
}
