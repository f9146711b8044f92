/**
 * A pass of the sweeper over the queues of all groups, between two ticks of its timer, with everything else
 * going on meanwhile.
 */
module SweepPass {
  import opened GroupQueue
  import opened Executor

  /** Between two timer ticks: the sweeper has left its wait at `a` and is not back at it before `b`. */
  ghost predicate InPass(ss: seq<State>, a: nat, b: nat) {
    && a < b < |ss| && ss[a].sweeper.Waiting?
    && forall k | a < k <= b :: !ss[k].sweeper.Waiting? && !ss[k].sweeper.Returned?
  }

  /** At `m` the group is swept. */
  ghost predicate SweptAt(ss: seq<State>, m: nat, g: nat) {
    m + 1 < |ss| && ss[m].sweeper == At(g) && g < |ss[m].groups| && ss[m + 1] == DoSweepGroup(ss[m])
  }

  ghost predicate SweptIn(ss: seq<State>, a: nat, b: nat, g: nat) {
    exists m :: a < m < b && SweptAt(ss, m, g)
  }

  /** How the sweeper may move. */
  ghost predicate Moves(s: State, t: State) {
    && |t.groups| == |s.groups|
    && (s.sweeper.Waiting? ==> t.sweeper.Waiting? || t.sweeper.Returned? || t.sweeper == At(0))
    && (s.sweeper.Returned? ==> t.sweeper.Returned?)
    && (s.sweeper.At? ==>
          || t.sweeper == s.sweeper
          || (s.sweeper.g < |s.groups| && t == DoSweepGroup(s) && t.sweeper.Handing? && t.sweeper.g == s.sweeper.g)
          || (s.sweeper.g >= |s.groups| && t.sweeper.Waiting?))
    && (s.sweeper.Handing? ==>
          || (t.sweeper.Handing? && t.sweeper.g == s.sweeper.g)
          || t.sweeper == At(s.sweeper.g + 1))
  }

  lemma StepMoves(s: State, step: Step)
    requires Enabled(s, step)
    ensures Moves(s, Apply(s, step))
  {
    hide ExpiredPrefix, Expiries, Queued, Tally;
  }

  lemma StepOf(s: State, t: State) returns (step: Step)
    requires Next(s, t)
    ensures Enabled(s, step) && t == Apply(s, step)
  {
    hide Enabled, Apply;
    step :| Enabled(s, step) && t == Apply(s, step);
  }

  lemma MovesNext(ss: seq<State>, k: nat)
    requires IsRun(ss) && k + 1 < |ss|
    ensures Moves(ss[k], ss[k + 1])
  {
    assert Next(ss[k], ss[k + 1]);
    hide IsRun, Next, Enabled, Apply, Moves;
    var step := StepOf(ss[k], ss[k + 1]);
    StepMoves(ss[k], step);
  }

  /** Up to where the groups have been swept. */
  function Reached(p: SweeperPc): nat {
    match p
    case At(g) => g
    case Handing(g, _) => g + 1
    case _ => 0
  }

  lemma {:induction false} GroupsKept(ss: seq<State>, a: nat, b: nat)
    requires IsRun(ss) && a <= b < |ss|
    ensures |ss[b].groups| == |ss[a].groups|
    decreases b
  {
    hide IsRun, DoSweepGroup;
    if a < b {
      GroupsKept(ss, a, b - 1);
      MovesNext(ss, b - 1);
    }
  }

  lemma {:induction false} PassReaches(ss: seq<State>, a: nat, b: nat, g: nat)
    requires IsRun(ss) && InPass(ss, a, b) && g < |ss[a].groups| && g < Reached(ss[b].sweeper)
    ensures SweptIn(ss, a, b, g)
    decreases b
  {
    hide IsRun, DoSweepGroup;
    var c := b - 1;
    MovesNext(ss, c);
    if c > a {
      GroupsKept(ss, a, c);
      if g < Reached(ss[c].sweeper) {
        PassReaches(ss, a, c, g);
        var m :| a < m < c && SweptAt(ss, m, g);
        assert a < m < b;
      } else {
        assert SweptAt(ss, c, g);
      }
    }
  }

  /** A whole pass: from the wait, and back at it for the first time. */
  ghost predicate WholePass(ss: seq<State>, a: nat, b: nat) {
    a + 1 < b < |ss| && InPass(ss, a, b - 1) && ss[b].sweeper.Waiting?
  }

  /** In every run, every whole pass sweeps every group. */
  lemma PassSweepsEveryGroup(ss: seq<State>, a: nat, b: nat, g: nat)
    requires IsRun(ss) && WholePass(ss, a, b) && g < |ss[a].groups|
    ensures SweptIn(ss, a, b, g)
  {
    hide IsRun, DoSweepGroup, SweptAt;
    var c := b - 1;
    GroupsKept(ss, a, c);
    MovesNext(ss, c);
    PassReaches(ss, a, c, g);
    var m :| a < m < c && SweptAt(ss, m, g);
    assert a < m < b;
  }

  /** What a unit and its group have behind them stays, and the clock does not go back. */
  ghost predicate Later(s: State, t: State, g: nat, u: UnitId) {
    && g < |s.groups| && g < |t.groups|
    && (u in s.groups[g].left ==> u in t.groups[g].left) && (u in s.groups[g].accepted ==> u in t.groups[g].accepted)
    && s.clock <= t.clock && s.limit == t.limit
    && (u in s.since ==> u in t.since && t.since[u] == s.since[u])
  }

  lemma LaterStep(s: State, step: Step, g: nat, u: UnitId)
    requires Enabled(s, step) && InvTimes(s) && g < |s.groups|
    ensures Later(s, Apply(s, step), g, u)
  {
    hide ExpiredPrefix, Expiries, Queued, Tally;
  }

  lemma LaterNext(ss: seq<State>, k: nat, g: nat, u: UnitId)
    requires IsRun(ss) && k + 1 < |ss| && g < |ss[k].groups|
    ensures Later(ss[k], ss[k + 1], g, u)
  {
    RunInv(ss, k);
    assert Next(ss[k], ss[k + 1]);
    var s := ss[k];
    assert InvTimes(s);
    hide Inv, IsRun, Next, Enabled, Apply, Later, InvTimes;
    var step := StepOf(s, ss[k + 1]);
    LaterStep(s, step, g, u);
  }

  lemma LaterTrans(s: State, t: State, v: State, g: nat, u: UnitId)
    requires Later(s, t, g, u) && Later(t, v, g, u)
    ensures Later(s, v, g, u)
  {
  }

  lemma {:induction false} LaterIn(ss: seq<State>, a: nat, b: nat, g: nat, u: UnitId)
    requires IsRun(ss) && a <= b < |ss| && g < |ss[a].groups|
    ensures Later(ss[a], ss[b], g, u)
    decreases b
  {
    hide IsRun;
    if a < b {
      LaterIn(ss, a, b - 1, g, u);
      LaterNext(ss, b - 1, g, u);
      LaterTrans(ss[a], ss[b - 1], ss[b], g, u);
    }
  }

  lemma {:induction false} TimesIn(xs: seq<UnitId>, u: UnitId)
    ensures Times(xs, u) > 0 <==> u in xs
  {
    if xs != [] {
      TimesIn(xs[1..], u);
    }
  }

  lemma {:induction false} TimesBounded(gs: seq<GroupState>, g: nat, u: UnitId)
    requires g < |gs|
    ensures Times(gs[g].accepted, u) <= AcceptedTimes(gs, u)
    decreases g
  {
    if g > 0 {
      TimesBounded(gs[1..], g - 1, u);
    }
  }

  /** A unit is queued in a group exactly if it was accepted there and has not left. */
  lemma QueuedIff(ss: seq<State>, k: nat, g: nat, u: UnitId)
    requires IsRun(ss) && k < |ss| && g < |ss[k].groups|
    ensures u in Queued(ss[k].groups[g].q.entries) <==> u in ss[k].groups[g].accepted && u !in ss[k].groups[g].left
  {
    RunInv(ss, k);
    var gr := ss[k].groups[g];
    assert InvQueue(ss[k], g) && InvConserve(ss[k], u);
    TimesBounded(ss[k].groups, g, u);
    TimesConcat(gr.left, Queued(gr.q.entries), u);
    TimesIn(gr.left, u);
    TimesIn(gr.accepted, u);
    TimesIn(Queued(gr.q.entries), u);
  }

  /** A group that was just swept holds no unit past the limit. */
  lemma SweptIsClean(s: State, g: nat, u: UnitId)
    requires g < |s.groups| && s.sweeper == At(g) && InvQueue(s, g) && InvTimes(s)
    requires u in s.since && s.clock > s.since[u] + s.limit
    ensures g < |DoSweepGroup(s).groups| && u !in Queued(DoSweepGroup(s).groups[g].q.entries)
  {
    var es := s.groups[g].q.entries;
    var k := ExpiredPrefix(es, s.clock, s.limit);
    hide ExpiredPrefix, Expiries;
    forall i | k <= i < |es|
      ensures es[i].unit != u
    {
      assert Stamped(s, es[i]);
      assert i > k ==> es[k].at <= es[i].at;
    }
  }

  lemma InvAt(ss: seq<State>, m: nat, g: nat)
    requires IsRun(ss) && m < |ss| && g < |ss[m].groups|
    ensures InvQueue(ss[m], g) && InvTimes(ss[m])
  {
    RunInv(ss, m);
  }

  /** A unit that was accepted, and is past the limit when its group is swept, is out of the queue then. */
  lemma OutOnceSwept(ss: seq<State>, m: nat, g: nat, u: UnitId)
    requires IsRun(ss) && SweptAt(ss, m, g) && u in ss[m].groups[g].accepted
    requires u in ss[m].since && ss[m].clock > ss[m].since[u] + ss[m].limit
    ensures g < |ss[m + 1].groups| && u in ss[m + 1].groups[g].left
  {
    hide Inv, IsRun, Queued, DoSweepGroup, InvQueue, InvTimes;
    InvAt(ss, m, g);
    SweptIsClean(ss[m], g, u);
    LaterIn(ss, m, m + 1, g, u);
    QueuedIff(ss, m + 1, g, u);
  }

  /**
   * So a unit that was queued and past the limit when a pass began has left its queue when the pass ends,
   * whatever the workers of its group are doing.
   */
  lemma PassLeavesNothingExpired(ss: seq<State>, a: nat, b: nat, g: nat, u: UnitId)
    requires IsRun(ss) && WholePass(ss, a, b) && g < |ss[a].groups|
    requires u in Queued(ss[a].groups[g].q.entries) && u in ss[a].since && ss[a].clock > ss[a].since[u] + ss[a].limit
    ensures g < |ss[b].groups| && u in ss[b].groups[g].accepted && u !in Queued(ss[b].groups[g].q.entries)
  {
    hide IsRun, WholePass, Queued, SweptAt, Later;
    PassBounds(ss, a, b);
    PassSweepsEveryGroup(ss, a, b, g);
    var m :| a < m < b && SweptAt(ss, m, g);
    SweptHas(ss, m, g);
    QueuedIff(ss, a, g, u);
    OutBy(ss, a, m, b, g, u);
    QueuedIff(ss, b, g, u);
  }

  lemma PassBounds(ss: seq<State>, a: nat, b: nat)
    requires WholePass(ss, a, b)
    ensures a < b < |ss|
  {
  }

  lemma OutBy(ss: seq<State>, a: nat, m: nat, b: nat, g: nat, u: UnitId)
    requires IsRun(ss) && a < m < b < |ss| && g < |ss[a].groups| && SweptAt(ss, m, g) && u in ss[a].groups[g].accepted
    requires u in ss[a].since && ss[a].clock > ss[a].since[u] + ss[a].limit
    ensures g < |ss[b].groups| && u in ss[b].groups[g].accepted && u in ss[b].groups[g].left
  {
    hide IsRun, SweptAt;
    LaterIn(ss, a, m, g, u);
    OutOnceSwept(ss, m, g, u);
    LaterIn(ss, m + 1, b, g, u);
    LaterIn(ss, a, b, g, u);
  }

  lemma SweptHas(ss: seq<State>, m: nat, g: nat)
    requires SweptAt(ss, m, g)
    ensures m + 1 < |ss| && g < |ss[m].groups| && g < |ss[m + 1].groups|
  {
  }

  lemma {:induction false} LeftBounded(gs: seq<GroupState>, g: nat, u: UnitId)
    requires g < |gs|
    ensures Times(gs[g].left, u) <= LeftTimes(gs, u)
    decreases g
  {
    if g > 0 {
      LeftBounded(gs[1..], g - 1, u);
    }
  }

  /** And it has been handed back, unless a worker took it meanwhile and still has it. */
  lemma PassAnswersExpired(ss: seq<State>, a: nat, b: nat, g: nat, u: UnitId)
    requires IsRun(ss) && WholePass(ss, a, b) && g < |ss[a].groups|
    requires u in Queued(ss[a].groups[g].q.entries) && u in ss[a].since && ss[a].clock > ss[a].since[u] + ss[a].limit
    ensures b < |ss| && HeldTimes(ss[b].workers, u) + FinishedTimes(ss[b], u) == 1
  {
    hide IsRun, Queued, HeldTimes, FinishedTimes;
    PassLeavesNothingExpired(ss, a, b, g, u);
    QueuedIff(ss, b, g, u);
    ExactlyOnce(ss, b, u);
    LeftOnce(ss, b, u);
    LeftBounded(ss[b].groups, g, u);
    TimesIn(ss[b].groups[g].left, u);
  }

  lemma LeftOnce(ss: seq<State>, b: nat, u: UnitId)
    requires IsRun(ss) && b < |ss|
    ensures LeftTimes(ss[b].groups, u) == HeldTimes(ss[b].workers, u) + SweptTimes(ss[b].sweeper, u) + FinishedTimes(ss[b], u)
  {
    RunInv(ss, b);
    assert InvConserve(ss[b], u);
  }

  // ----- that a pass ends, and a close -----

  /** What the sweeper has before it until it waits again: the groups it has not reached, then what it has in hand. */
  function GroupsAhead(s: State): nat {
    match s.sweeper
    case At(g) => if g < |s.groups| then 2 * (|s.groups| - g) + 1 else 1
    case Handing(g, _) => if g < |s.groups| then 2 * (|s.groups| - g) else 2
    case _ => 0
  }

  predicate Nearer(s: State, t: State) {
    || GroupsAhead(t) < GroupsAhead(s)
    || (GroupsAhead(t) == GroupsAhead(s) && s.sweeper.Handing? && t.sweeper.Handing? && |t.sweeper.rest| < |s.sweeper.rest|)
  }

  /**
   * A pass goes on: every step of the sweeper brings it nearer to its wait, and a unit it holds leaves its hands
   * only into the log, the first one taken out first.
   */
  lemma PassGoesOn(s: State, step: Step)
    requires Enabled(s, step) && (step.SweepGroup? || step.SweepHandBack?)
    ensures Nearer(s, Apply(s, step))
    ensures s.sweeper.Handing? && s.sweeper.rest != [] ==>
              Apply(s, step).sweeper.Handing? && Apply(s, step).log + Apply(s, step).sweeper.rest == s.log + s.sweeper.rest
  {
    hide ExpiredPrefix, Expiries, Queued;
  }

  lemma OpenStep(s: State, step: Step)
    requires Enabled(s, step) && (s.closer.Open? ==> !s.sweeper.Returned?)
    ensures Apply(s, step).closer.Open? ==> !Apply(s, step).sweeper.Returned?
  {
    hide ExpiredPrefix, Expiries, Queued, Tally;
  }

  /** While the executor is open the sweeper is there: waiting, and then the timer starts a pass, or in one, which goes on. */
  lemma SweepsWhileOpen(ss: seq<State>, k: nat)
    requires IsRun(ss) && k < |ss| && ss[k].closer.Open?
    ensures !ss[k].sweeper.Returned?
    ensures ss[k].sweeper.Waiting? ==> Enabled(ss[k], SweepTimer) && Apply(ss[k], SweepTimer).sweeper == At(0)
    ensures !ss[k].sweeper.Waiting? ==> exists step :: Enabled(ss[k], step) && Nearer(ss[k], Apply(ss[k], step))
  {
    OpenMeansThere(ss, k);
    hide IsRun, Nearer, Next;
    if ss[k].sweeper.At? {
      PassGoesOn(ss[k], SweepGroup);
    } else if ss[k].sweeper.Handing? {
      PassGoesOn(ss[k], SweepHandBack);
    }
  }

  lemma {:induction false} OpenMeansThere(ss: seq<State>, k: nat)
    requires IsRun(ss) && k < |ss|
    ensures ss[k].closer.Open? ==> !ss[k].sweeper.Returned?
  {
    if k > 0 {
      var j := k - 1;
      OpenMeansThere(ss, j);
      assert Next(ss[j], ss[k]);
      hide IsRun, Next, Enabled, Apply;
      var step := StepOf(ss[j], ss[k]);
      OpenStep(ss[j], step);
    }
  }

  /** What a close has before it. */
  function CloseAhead(s: State): nat {
    var n, m := |s.groups|, |s.workers|;
    match s.closer
    case Open => n + m + 5
    case SweepStop => n + m + 4
    case Stopping(i) => if i <= n then n - i + m + 3 else m + 3
    case Joining(i) => if i <= m then m - i + 1 else 1
    case Closed => 0
  }

  /** Every step of the closing thread brings it nearer to its return, and no other step takes it back. */
  lemma CloseGoesOn(s: State, step: Step)
    requires Enabled(s, step)
    ensures CloseAhead(Apply(s, step)) <= CloseAhead(s)
    ensures step.CloseSweeper? || step.CloseJoinSweeper? || step.CloseStop? || step.CloseJoin? ==>
              CloseAhead(Apply(s, step)) < CloseAhead(s)
  {
    hide ExpiredPrefix, Expiries, Queued, Tally;
  }
}
