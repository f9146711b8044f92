/**
 * The executor as a step system: submitters, workers, the sweeper and the closing thread over the
 * queues of all groups. A step is one locked section or one action between two of them, so a run
 * is an arbitrary interleaving. What every run keeps is `Inv`; the theorems at the end read it.
 */
module Executor {
  import opened GroupQueue

  /** Names one submission: the same memory submitted again is another one. */
  type UnitId = nat

  datatype Outcome = Ran | TooLate | Swept

  /** One call of the `finished` hook, with how long the unit had waited and when that was decided. */
  datatype Finish = Finish(unit: UnitId, outcome: Outcome, waited: nat, decided: nat)

  /** Where a worker is: before the lock, in the condition wait, on its way out of the wait with
      the lock not yet taken again, with a unit just taken, about to hand it back, or returned. */
  datatype Pc = Top | Asleep | Woken | Holding(entry: Entry<UnitId>) | Ending(finish: Finish) | Gone

  datatype Worker = Worker(group: nat, pc: Pc)

  datatype SweeperPc = Waiting | At(g: nat) | Handing(g: nat, rest: seq<Finish>) | Returned

  datatype CloserPc = Open | SweepStop | Stopping(i: nat) | Joining(i: nat) | Closed

  /** `accepted` and `left` are histories: the units that went in and the units that came out. */
  datatype GroupState = GroupState(q: Queue<UnitId>, idle: int, accepted: seq<UnitId>, left: seq<UnitId>)

  datatype State = State(
    clock: nat,
    limit: nat,
    groups: seq<GroupState>,
    workers: seq<Worker>,
    sweeper: SweeperPc,
    closer: CloserPc,
    issued: set<UnitId>,
    refused: set<UnitId>,
    log: seq<Finish>,
    since: map<UnitId, nat>) // history: when a unit was accepted

  datatype Step =
    | Tick(now: nat)
    | Submit(g: nat, unit: UnitId, park: bool, wake: nat)
    | Lock(w: nat)
    | Spurious(w: nat)
    | Check(w: nat)
    | HandBack(w: nat)
    | SweepTimer
    | SweepGroup
    | SweepHandBack
    | CloseSweeper
    | CloseJoinSweeper
    | CloseStop
    | CloseJoin

  // ----- counting -----

  datatype Kind = KAsleep | KIdle | KReady

  predicate Is(p: Pc, k: Kind) {
    match k
    case KAsleep => p.Asleep?
    case KIdle => p.Asleep? || p.Woken?
    case KReady => p.Top? || p.Woken?
  }

  function One(w: Worker, g: nat, k: Kind): nat {
    if w.group == g && Is(w.pc, k) then 1 else 0
  }

  function Tally(ws: seq<Worker>, g: nat, k: Kind): nat {
    if ws == [] then 0 else One(ws[0], g, k) + Tally(ws[1..], g, k)
  }

  lemma {:induction false} TallyUpdate(ws: seq<Worker>, i: nat, w: Worker, g: nat, k: Kind)
    requires i < |ws|
    ensures Tally(ws[i := w], g, k) == Tally(ws, g, k) - One(ws[i], g, k) + One(w, g, k)
    ensures Tally(ws, g, k) >= One(ws[i], g, k)
  {
    if i == 0 {
      assert ws[i := w][1..] == ws[1..];
    } else {
      assert ws[i := w][1..] == ws[1..][i - 1 := w];
      TallyUpdate(ws[1..], i - 1, w, g, k);
    }
  }

  /** How often `u` stands in `xs`. */
  function Times(xs: seq<UnitId>, u: UnitId): nat {
    if xs == [] then 0 else (if xs[0] == u then 1 else 0) + Times(xs[1..], u)
  }

  lemma {:induction false} TimesConcat(xs: seq<UnitId>, ys: seq<UnitId>, u: UnitId)
    ensures Times(xs + ys, u) == Times(xs, u) + Times(ys, u)
  {
    if xs == [] {
      assert xs + ys == ys;
    } else {
      assert (xs + ys)[1..] == xs[1..] + ys;
      TimesConcat(xs[1..], ys, u);
    }
  }

  function UnitsOf(fs: seq<Finish>): seq<UnitId> {
    seq(|fs|, i requires 0 <= i < |fs| => fs[i].unit)
  }

  function Queued(es: seq<Entry<UnitId>>): seq<UnitId> {
    seq(|es|, i requires 0 <= i < |es| => es[i].unit)
  }

  function Carried(p: Pc): seq<UnitId> {
    match p
    case Holding(e) => [e.unit]
    case Ending(f) => [f.unit]
    case _ => []
  }

  function HeldTimes(ws: seq<Worker>, u: UnitId): nat {
    if ws == [] then 0 else Times(Carried(ws[0].pc), u) + HeldTimes(ws[1..], u)
  }

  function LeftTimes(gs: seq<GroupState>, u: UnitId): nat {
    if gs == [] then 0 else Times(gs[0].left, u) + LeftTimes(gs[1..], u)
  }

  function AcceptedTimes(gs: seq<GroupState>, u: UnitId): nat {
    if gs == [] then 0 else Times(gs[0].accepted, u) + AcceptedTimes(gs[1..], u)
  }

  function QueuedTimes(gs: seq<GroupState>, u: UnitId): nat {
    if gs == [] then 0 else Times(Queued(gs[0].q.entries), u) + QueuedTimes(gs[1..], u)
  }

  function SweptTimes(s: SweeperPc, u: UnitId): nat {
    if s.Handing? then Times(UnitsOf(s.rest), u) else 0
  }

  function FinishedTimes(s: State, u: UnitId): nat {
    Times(UnitsOf(s.log), u)
  }

  lemma {:induction false} HeldUpdate(ws: seq<Worker>, i: nat, w: Worker, u: UnitId)
    requires i < |ws|
    ensures HeldTimes(ws[i := w], u) == HeldTimes(ws, u) - Times(Carried(ws[i].pc), u) + Times(Carried(w.pc), u)
  {
    if i == 0 {
      assert ws[i := w][1..] == ws[1..];
    } else {
      assert ws[i := w][1..] == ws[1..][i - 1 := w];
      HeldUpdate(ws[1..], i - 1, w, u);
    }
  }

  lemma {:induction false} GroupUpdate(gs: seq<GroupState>, i: nat, gr: GroupState, u: UnitId)
    requires i < |gs|
    ensures LeftTimes(gs[i := gr], u) == LeftTimes(gs, u) - Times(gs[i].left, u) + Times(gr.left, u)
    ensures AcceptedTimes(gs[i := gr], u) == AcceptedTimes(gs, u) - Times(gs[i].accepted, u) + Times(gr.accepted, u)
  {
    if i == 0 {
      assert gs[i := gr][1..] == gs[1..];
    } else {
      assert gs[i := gr][1..] == gs[1..][i - 1 := gr];
      GroupUpdate(gs[1..], i - 1, gr, u);
    }
  }

  // ----- the steps -----

  predicate Enabled(s: State, step: Step) {
    match step
    case Tick(now) => now >= s.clock
    case Submit(g, u, park, wake) =>
      && g < |s.groups| && u !in s.issued && !s.closer.Closed?
      && (s.groups[g].idle != 0 && Tally(s.workers, g, KAsleep) > 0 ==>
            wake < |s.workers| && s.workers[wake] == Worker(g, Asleep))
    case Lock(w) => w < |s.workers| && (s.workers[w].pc.Top? || s.workers[w].pc.Woken?) && s.workers[w].group < |s.groups|
    case Spurious(w) => w < |s.workers| && s.workers[w].pc.Asleep?
    case Check(w) => w < |s.workers| && s.workers[w].pc.Holding?
    case HandBack(w) => w < |s.workers| && s.workers[w].pc.Ending?
    case SweepTimer => s.sweeper.Waiting?
    case SweepGroup => s.sweeper.At?
    case SweepHandBack => s.sweeper.Handing?
    case CloseSweeper => s.closer.Open?
    case CloseJoinSweeper => s.closer.SweepStop? && s.sweeper.Returned?
    case CloseStop => s.closer.Stopping?
    case CloseJoin => s.closer.Joining? && (s.closer.i < |s.workers| ==> s.workers[s.closer.i].pc.Gone?)
  }

  function SetWorker(s: State, w: nat, p: Pc): State
    requires w < |s.workers|
  {
    s.(workers := s.workers[w := Worker(s.workers[w].group, p)])
  }

  function DoSubmit(s: State, g: nat, u: UnitId, park: bool, wake: nat): State
    requires Enabled(s, Submit(g, u, park, wake))
  {
    var gr := s.groups[g];
    var s1 := s.(issued := s.issued + {u});
    if OfferStatus(gr.q, park) != Ok then
      s1.(refused := s.refused + {u})
    else
      var s2 := s1.(groups := s.groups[g := gr.(q := Offer(gr.q, u, s.clock, park), accepted := gr.accepted + [u])],
                    since := s.since[u := s.clock]);
      // The signal wakes one sleeper of the group; with none asleep it is lost.
      if gr.idle != 0 && Tally(s.workers, g, KAsleep) > 0 then SetWorker(s2, wake, Woken) else s2
  }

  /** A worker's locked section, entered from the top or on its way out of the condition wait. */
  function DoLock(s: State, w: nat): State
    requires Enabled(s, Lock(w))
  {
    var g := s.workers[w].group;
    var gr := s.groups[g];
    var gr1 := if s.workers[w].pc.Woken? then gr.(idle := gr.idle - 1) else gr;
    if gr.q.entries == [] && !gr.q.stopping then
      SetWorker(s, w, Asleep).(groups := s.groups[g := gr1.(idle := gr1.idle + 1)])
    else if gr.q.entries == [] then
      SetWorker(s, w, Gone).(groups := s.groups[g := gr1])
    else
      var e := gr.q.entries[0];
      SetWorker(s, w, Holding(e)).(groups :=
        s.groups[g := gr1.(q := gr.q.(entries := gr.q.entries[1..]), left := gr.left + [e.unit])])
  }

  function Waited(e: Entry<UnitId>, now: nat): nat {
    if now > e.at then now - e.at else 0
  }

  function DoCheck(s: State, w: nat): State
    requires Enabled(s, Check(w))
  {
    var e := s.workers[w].pc.entry;
    var waited := Waited(e, s.clock);
    SetWorker(s, w, Ending(Finish(e.unit, if waited > s.limit then TooLate else Ran, waited, s.clock)))
  }

  function Expiries(es: seq<Entry<UnitId>>, now: nat): seq<Finish> {
    seq(|es|, i requires 0 <= i < |es| => Finish(es[i].unit, Swept, Waited(es[i], now), now))
  }

  function DoSweepGroup(s: State): State
    requires Enabled(s, SweepGroup)
  {
    var g := s.sweeper.g;
    if g >= |s.groups| then s.(sweeper := Waiting)
    else
      var gr := s.groups[g];
      var k := ExpiredPrefix(gr.q.entries, s.clock, s.limit);
      s.(sweeper := Handing(g, Expiries(gr.q.entries[..k], s.clock)),
         groups := s.groups[g := gr.(q := gr.q.(entries := gr.q.entries[k..]),
                                     left := gr.left + Queued(gr.q.entries[..k]))])
  }

  function WakeAll(ws: seq<Worker>, g: nat): seq<Worker> {
    seq(|ws|, i requires 0 <= i < |ws| => if ws[i] == Worker(g, Asleep) then Worker(g, Woken) else ws[i])
  }

  function DoCloseStop(s: State): State
    requires Enabled(s, CloseStop)
  {
    var i := s.closer.i;
    if i >= |s.groups| then s.(closer := Joining(0))
    else
      var gr := s.groups[i];
      s.(closer := Stopping(i + 1),
         groups := s.groups[i := gr.(q := gr.q.(stopping := true))],
         workers := WakeAll(s.workers, i))
  }

  function Apply(s: State, step: Step): State
    requires Enabled(s, step)
  {
    match step
    case Tick(now) => s.(clock := now)
    case Submit(g, u, park, wake) => DoSubmit(s, g, u, park, wake)
    case Lock(w) => DoLock(s, w)
    case Spurious(w) => SetWorker(s, w, Woken)
    case Check(w) => DoCheck(s, w)
    case HandBack(w) => SetWorker(s, w, Top).(log := s.log + [s.workers[w].pc.finish])
    case SweepTimer => s.(sweeper := if s.closer.Open? then At(0) else Returned)
    case SweepGroup => DoSweepGroup(s)
    case SweepHandBack =>
      if s.sweeper.rest == [] then s.(sweeper := At(s.sweeper.g + 1))
      else s.(sweeper := Handing(s.sweeper.g, s.sweeper.rest[1..]), log := s.log + [s.sweeper.rest[0]])
    case CloseSweeper => s.(closer := SweepStop)
    case CloseJoinSweeper => s.(closer := Stopping(0))
    case CloseStop => DoCloseStop(s)
    case CloseJoin =>
      if s.closer.i < |s.workers| then s.(closer := Joining(s.closer.i + 1)) else s.(closer := Closed)
  }

  ghost predicate Initial(s: State) {
    && (forall g | 0 <= g < |s.groups| ::
          && s.groups[g].q.entries == [] && !s.groups[g].q.stopping && s.groups[g].idle == 0
          && s.groups[g].accepted == [] && s.groups[g].left == []
          && HasWorker(s, g))
    && (forall w | 0 <= w < |s.workers| :: s.workers[w].pc.Top? && s.workers[w].group < |s.groups|)
    && s.sweeper.Waiting? && s.closer.Open? && s.issued == {} && s.refused == {} && s.log == [] && s.since == map[]
  }

  /** Every state of a run: it starts initial and each state is a step from the one before. */
  ghost predicate IsRun(ss: seq<State>) {
    && |ss| > 0 && Initial(ss[0])
    && forall i, j | 0 <= i && i + 1 == j < |ss| :: Next(ss[i], ss[j])
  }

  ghost predicate Next(s: State, t: State) {
    exists step :: Enabled(s, step) && t == Apply(s, step)
  }

  // ----- what every step keeps -----

  ghost predicate HasWorker(s: State, g: nat) {
    exists w :: 0 <= w < |s.workers| && s.workers[w].group == g
  }

  /** Units leave a queue in the order they entered it, and never more than it may hold are in it. */
  ghost predicate InvQueue(s: State, g: nat)
    requires g < |s.groups|
  {
    var gr := s.groups[g];
    && gr.accepted == gr.left + Queued(gr.q.entries)
    && |gr.q.entries| <= gr.q.capacity
    && InOrder(gr.q.entries)
    && (forall i | 0 <= i < |gr.q.entries| :: gr.q.entries[i].at <= s.clock)
  }

  /** While a worker of the group sleeps, every queued unit has an awake, unoccupied worker of its own. */
  ghost predicate InvWake(s: State, g: nat)
    requires g < |s.groups|
  {
    && s.groups[g].idle == Tally(s.workers, g, KIdle)
    && (Tally(s.workers, g, KAsleep) > 0 ==> |s.groups[g].q.entries| <= Tally(s.workers, g, KReady))
  }

  /** What left the queues is with a worker, with the sweeper or handed back, each unit once. */
  ghost predicate InvConserve(s: State, u: UnitId) {
    && LeftTimes(s.groups, u) == HeldTimes(s.workers, u) + SweptTimes(s.sweeper, u) + FinishedTimes(s, u)
    && AcceptedTimes(s.groups, u) <= 1
    && (AcceptedTimes(s.groups, u) > 0 ==> u in s.issued && u !in s.refused)
    && (u in s.refused ==> u in s.issued)
  }

  ghost predicate InvShape(s: State) {
    && (forall w | 0 <= w < |s.workers| :: s.workers[w].group < |s.groups|)
    && (forall g | 0 <= g < |s.groups| :: HasWorker(s, g))
    && (forall w | 0 <= w < |s.workers| && s.workers[w].pc.Gone? ::
          s.groups[s.workers[w].group].q.stopping && s.groups[s.workers[w].group].q.entries == [])
  }

  ghost predicate InvClose(s: State) {
    && (!s.closer.Open? && !s.closer.SweepStop? ==> s.sweeper.Returned?)
    && (s.closer.Stopping? ==> s.closer.i <= |s.groups|)
    && (s.closer.Stopping? ==> forall g | 0 <= g < s.closer.i :: s.groups[g].q.stopping)
    && (s.closer.Joining? || s.closer.Closed? ==> forall g | 0 <= g < |s.groups| :: s.groups[g].q.stopping)
    && (s.closer.Joining? ==> s.closer.i <= |s.workers|)
    && (s.closer.Joining? ==> forall w | 0 <= w < s.closer.i :: s.workers[w].pc.Gone?)
    && (s.closer.Closed? ==> forall w | 0 <= w < |s.workers| :: s.workers[w].pc.Gone?)
  }

  predicate Honest(f: Finish, limit: nat) {
    f.outcome.Ran? <==> f.waited <= limit
  }

  ghost predicate InvOutcome(s: State) {
    && (forall i | 0 <= i < |s.log| :: Honest(s.log[i], s.limit))
    && (forall w | 0 <= w < |s.workers| && s.workers[w].pc.Ending? :: Honest(s.workers[w].pc.finish, s.limit))
    && (s.sweeper.Handing? ==> forall i | 0 <= i < |s.sweeper.rest| :: Honest(s.sweeper.rest[i], s.limit))
  }

  /** A unit's entry carries the reading of the clock at which it was accepted. */
  predicate Stamped(s: State, e: Entry<UnitId>) {
    e.unit in s.since && s.since[e.unit] == e.at
  }

  /** What is recorded as waiting is the time from acceptance to the decision. */
  predicate Timed(s: State, f: Finish) {
    f.unit in s.since && s.since[f.unit] <= f.decided <= s.clock && f.waited == f.decided - s.since[f.unit]
  }

  ghost predicate InvTimes(s: State) {
    && (forall u | u in s.since :: u in s.issued && s.since[u] <= s.clock)
    && (forall g, i | 0 <= g < |s.groups| && 0 <= i < |s.groups[g].q.entries| :: Stamped(s, s.groups[g].q.entries[i]))
    && (forall w | 0 <= w < |s.workers| && s.workers[w].pc.Holding? :: Stamped(s, s.workers[w].pc.entry))
    && (forall w | 0 <= w < |s.workers| && s.workers[w].pc.Ending? :: Timed(s, s.workers[w].pc.finish))
    && (s.sweeper.Handing? ==> forall i | 0 <= i < |s.sweeper.rest| :: Timed(s, s.sweeper.rest[i]))
    && (forall i | 0 <= i < |s.log| :: Timed(s, s.log[i]))
  }

  ghost predicate Inv(s: State) {
    && InvShape(s) && InvClose(s) && InvOutcome(s) && InvTimes(s) && (forall u :: InvConserve(s, u))
    && (forall g | 0 <= g < |s.groups| :: InvQueue(s, g))
    && (forall g | 0 <= g < |s.groups| :: InvWake(s, g))
  }

  // ----- initially -----

  lemma {:induction false} TallyZero(ws: seq<Worker>, g: nat, k: Kind)
    requires forall i | 0 <= i < |ws| :: One(ws[i], g, k) == 0
    ensures Tally(ws, g, k) == 0
  {
    if ws != [] {
      TallyZero(ws[1..], g, k);
    }
  }

  lemma {:induction false} NothingIn(gs: seq<GroupState>, ws: seq<Worker>, u: UnitId)
    ensures (forall i | 0 <= i < |gs| :: gs[i].left == [] && gs[i].accepted == []) ==>
              LeftTimes(gs, u) == 0 && AcceptedTimes(gs, u) == 0
    ensures (forall i | 0 <= i < |ws| :: Carried(ws[i].pc) == []) ==> HeldTimes(ws, u) == 0
    ensures (forall i | 0 <= i < |gs| :: gs[i].q.entries == []) ==> QueuedTimes(gs, u) == 0
    decreases |gs| + |ws|
  {
    if gs != [] {
      NothingIn(gs[1..], ws, u);
    } else if ws != [] {
      NothingIn(gs, ws[1..], u);
    }
  }

  lemma InitialInv(s: State)
    requires Initial(s)
    ensures Inv(s)
  {
    forall u
      ensures InvConserve(s, u)
    {
      NothingIn(s.groups, s.workers, u);
    }
    forall g | 0 <= g < |s.groups|
      ensures InvWake(s, g)
    {
      TallyZero(s.workers, g, KIdle);
      TallyZero(s.workers, g, KAsleep);
    }
  }

  // ----- shape, closing and outcomes -----

  lemma HasWorkerKept(s: State, t: State, g: nat)
    requires HasWorker(s, g) && |t.workers| == |s.workers|
    requires forall w | 0 <= w < |s.workers| :: t.workers[w].group == s.workers[w].group
    ensures HasWorker(t, g)
  {
    var w :| 0 <= w < |s.workers| && s.workers[w].group == g;
    assert t.workers[w].group == g;
  }

  lemma MembersKept(s: State, step: Step)
    requires Enabled(s, step)
    ensures var t := Apply(s, step);
            && |t.groups| == |s.groups| && |t.workers| == |s.workers|
            && forall w | 0 <= w < |s.workers| :: t.workers[w].group == s.workers[w].group
  {
    hide ExpiredPrefix, Expiries, Queued;
  }

  lemma GoneKept(s: State, step: Step)
    requires InvShape(s) && Enabled(s, step)
    ensures var t := Apply(s, step);
            forall w | 0 <= w < |t.workers| && t.workers[w].pc.Gone? && t.workers[w].group < |t.groups| ::
              t.groups[t.workers[w].group].q.stopping && t.groups[t.workers[w].group].q.entries == []
  {
    hide ExpiredPrefix, Expiries, Queued, HasWorker;
  }

  lemma ShapeStep(s: State, step: Step)
    requires InvShape(s) && Enabled(s, step)
    ensures InvShape(Apply(s, step))
  {
    hide Apply, Enabled, HasWorker;
    var t := Apply(s, step);
    MembersKept(s, step);
    GoneKept(s, step);
    forall g | 0 <= g < |t.groups|
      ensures HasWorker(t, g)
    {
      HasWorkerKept(s, t, g);
    }
  }

  lemma CloseStep(s: State, step: Step)
    requires InvShape(s) && InvClose(s) && Enabled(s, step)
    ensures InvClose(Apply(s, step))
  {
    hide ExpiredPrefix, Expiries, Queued, HasWorker;
  }

  lemma OutcomeStep(s: State, step: Step)
    requires InvOutcome(s) && Enabled(s, step)
    ensures InvOutcome(Apply(s, step))
  {
    if step.SweepGroup? && s.sweeper.g < |s.groups| {
      var es := s.groups[s.sweeper.g].q.entries;
      var k := ExpiredPrefix(es, s.clock, s.limit);
      forall i | 0 <= i < k
        ensures Honest(Expiries(es[..k], s.clock)[i], s.limit)
      {
        assert Expired(es[i], s.clock, s.limit);
      }
    }
  }

  /** Stamps that are kept keep what was said by them. */
  lemma StampsKept(s: State, t: State)
    requires s.clock == t.clock && forall u | u in s.since :: u in t.since && t.since[u] == s.since[u]
    ensures forall e | Stamped(s, e) :: Stamped(t, e)
    ensures forall f | Timed(s, f) :: Timed(t, f)
  {
  }

  /** Acceptance stamps a unit that was never seen, so no earlier stamp changes. */
  lemma TimesSubmit(s: State, step: Step)
    requires step.Submit? && Enabled(s, step) && InvTimes(s)
    ensures InvTimes(Apply(s, step))
  {
    hide Tally;
    var t := Apply(s, step);
    assert step.unit in t.since ==> Stamped(t, Entry(step.unit, s.clock));
    StampsKept(s, t);
    hide Stamped, Timed;
    forall g, i | 0 <= g < |t.groups| && 0 <= i < |t.groups[g].q.entries|
      ensures Stamped(t, t.groups[g].q.entries[i])
    {
      assert i < |s.groups[g].q.entries| ==> Stamped(s, s.groups[g].q.entries[i]);
    }
  }

  lemma TimesLock(s: State, w: nat)
    requires Enabled(s, Lock(w)) && InvTimes(s)
    ensures InvTimes(DoLock(s, w))
  {
  }

  lemma TimesSweep(s: State)
    requires Enabled(s, SweepGroup) && InvTimes(s)
    ensures InvTimes(DoSweepGroup(s))
  {
    hide Queued;
  }

  lemma TimesWorker(s: State, step: Step)
    requires step.Check? || step.HandBack? || step.Spurious?
    requires Enabled(s, step) && InvTimes(s)
    ensures InvTimes(Apply(s, step))
  {
  }

  lemma TimesClose(s: State)
    requires Enabled(s, CloseStop) && InvTimes(s)
    ensures InvTimes(DoCloseStop(s))
  {
  }

  lemma TimesStep(s: State, step: Step)
    requires Enabled(s, step) && InvTimes(s)
    ensures InvTimes(Apply(s, step))
  {
    hide DoSubmit, DoLock, DoSweepGroup, DoCloseStop, DoCheck, SetWorker;
    match step
    case Submit(_, _, _, _) => TimesSubmit(s, step);
    case Lock(w) => TimesLock(s, w);
    case Spurious(_) => TimesWorker(s, step);
    case Check(_) => TimesWorker(s, step);
    case HandBack(_) => TimesWorker(s, step);
    case SweepGroup => TimesSweep(s);
    case CloseStop => TimesClose(s);
    case _ =>
  }

  // ----- order -----

  lemma QueueSubmit(s: State, step: Step, g: nat)
    requires step.Submit? && Enabled(s, step) && g < |s.groups| && InvQueue(s, g)
    ensures g < |Apply(s, step).groups| && InvQueue(Apply(s, step), g)
  {
    var es := s.groups[g].q.entries;
    if step.g == g && OfferStatus(s.groups[g].q, step.park) == Ok {
      assert Queued(es + [Entry(step.unit, s.clock)]) == Queued(es) + [step.unit];
    }
  }

  lemma QueueLock(s: State, w: nat, g: nat)
    requires Enabled(s, Lock(w)) && g < |s.groups| && InvQueue(s, g)
    ensures g < |DoLock(s, w).groups| && InvQueue(DoLock(s, w), g)
  {
    var es := s.groups[g].q.entries;
    if s.workers[w].group == g && es != [] {
      assert Queued(es) == [es[0].unit] + Queued(es[1..]);
    }
  }

  lemma QueuedSplits(es: seq<Entry<UnitId>>, k: nat)
    requires k <= |es|
    ensures Queued(es) == Queued(es[..k]) + Queued(es[k..])
  {
  }

  lemma OrderOfRest(es: seq<Entry<UnitId>>, k: nat, now: nat)
    requires k <= |es| && InOrder(es) && forall i | 0 <= i < |es| :: es[i].at <= now
    ensures InOrder(es[k..]) && forall i | 0 <= i < |es[k..]| :: es[k..][i].at <= now
  {
  }

  lemma Reassociates(left: seq<UnitId>, a: seq<UnitId>, b: seq<UnitId>)
    ensures left + (a + b) == (left + a) + b
  {
  }

  lemma QueueSweep(s: State, g: nat)
    requires Enabled(s, SweepGroup) && g < |s.groups| && InvQueue(s, g)
    ensures g < |DoSweepGroup(s).groups| && InvQueue(DoSweepGroup(s), g)
  {
    hide ExpiredPrefix, Expiries, InOrder, Queued;
    var gr := s.groups[g];
    var es := gr.q.entries;
    if s.sweeper.g == g {
      var k := ExpiredPrefix(es, s.clock, s.limit);
      QueuedSplits(es, k);
      OrderOfRest(es, k, s.clock);
      Reassociates(gr.left, Queued(es[..k]), Queued(es[k..]));
    }
  }

  lemma QueueStep(s: State, step: Step, g: nat)
    requires Enabled(s, step) && g < |s.groups| && InvQueue(s, g)
    ensures g < |Apply(s, step).groups| && InvQueue(Apply(s, step), g)
  {
    match step
    case Submit(_, _, _, _) => QueueSubmit(s, step, g);
    case Lock(w) => QueueLock(s, w, g);
    case SweepGroup => QueueSweep(s, g);
    case _ =>
  }

  // ----- waking -----

  lemma {:induction false} TallyWakeAll(ws: seq<Worker>, g: nat, g': nat)
    ensures Tally(WakeAll(ws, g), g', KIdle) == Tally(ws, g', KIdle)
    ensures g' != g ==> Tally(WakeAll(ws, g), g', KAsleep) == Tally(ws, g', KAsleep)
    ensures g' == g ==> Tally(WakeAll(ws, g), g', KAsleep) == 0
    ensures Tally(WakeAll(ws, g), g', KReady) >= Tally(ws, g', KReady)
  {
    if ws != [] {
      assert WakeAll(ws, g)[1..] == WakeAll(ws[1..], g);
      TallyWakeAll(ws[1..], g, g');
    }
  }

  lemma SetWorkerTallies(s: State, w: nat, p: Pc, g: nat)
    requires w < |s.workers|
    ensures forall k :: Tally(SetWorker(s, w, p).workers, g, k) ==
                        Tally(s.workers, g, k) - One(s.workers[w], g, k) + One(Worker(s.workers[w].group, p), g, k)
  {
    forall k {
      TallyUpdate(s.workers, w, Worker(s.workers[w].group, p), g, k);
    }
  }

  lemma WakeSubmit(s: State, step: Step, g: nat)
    requires step.Submit? && Enabled(s, step) && g < |s.groups| && InvWake(s, g)
    ensures g < |Apply(s, step).groups| && InvWake(Apply(s, step), g)
  {
    IdleCoversAsleep(s.workers, g);
    if Apply(s, step).workers != s.workers {
      SetWorkerTallies(s, step.wake, Woken, g);
    }
  }

  lemma WakeLock(s: State, w: nat, g: nat)
    requires Enabled(s, Lock(w)) && g < |s.groups| && InvWake(s, g)
    ensures g < |DoLock(s, w).groups| && InvWake(DoLock(s, w), g)
  {
    SetWorkerTallies(s, w, DoLock(s, w).workers[w].pc, g);
  }

  lemma WakeWorker(s: State, step: Step, g: nat)
    requires Enabled(s, step) && (step.Spurious? || step.Check? || step.HandBack?)
    requires g < |s.groups| && InvWake(s, g)
    ensures g < |Apply(s, step).groups| && InvWake(Apply(s, step), g)
  {
    SetWorkerTallies(s, step.w, Apply(s, step).workers[step.w].pc, g);
  }

  lemma WakeStep(s: State, step: Step, g: nat)
    requires Enabled(s, step) && g < |s.groups| && InvWake(s, g)
    ensures g < |Apply(s, step).groups| && InvWake(Apply(s, step), g)
  {
    match step
    case Submit(_, _, _, _) => WakeSubmit(s, step, g);
    case Lock(w) => WakeLock(s, w, g);
    case Spurious(_) => WakeWorker(s, step, g);
    case Check(_) => WakeWorker(s, step, g);
    case HandBack(_) => WakeWorker(s, step, g);
    case CloseStop => TallyWakeAll(s.workers, s.closer.i, g);
    case _ =>
  }

  lemma {:induction false} IdleCoversAsleep(ws: seq<Worker>, g: nat)
    ensures Tally(ws, g, KAsleep) <= Tally(ws, g, KIdle)
  {
    if ws != [] {
      IdleCoversAsleep(ws[1..], g);
    }
  }

  // ----- conservation -----

  lemma ConserveSubmit(s: State, step: Step, u: UnitId)
    requires InvConserve(s, u) && Enabled(s, step) && step.Submit?
    ensures InvConserve(Apply(s, step), u)
  {
    var gr := s.groups[step.g];
    var t := Apply(s, step);
    if OfferStatus(gr.q, step.park) == Ok {
      GroupUpdate(s.groups, step.g, t.groups[step.g], u);
      TimesConcat(gr.accepted, [step.unit], u);
      if t.workers != s.workers {
        HeldUpdate(s.workers, step.wake, t.workers[step.wake], u);
      }
    }
  }

  lemma ConserveLock(s: State, w: nat, u: UnitId)
    requires InvConserve(s, u) && Enabled(s, Lock(w))
    ensures InvConserve(Apply(s, Lock(w)), u)
  {
    var t := DoLock(s, w);
    var g := s.workers[w].group;
    var es := s.groups[g].q.entries;
    HeldUpdate(s.workers, w, t.workers[w], u);
    GroupUpdate(s.groups, g, t.groups[g], u);
    if es != [] {
      TimesConcat(s.groups[g].left, [es[0].unit], u);
    }
  }

  lemma ConserveSweepGroup(s: State, u: UnitId)
    requires InvConserve(s, u) && Enabled(s, SweepGroup)
    ensures InvConserve(Apply(s, SweepGroup), u)
  {
    var g := s.sweeper.g;
    if g < |s.groups| {
      var t := DoSweepGroup(s);
      var es := s.groups[g].q.entries;
      var k := ExpiredPrefix(es, s.clock, s.limit);
      GroupUpdate(s.groups, g, t.groups[g], u);
      TimesConcat(s.groups[g].left, Queued(es[..k]), u);
      assert UnitsOf(Expiries(es[..k], s.clock)) == Queued(es[..k]);
    }
  }

  lemma LogOne(fs: seq<Finish>, f: Finish, u: UnitId)
    ensures Times(UnitsOf(fs + [f]), u) == Times(UnitsOf(fs), u) + Times([f.unit], u)
  {
    assert UnitsOf(fs + [f]) == UnitsOf(fs) + [f.unit];
    TimesConcat(UnitsOf(fs), [f.unit], u);
  }

  lemma ConserveSweepHandBack(s: State, u: UnitId)
    requires InvConserve(s, u) && Enabled(s, SweepHandBack)
    ensures InvConserve(Apply(s, SweepHandBack), u)
  {
    var rest := s.sweeper.rest;
    if rest != [] {
      LogOne(s.log, rest[0], u);
      assert UnitsOf(rest)[1..] == UnitsOf(rest[1..]);
    }
  }

  lemma ConserveWorker(s: State, step: Step, u: UnitId)
    requires InvConserve(s, u) && Enabled(s, step) && (step.Spurious? || step.Check? || step.HandBack?)
    ensures InvConserve(Apply(s, step), u)
  {
    HeldUpdate(s.workers, step.w, Apply(s, step).workers[step.w], u);
    if step.HandBack? {
      LogOne(s.log, s.workers[step.w].pc.finish, u);
    }
  }

  lemma {:induction false} HeldWakeAll(ws: seq<Worker>, g: nat, u: UnitId)
    ensures HeldTimes(WakeAll(ws, g), u) == HeldTimes(ws, u)
  {
    if ws != [] {
      assert WakeAll(ws, g)[1..] == WakeAll(ws[1..], g);
      HeldWakeAll(ws[1..], g, u);
    }
  }

  lemma ConserveStop(s: State, u: UnitId)
    requires InvConserve(s, u) && Enabled(s, CloseStop)
    ensures InvConserve(Apply(s, CloseStop), u)
  {
    var i := s.closer.i;
    if i < |s.groups| {
      HeldWakeAll(s.workers, i, u);
      GroupUpdate(s.groups, i, DoCloseStop(s).groups[i], u);
    }
  }

  lemma ConserveStep(s: State, step: Step, u: UnitId)
    requires InvConserve(s, u) && Enabled(s, step)
    ensures InvConserve(Apply(s, step), u)
  {
    match step
    case Submit(_, _, _, _) => ConserveSubmit(s, step, u);
    case Lock(w) => ConserveLock(s, w, u);
    case Spurious(_) => ConserveWorker(s, step, u);
    case Check(_) => ConserveWorker(s, step, u);
    case HandBack(_) => ConserveWorker(s, step, u);
    case SweepGroup => ConserveSweepGroup(s, u);
    case SweepHandBack => ConserveSweepHandBack(s, u);
    case CloseStop => ConserveStop(s, u);
    case _ =>
  }

  // ----- the theorems, over every run -----

  lemma InvStep(s: State, step: Step)
    requires Inv(s) && Enabled(s, step)
    ensures Inv(Apply(s, step))
  {
    var t := Apply(s, step);
    ShapeStep(s, step);
    CloseStep(s, step);
    OutcomeStep(s, step);
    TimesStep(s, step);
    forall u
      ensures InvConserve(t, u)
    {
      ConserveStep(s, step, u);
    }
    forall g | 0 <= g < |t.groups|
      ensures InvQueue(t, g) && InvWake(t, g)
    {
      QueueStep(s, step, g);
      WakeStep(s, step, g);
    }
  }

  lemma NextInv(s: State, t: State)
    requires Inv(s) && Next(s, t)
    ensures Inv(t)
  {
    var step :| Enabled(s, step) && t == Apply(s, step);
    InvStep(s, step);
  }

  lemma {:induction false} RunInv(ss: seq<State>, i: nat)
    requires IsRun(ss) && i < |ss|
    ensures Inv(ss[i])
  {
    hide Inv, Next, Initial;
    if i == 0 {
      InitialInv(ss[0]);
    } else {
      RunInv(ss, i - 1);
      NextInv(ss[i - 1], ss[i]);
    }
  }

  lemma {:induction false} AcceptedSplits(gs: seq<GroupState>, u: UnitId)
    requires forall g | 0 <= g < |gs| :: gs[g].accepted == gs[g].left + Queued(gs[g].q.entries)
    ensures AcceptedTimes(gs, u) == LeftTimes(gs, u) + QueuedTimes(gs, u)
  {
    if gs != [] {
      TimesConcat(gs[0].left, Queued(gs[0].q.entries), u);
      AcceptedSplits(gs[1..], u);
    }
  }

  /**
   * Exactly once: in every state of every run an accepted unit is in one place -- one position of
   * one queue, one worker, the sweeper's list or the log of calls to `finished` -- and a unit that
   * was not accepted is in none. So no unit is finished twice, and a refused one never.
   */
  lemma ExactlyOnce(ss: seq<State>, i: nat, u: UnitId)
    requires IsRun(ss) && i < |ss|
    ensures var s := ss[i];
            && AcceptedTimes(s.groups, u) ==
                 QueuedTimes(s.groups, u) + HeldTimes(s.workers, u) + SweptTimes(s.sweeper, u) + FinishedTimes(s, u)
            && AcceptedTimes(s.groups, u) <= 1
            && (u in s.refused ==> AcceptedTimes(s.groups, u) == 0)
  {
    RunInv(ss, i);
    var s := ss[i];
    forall g | 0 <= g < |s.groups|
      ensures s.groups[g].accepted == s.groups[g].left + Queued(s.groups[g].q.entries)
    {
      assert InvQueue(s, g);
    }
    assert InvConserve(s, u);
    AcceptedSplits(s.groups, u);
  }

  /** When closing returns, `finished` has run for exactly the accepted units, once each. */
  lemma ClosedMeansAllFinished(ss: seq<State>, i: nat, u: UnitId)
    requires IsRun(ss) && i < |ss| && ss[i].closer.Closed?
    ensures FinishedTimes(ss[i], u) == AcceptedTimes(ss[i].groups, u)
  {
    ExactlyOnce(ss, i, u);
    RunInv(ss, i);
    var s := ss[i];
    forall g | 0 <= g < |s.groups|
      ensures s.groups[g].q.entries == []
    {
      assert HasWorker(s, g);
      var w :| 0 <= w < |s.workers| && s.workers[w].group == g;
      assert s.workers[w].pc.Gone?;
    }
    NothingIn(s.groups, s.workers, u);
  }

  /**
   * No lost wake-up, and no idle worker beside waiting work: a queued unit and a sleeping worker
   * of its group coexist only while at least as many workers as there are queued units are awake
   * and on their way to the queue -- although submitting signals only when the idle count is not 0.
   */
  lemma NoLostWakeup(ss: seq<State>, i: nat, w: nat)
    requires IsRun(ss) && i < |ss| && w < |ss[i].workers| && ss[i].workers[w].pc.Asleep?
    ensures ss[i].workers[w].group < |ss[i].groups|
    ensures var g := ss[i].workers[w].group;
            |ss[i].groups[g].q.entries| <= Tally(ss[i].workers, g, KReady)
  {
    RunInv(ss, i);
    var s := ss[i];
    var g := s.workers[w].group;
    TallyUpdate(s.workers, w, Worker(g, Top), g, KAsleep);
    assert InvWake(s, g);
  }

  /** First in, first out, bounded, and one sweep takes exactly the units past the limit. */
  lemma OrderAndSweep(ss: seq<State>, i: nat, g: nat)
    requires IsRun(ss) && i < |ss| && g < |ss[i].groups|
    ensures var gr := ss[i].groups[g];
            && gr.left <= gr.accepted && gr.accepted[|gr.left|..] == Queued(gr.q.entries)
            && |gr.q.entries| <= gr.q.capacity
            && (ss[i].sweeper == At(g) ==>
                  var t := Apply(ss[i], SweepGroup);
                  && t.groups[g].q.entries == Keep(gr.q.entries, ss[i].clock, ss[i].limit, false)
                  && t.sweeper == Handing(g, Expiries(Keep(gr.q.entries, ss[i].clock, ss[i].limit, true), ss[i].clock)))
  {
    RunInv(ss, i);
    assert InvQueue(ss[i], g);
    SweepIsFilter(ss[i].groups[g].q.entries, ss[i].clock, ss[i].limit);
  }

  /**
   * Work ran exactly if, when that was decided, no more than the limit had passed since it was
   * accepted; what was handed back unrun had waited longer.
   */
  lemma RanWithinLimit(ss: seq<State>, i: nat, n: nat)
    requires IsRun(ss) && i < |ss| && n < |ss[i].log|
    ensures var s, f := ss[i], ss[i].log[n];
            && f.unit in s.since && s.since[f.unit] <= f.decided <= s.clock
            && f.waited == f.decided - s.since[f.unit]
            && (f.outcome.Ran? <==> f.decided - s.since[f.unit] <= s.limit)
  {
    RunInv(ss, i);
    assert Honest(ss[i].log[n], ss[i].limit) && Timed(ss[i], ss[i].log[n]);
  }

  // ----- closing does not hang -----

  /** Nobody sleeps in a group that is told to stop. */
  ghost predicate InvAwake(s: State) {
    forall w | 0 <= w < |s.workers| && s.workers[w].pc.Asleep? ::
      s.workers[w].group < |s.groups| ==> !s.groups[s.workers[w].group].q.stopping
  }

  lemma AwakeStep(s: State, step: Step)
    requires InvShape(s) && InvAwake(s) && Enabled(s, step)
    ensures InvAwake(Apply(s, step))
  {
    hide ExpiredPrefix, Expiries, Queued, HasWorker, Tally;
  }

  lemma {:induction false} RunAwake(ss: seq<State>, i: nat)
    requires IsRun(ss) && i < |ss|
    ensures InvAwake(ss[i])
  {
    if i > 0 {
      RunAwake(ss, i - 1);
      RunInv(ss, i - 1);
      assert Next(ss[i - 1], ss[i]);
      hide Inv, InvAwake, Apply, InvShape;
      var step :| Enabled(ss[i - 1], step) && ss[i] == Apply(ss[i - 1], step);
      assert InvShape(ss[i - 1]) by {
        InvHasShape(ss[i - 1]);
      }
      AwakeStep(ss[i - 1], step);
    }
  }

  lemma InvHasShape(s: State)
    requires Inv(s)
    ensures InvShape(s) && InvClose(s)
  {
  }

  /** The step that a worker which has not returned can take, unless it sleeps. */
  function WorkerStep(s: State, w: nat): Step
    requires w < |s.workers|
  {
    match s.workers[w].pc
    case Holding(_) => Check(w)
    case Ending(_) => HandBack(w)
    case _ => Lock(w)
  }

  /** What a close that has begun is waiting for. */
  function CloserStep(s: State): Step
    requires s.closer.Joining? ==> s.closer.i <= |s.workers|
  {
    match s.closer
    case SweepStop =>
      (match s.sweeper
       case Returned => CloseJoinSweeper
       case Waiting => SweepTimer
       case At(_) => SweepGroup
       case Handing(_, _) => SweepHandBack)
    case Stopping(_) => CloseStop
    case Joining(i) => if i < |s.workers| && !s.workers[i].pc.Gone? then WorkerStep(s, i) else CloseJoin
    case _ => CloseSweeper
  }

  /** A close that has begun is never stuck: what it waits for can be done, by itself, the sweeper or a worker that is awake. */
  lemma ClosingCanGoOn(ss: seq<State>, k: nat)
    requires IsRun(ss) && k < |ss| && !ss[k].closer.Open? && !ss[k].closer.Closed?
    ensures ss[k].closer.Joining? ==> ss[k].closer.i <= |ss[k].workers|
    ensures Enabled(ss[k], CloserStep(ss[k]))
    ensures ss[k].closer.Joining? ==> forall w | 0 <= w < |ss[k].workers| && !ss[k].workers[w].pc.Gone? ::
              Enabled(ss[k], WorkerStep(ss[k], w))
  {
    RunInv(ss, k);
    RunAwake(ss, k);
    hide Tally, InvConserve, InvQueue, InvWake, InvOutcome, InvTimes;
    var s := ss[k];
    if s.closer.Joining? {
      forall w | 0 <= w < |s.workers| && !s.workers[w].pc.Gone?
        ensures Enabled(s, WorkerStep(s, w))
      {
        assert s.groups[s.workers[w].group].q.stopping;
        assert !s.workers[w].pc.Asleep?;
      }
    }
  }

  function EntriesLeft(gs: seq<GroupState>): nat {
    if gs == [] then 0 else |gs[0].q.entries| + EntriesLeft(gs[1..])
  }

  function Rank(p: Pc): nat {
    match p
    case Gone => 0
    case Holding(_) => 3
    case Ending(_) => 2
    case _ => 1
  }

  function RanksLeft(ws: seq<Worker>): nat {
    if ws == [] then 0 else Rank(ws[0].pc) + RanksLeft(ws[1..])
  }

  /** How much the workers still have to do once nothing is accepted any more. */
  function WorkLeft(s: State): nat {
    3 * EntriesLeft(s.groups) + RanksLeft(s.workers)
  }

  lemma {:induction false} EntriesUpdate(gs: seq<GroupState>, i: nat, gr: GroupState)
    requires i < |gs|
    ensures EntriesLeft(gs[i := gr]) == EntriesLeft(gs) - |gs[i].q.entries| + |gr.q.entries|
  {
    if i == 0 {
      assert gs[i := gr][1..] == gs[1..];
    } else {
      assert gs[i := gr][1..] == gs[1..][i - 1 := gr];
      EntriesUpdate(gs[1..], i - 1, gr);
    }
  }

  lemma {:induction false} RanksUpdate(ws: seq<Worker>, i: nat, w: Worker)
    requires i < |ws|
    ensures RanksLeft(ws[i := w]) == RanksLeft(ws) - Rank(ws[i].pc) + Rank(w.pc)
  {
    if i == 0 {
      assert ws[i := w][1..] == ws[1..];
    } else {
      assert ws[i := w][1..] == ws[1..][i - 1 := w];
      RanksUpdate(ws[1..], i - 1, w);
    }
  }

  /** While the workers are joined: the sweeper has returned, every group stops, and nobody sleeps. */
  ghost predicate Joins(s: State) {
    && s.closer.Joining? && s.sweeper.Returned? && InvShape(s) && InvAwake(s)
    && forall g | 0 <= g < |s.groups| :: s.groups[g].q.stopping
  }

  lemma LockLeavesLess(s: State, w: nat)
    requires Enabled(s, Lock(w))
    requires s.groups[s.workers[w].group].q.entries != [] || s.groups[s.workers[w].group].q.stopping
    ensures WorkLeft(DoLock(s, w)) < WorkLeft(s)
  {
    hide Tally;
    var g := s.workers[w].group;
    var t := DoLock(s, w);
    assert t.groups == s.groups[g := t.groups[g]];
    assert t.workers == s.workers[w := t.workers[w]];
    EntriesUpdate(s.groups, g, t.groups[g]);
    RanksUpdate(s.workers, w, t.workers[w]);
  }

  lemma WorkerLeavesLess(s: State, step: Step)
    requires Enabled(s, step) && (step.Check? || step.HandBack?)
    ensures WorkLeft(Apply(s, step)) < WorkLeft(s)
  {
    hide Tally;
    var t := Apply(s, step);
    assert t.workers == s.workers[step.w := t.workers[step.w]];
    RanksUpdate(s.workers, step.w, t.workers[step.w]);
  }

  lemma RunJoins(ss: seq<State>, k: nat)
    requires IsRun(ss) && k < |ss| && ss[k].closer.Joining?
    ensures Joins(ss[k])
  {
    RunInv(ss, k);
    RunAwake(ss, k);
    InvHasShape(ss[k]);
  }

  /**
   * And it comes to an end: while the workers are joined nothing adds to the work that is left, and every
   * step of a worker takes from it, so after finitely many the last worker has returned.
   */
  lemma ClosingComesToAnEnd(ss: seq<State>, k: nat, step: Step)
    requires IsRun(ss) && k < |ss| && ss[k].closer.Joining? && Enabled(ss[k], step)
    ensures WorkLeft(Apply(ss[k], step)) <= WorkLeft(ss[k])
    ensures step.Lock? || step.Check? || step.HandBack? ==> WorkLeft(Apply(ss[k], step)) < WorkLeft(ss[k])
  {
    RunJoins(ss, k);
    hide IsRun, WorkLeft, InvShape, Tally;
    var s := ss[k];
    SameWork(s, Apply(s, step));
    match step
    case Lock(w) => LockLeavesLess(s, w);
    case Check(_) => WorkerLeavesLess(s, step);
    case HandBack(_) => WorkerLeavesLess(s, step);
    case Submit(_, _, _, _) => RefusedLeaves(s, step);
    case Spurious(w) => AwakeIs(s, w);
    case _ =>
  }

  lemma AwakeIs(s: State, w: nat)
    requires Joins(s) && w < |s.workers|
    ensures !s.workers[w].pc.Asleep?
  {
    hide HasWorker;
  }

  lemma RefusedLeaves(s: State, step: Step)
    requires Joins(s) && step.Submit? && Enabled(s, step)
    ensures WorkLeft(Apply(s, step)) == WorkLeft(s)
  {
    hide HasWorker, Tally;
  }

  lemma SameWork(s: State, t: State)
    ensures s.groups == t.groups && s.workers == t.workers ==> WorkLeft(s) == WorkLeft(t)
  {
  }

  /**
   * No worker passes work by: each of its steps, at any time, leaves less to do, unless it found the queue
   * of its group empty and goes to sleep. So queued units are taken as long as workers move.
   */
  lemma WorkerGoesOn(s: State, step: Step)
    requires Enabled(s, step) && (step.Lock? || step.Check? || step.HandBack?)
    ensures || WorkLeft(Apply(s, step)) < WorkLeft(s)
            || (step.Lock? && s.groups[s.workers[step.w].group].q.entries == [] && Apply(s, step).workers[step.w].pc.Asleep?)
  {
    hide Tally, WorkLeft;
    match step
    case Lock(w) =>
      if s.groups[s.workers[w].group].q.entries != [] || s.groups[s.workers[w].group].q.stopping {
        LockLeavesLess(s, w);
      }
    case _ => WorkerLeavesLess(s, step);
  }

  // ----- what is accepted -----

  /** A submission is accepted exactly if its group has room and is not stopping and the caller could park; nothing else is. */
  lemma AcceptedIff(s: State, step: Step, g: nat)
    requires step.Submit? && Enabled(s, step) && g < |s.groups|
    ensures var t := Apply(s, step);
            && g < |t.groups|
            && t.groups[g].accepted == s.groups[g].accepted +
                 (if g == step.g && |s.groups[g].q.entries| < s.groups[g].q.capacity && !s.groups[g].q.stopping && step.park
                  then [step.unit] else [])
            && (step.unit in t.refused <==>
                  || step.unit in s.refused
                  || !(|s.groups[step.g].q.entries| < s.groups[step.g].q.capacity && !s.groups[step.g].q.stopping && step.park))
  {
    hide Tally;
  }
}
