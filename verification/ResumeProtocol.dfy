/**
 * A parked request, end to end, on one loop: the handler's arena moves into the slot, the unit goes
 * to the executor, a worker claims the ticket and wakes the loop, and the loop's walk delivers.
 *
 * The loop is one thread, so between two of its steps it has a position; workers, the async handle
 * and clients leaving interleave freely with it. The executor is what `Executor.ExactlyOnce` proves
 * it to be: it calls `finished` once for every unit it took. Arming and releasing are single steps
 * here because `TicketRuns` shows that claims between their parts change nothing.
 */
module ResumeProtocol {
  import opened Options
  import opened DeferTable

  type Req = nat
  type Unit = nat
  type Arena = nat

  /** The loop's position: between callbacks, in a handler, with a unit parked but not yet queued,
      walking the table at a slot, or delivering a unit -- before and after its `done` ran. */
  datatype LoopPc =
    | Idle
    | Handling(req: Req)
    | Enqueuing(req: Req, unit: Unit)
    | Walking(i: nat)
    | Calling(unit: Unit, where: Option<Req>)
    | Called(unit: Unit, where: Option<Req>)

  datatype Parking = Parking(ticket: nat, unit: Unit)

  datatype Done = Done(unit: Unit, where: Option<Req>, connected: bool)

  datatype State = State(
    tb: Table,
    free: seq<nat>,
    loop: LoopPc,
    arena: Option<Arena>,        // the loop thread's current arena
    parked: bool,
    pool: set<Arena>,
    all: set<Arena>,
    seen: set<Req>,
    live: set<Req>,              // requests whose client is still connected
    deferred: map<Req, Parking>, // per connection: deferred, and with which ticket
    tickets: map<Unit, nat>,     // the unit's park token
    owner: map<Unit, Req>,       // history: which request a unit was parked for
    arenas: map<Unit, Option<Arena>>, // history: the arena it was parked with
    flying: set<Unit>,           // with the executor
    claimers: set<Unit>,         // claimed, and the wake-up not sent yet
    pending: bool,               // the coalescing async handle
    log: seq<Done>)

  datatype Step =
    | Dispatch(req: Req)
    | Lend(a: Arena)
    | Park(unit: Unit)
    | Enqueue
    | HandlerLeaves
    | ClientGone(req: Req)
    | Finished(unit: Unit)
    | Send(unit: Unit)
    | AsyncFires
    | Walk
    | RunDone
    | DeliveryLeaves

  predicate Enabled(s: State, step: Step) {
    match step
    case Dispatch(r) => s.loop.Idle? && r !in s.seen
    case Lend(a) => (s.loop.Handling? || (s.loop.Calling? && s.loop.where.Some?)) && s.arena.None? && !s.parked && a in s.pool
    case Park(u) => s.loop.Handling? && !s.parked && u !in s.tickets && Shape(s.tb)
    case Enqueue => s.loop.Enqueuing?
    case HandlerLeaves => s.loop.Handling?
    case ClientGone(r) => s.loop.Idle? && r in s.live
    case Finished(u) => u in s.flying && u in s.tickets
    case Send(u) => u in s.claimers
    case AsyncFires => s.loop.Idle? && s.pending
    case Walk => s.loop.Walking?
    case RunDone => s.loop.Calling? && s.loop.unit in s.owner
    case DeliveryLeaves => s.loop.Called?
  }

  /** Leaving gives the arena back, unless the request was parked with it. */
  function Leave(s: State, next: LoopPc): State {
    s.(pool := if s.arena.Some? && !s.parked then s.pool + {s.arena.value} else s.pool,
       arena := None, parked := false, loop := next)
  }

  function DoPark(s: State, u: Unit): State
    requires Enabled(s, Park(u))
  {
    var r := s.loop.req;
    var (tb, ticket) := Arm(s.tb, r, u, s.arena);
    if ticket == 0 || s.free == [] then s
    else s.(tb := tb, free := s.free[1..], loop := Enqueuing(r, u), arena := None, parked := true,
            deferred := s.deferred[r := Parking(ticket, u)], tickets := s.tickets[u := ticket],
            owner := s.owner[u := r], arenas := s.arenas[u := s.arena])
  }

  function DoClientGone(s: State, r: Req): State {
    var s1 := s.(live := s.live - {r});
    if r !in s.deferred then s1
    else s1.(tb := Forget(s.tb, IndexOf(s.deferred[r].ticket), GenerationOf(s.deferred[r].ticket)),
             deferred := s.deferred - {r})
  }

  /** `finished` on the worker: without a claim there is nothing to wake the loop for. */
  function DoFinished(s: State, u: Unit): State
    requires Enabled(s, Finished(u))
  {
    var s1 := s.(flying := s.flying - {u}, tb := Claim(s.tb, s.tickets[u]));
    if Claimable(s.tb, s.tickets[u]).Some? then s1.(claimers := s.claimers + {u}) else s1
  }

  /** One look of the walk: a resuming slot is released and its arena entered, the last ends it. */
  function DoWalk(s: State): State
    requires Enabled(s, Walk)
  {
    var i := s.loop.i;
    if i >= |s.tb.slots| then s.(loop := Idle)
    else if PhaseAt(s.tb, i) != RESUMING then s.(loop := Walking(i + 1))
    else
      var x := s.tb.slots[i];
      s.(tb := Release(s.tb, i), free := [i] + s.free, arena := x.arena, parked := false,
         loop := match x.work case Some(u) => Calling(u, x.req) case None => Walking(0))
  }

  function Apply(s: State, step: Step): State
    requires Enabled(s, step)
  {
    match step
    case Dispatch(r) => s.(seen := s.seen + {r}, live := s.live + {r}, loop := Handling(r), arena := None, parked := false)
    case Lend(a) => s.(pool := s.pool - {a}, arena := Some(a))
    case Park(u) => DoPark(s, u)
    case Enqueue => s.(flying := s.flying + {s.loop.unit}, loop := Handling(s.loop.req))
    case HandlerLeaves => Leave(s, Idle)
    case ClientGone(r) => DoClientGone(s, r)
    case Finished(u) => DoFinished(s, u)
    case Send(u) => s.(claimers := s.claimers - {u}, pending := true)
    case AsyncFires => s.(pending := false, loop := Walking(0))
    case Walk => DoWalk(s)
    case RunDone =>
      s.(log := s.log + [Done(s.loop.unit, s.loop.where, s.owner[s.loop.unit] in s.live)],
         loop := Called(s.loop.unit, s.loop.where))
    case DeliveryLeaves =>
      var t := Leave(s, Walking(0));
      if s.loop.where.Some? then t.(deferred := s.deferred - {s.loop.where.value}) else t
  }

  // ----- counting places -----

  function One(b: bool): nat {
    if b then 1 else 0
  }

  function WorkTimes(slots: seq<Slot>, u: Unit): nat {
    if slots == [] then 0 else One(slots[0].work == Some(u)) + WorkTimes(slots[1..], u)
  }

  function ArenaTimes(slots: seq<Slot>, a: Arena): nat {
    if slots == [] then 0 else One(slots[0].arena == Some(a)) + ArenaTimes(slots[1..], a)
  }

  function LogTimes(log: seq<Done>, u: Unit): nat {
    if log == [] then 0 else One(log[|log| - 1].unit == u) + LogTimes(log[..|log| - 1], u)
  }

  lemma {:induction false} SlotUpdate(slots: seq<Slot>, i: nat, x: Slot, n: nat)
    requires i < |slots|
    ensures WorkTimes(slots[i := x], n) == WorkTimes(slots, n) - One(slots[i].work == Some(n)) + One(x.work == Some(n))
    ensures ArenaTimes(slots[i := x], n) == ArenaTimes(slots, n) - One(slots[i].arena == Some(n)) + One(x.arena == Some(n))
    ensures WorkTimes(slots, n) >= One(slots[i].work == Some(n))
    ensures ArenaTimes(slots, n) >= One(slots[i].arena == Some(n))
  {
    if i == 0 {
      assert slots[i := x][1..] == slots[1..];
    } else {
      assert slots[i := x][1..] == slots[1..][i - 1 := x];
      SlotUpdate(slots[1..], i - 1, x, n);
    }
  }

  // ----- what every step keeps -----

  /** Slot `i` is taken, by unit `u`, under `u`'s ticket. */
  predicate Holds(s: State, i: nat, u: Unit) {
    && i < |s.tb.slots| && PhaseAt(s.tb, i) != FREE && s.tb.slots[i].work == Some(u)
    && u in s.tickets && s.tickets[u] == TicketOf(s.tb.loop, i, GenerationIn(s.tb.slots[i].state))
  }

  function Home(s: State, u: Unit): nat
    requires u in s.tickets
  {
    IndexOf(s.tickets[u])
  }

  /** With the executor, or about to be. */
  predicate Waits(s: State, u: Unit) {
    u in s.flying || (s.loop.Enqueuing? && s.loop.unit == u)
  }

  ghost predicate InvTable(s: State) {
    Shape(s.tb) && ListsFree(s.tb, s.free)
  }

  ghost predicate InvSlot(s: State, i: nat)
    requires i < |s.tb.slots|
  {
    var x := s.tb.slots[i];
    if PhaseAt(s.tb, i) == FREE then x.work == None && x.arena == None
    else
      && x.work.Some? && Holds(s, i, x.work.value)
      && x.state == StateOf(GenerationIn(x.state), PhaseAt(s.tb, i))
      && (PhaseAt(s.tb, i) == ARMED || PhaseAt(s.tb, i) == RESUMING)
      && (PhaseAt(s.tb, i) == ARMED ==> Waits(s, x.work.value))
      && var u := x.work.value;
         && u in s.owner && u in s.arenas && x.arena == s.arenas[u]
         && x.req == (if s.owner[u] in s.live then Some(s.owner[u]) else None)
         && (s.owner[u] in s.live ==> s.owner[u] in s.deferred && s.deferred[s.owner[u]] == Parking(s.tickets[u], u))
  }

  /** A parked unit is in one place: a slot, the hands of the loop, or the log of `done` calls. */
  ghost predicate InvUnit(s: State, u: Unit) {
    && WorkTimes(s.tb.slots, u) + One(s.loop.Calling? && s.loop.unit == u) + LogTimes(s.log, u) == One(u in s.tickets)
    && (u in s.tickets ==> s.tickets[u] != 0) && (u in s.tickets <==> u in s.owner) && (u in s.owner ==> s.owner[u] in s.seen)
    && (Waits(s, u) ==> u in s.tickets && Holds(s, Home(s, u), u) && PhaseAt(s.tb, Home(s, u)) == ARMED)
  }

  ghost predicate InvReq(s: State, r: Req) {
    && (r in s.deferred ==>
          var p := s.deferred[r];
          && p.unit in s.tickets && s.tickets[p.unit] == p.ticket && p.unit in s.owner && s.owner[p.unit] == r
          && (Holds(s, Home(s, p.unit), p.unit)
              || ((s.loop.Calling? || s.loop.Called?) && s.loop.where == Some(r) && s.loop.unit == p.unit)))
    && (r in s.deferred ==> r in s.live) && (r in s.live ==> r in s.seen)
  }

  /** An arena is in one place: the pool, the current request, or a slot. */
  ghost predicate InvArena(s: State, a: Arena) {
    One(a in s.pool) + One(s.arena == Some(a)) + ArenaTimes(s.tb.slots, a) == One(a in s.all)
  }

  ghost predicate InvLoop(s: State) {
    && (s.loop.Idle? || s.loop.Walking? ==> s.arena.None? && !s.parked)
    && (s.parked ==> s.arena.None?)
    && (s.loop.Enqueuing? ==> s.parked && s.loop.unit !in s.flying)
    && (s.loop.Calling? || s.loop.Called? ==> !s.parked)
    && (s.loop.Handling? || s.loop.Enqueuing? ==> s.loop.req in s.seen && s.loop.req in s.live)
    && (s.loop.Called? ==> WorkTimes(s.tb.slots, s.loop.unit) == 0)
    && (s.loop.Handling? && !s.parked ==> forall u | u in s.owner :: s.owner[u] != s.loop.req)
    && (s.loop.Calling? || s.loop.Called? ==>
          && s.loop.unit in s.owner && s.loop.unit in s.tickets
          && s.loop.where == (if s.owner[s.loop.unit] in s.live then Some(s.owner[s.loop.unit]) else None)
          && (s.loop.where.Some? ==> s.loop.where.value in s.deferred && s.deferred[s.loop.where.value].unit == s.loop.unit))
  }

  ghost predicate InvLog(s: State, k: nat)
    requires k < |s.log|
  {
    && s.log[k].unit in s.owner
    && s.log[k].where == if s.log[k].connected then Some(s.owner[s.log[k].unit]) else None
  }

  predicate WalkWillSee(s: State, i: nat) {
    s.loop.Calling? || s.loop.Called? || (s.loop.Walking? && s.loop.i <= i)
  }

  /** Somebody is still going to look at a resuming slot. */
  ghost predicate InvWake(s: State, i: nat)
    requires i < |s.tb.slots|
  {
    PhaseAt(s.tb, i) == RESUMING ==>
      s.pending || WalkWillSee(s, i) || (s.tb.slots[i].work.Some? && s.tb.slots[i].work.value in s.claimers)
  }

  ghost predicate Inv(s: State) {
    && InvTable(s) && InvLoop(s)
    && (forall i | 0 <= i < |s.tb.slots| :: InvSlot(s, i))
    && (forall i | 0 <= i < |s.tb.slots| :: InvWake(s, i))
    && (forall u :: InvUnit(s, u))
    && (forall r :: InvReq(s, r))
    && (forall a :: InvArena(s, a))
    && (forall k | 0 <= k < |s.log| :: InvLog(s, k))
  }

  ghost predicate Initial(s: State) {
    && Shape(s.tb) && ListsFree(s.tb, s.free)
    && (forall i | 0 <= i < |s.tb.slots| :: PhaseAt(s.tb, i) == FREE && s.tb.slots[i].work == None && s.tb.slots[i].arena == None)
    && s.loop.Idle? && s.arena.None? && !s.parked && s.pool == s.all
    && s.seen == {} && s.live == {} && s.deferred == map[] && s.tickets == map[] && s.owner == map[] && s.arenas == map[]
    && s.flying == {} && s.claimers == {} && !s.pending && s.log == []
  }

  lemma {:induction false} NothingThere(slots: seq<Slot>, n: nat)
    requires forall i | 0 <= i < |slots| :: slots[i].work == None && slots[i].arena == None
    ensures WorkTimes(slots, n) == 0 && ArenaTimes(slots, n) == 0
  {
    if slots != [] {
      NothingThere(slots[1..], n);
    }
  }

  lemma InitialInv(s: State)
    requires Initial(s)
    ensures Inv(s)
  {
    forall n: nat
      ensures InvUnit(s, n) && InvArena(s, n)
    {
      NothingThere(s.tb.slots, n);
    }
  }

  // A ticket names its slot, so a unit is in at most one.
  lemma HoldsHome(s: State, i: nat, u: Unit)
    requires Shape(s.tb) && Holds(s, i, u)
    ensures Home(s, u) == i && GenerationOf(s.tickets[u]) == GenerationIn(s.tb.slots[i].state)
    ensures WorkTimes(s.tb.slots, u) >= 1 && s.tickets[u] != 0 ==> LoopOf(s.tickets[u]) == s.tb.loop
    ensures WorkTimes(s.tb.slots, u) >= 1
  {
    TicketRoundTrip(s.tb.loop, i, GenerationIn(s.tb.slots[i].state));
    SlotUpdate(s.tb.slots, i, s.tb.slots[i], u);
  }

  // ----- steps that leave the table alone -----

  predicate LeavesTable(step: Step) {
    !step.Park? && !step.ClientGone? && !step.Finished? && !step.Walk?
  }

  lemma QuietSlot(s: State, step: Step, i: nat)
    requires Inv(s) && Enabled(s, step) && LeavesTable(step) && i < |s.tb.slots|
    ensures i < |Apply(s, step).tb.slots| && InvSlot(Apply(s, step), i)
  {
    assert InvSlot(s, i);
    if PhaseAt(s.tb, i) != FREE {
      var u := s.tb.slots[i].work.value;
      HoldsHome(s, i, u);
      assert InvUnit(s, u) && InvReq(s, s.owner[u]);
    }
    hide Inv;
    SlotUntouched(s, step, i);
  }

  lemma SlotUntouched(s: State, step: Step, i: nat)
    requires Enabled(s, step) && LeavesTable(step) && i < |s.tb.slots| && InvSlot(s, i) && InvLoop(s)
    requires PhaseAt(s.tb, i) != FREE ==>
               var u := s.tb.slots[i].work.value;
               InvUnit(s, u) && InvReq(s, s.owner[u]) && Home(s, u) == i && WorkTimes(s.tb.slots, u) >= 1
    ensures i < |Apply(s, step).tb.slots| && InvSlot(Apply(s, step), i)
  {
    hide ListsFree, TicketOf, StateOf, IndexOf, GenerationIn, PhaseIn, WorkTimes, LogTimes, ArenaTimes;
    hide DoPark, DoClientGone, DoFinished, DoWalk;
  }

  lemma QuietWake(s: State, step: Step, i: nat)
    requires Inv(s) && Enabled(s, step) && LeavesTable(step) && i < |s.tb.slots|
    ensures i < |Apply(s, step).tb.slots| && InvWake(Apply(s, step), i)
  {
    assert InvWake(s, i);
  }

  lemma LogOne(log: seq<Done>, d: Done, u: Unit)
    ensures LogTimes(log + [d], u) == LogTimes(log, u) + One(d.unit == u)
  {
    assert (log + [d])[..|log|] == log;
  }

  lemma QuietUnit(s: State, step: Step, u: Unit)
    requires Inv(s) && Enabled(s, step) && LeavesTable(step)
    ensures InvUnit(Apply(s, step), u)
  {
    hide InvSlot, InvReq, InvArena, InvLog, InvWake, InvTable, WorkTimes, ArenaTimes, LogTimes, GenerationIn, TicketOf;
    assert InvUnit(s, u);
    if step.RunDone? {
      LogOne(s.log, Done(s.loop.unit, s.loop.where, s.owner[s.loop.unit] in s.live), u);
    }
  }

  lemma QuietReq(s: State, step: Step, r: Req)
    requires Inv(s) && Enabled(s, step) && LeavesTable(step)
    ensures InvReq(Apply(s, step), r)
  {
    assert InvReq(s, r);
    if step.DeliveryLeaves? && s.loop.where.Some? {
      assert InvReq(s, s.loop.where.value);
    }
  }

  lemma QuietArena(s: State, step: Step, a: Arena)
    requires Inv(s) && Enabled(s, step) && LeavesTable(step)
    ensures InvArena(Apply(s, step), a)
  {
    assert InvArena(s, a);
    if s.arena.Some? {
      assert InvArena(s, s.arena.value);
    }
  }

  lemma QuietLoop(s: State, step: Step)
    requires Inv(s) && Enabled(s, step) && LeavesTable(step)
    ensures InvLoop(Apply(s, step))
  {
    if step.Enqueue? || step.RunDone? {
      assert InvUnit(s, s.loop.unit);
    }
    if step.Dispatch? {
      forall u | u in s.owner
        ensures s.owner[u] != step.req
      {
        assert InvUnit(s, u);
      }
    }
  }

  lemma QuietLog(s: State, step: Step, k: nat)
    requires Inv(s) && Enabled(s, step) && LeavesTable(step) && k < |Apply(s, step).log|
    ensures InvLog(Apply(s, step), k)
  {
    if k < |s.log| {
      assert InvLog(s, k);
    }
  }

  lemma QuietStep(s: State, step: Step)
    requires Inv(s) && Enabled(s, step) && LeavesTable(step)
    ensures Inv(Apply(s, step))
  {
    hide Apply, Enabled, InvSlot, InvWake, InvUnit, InvReq, InvArena, InvLog, InvLoop;
    var t := Apply(s, step);
    assert InvTable(t) by {
      TableUntouched(s, step);
    }
    QuietLoop(s, step);
    forall i | 0 <= i < |t.tb.slots|
      ensures InvSlot(t, i) && InvWake(t, i)
    {
      TableUntouched(s, step);
      QuietSlot(s, step, i);
      QuietWake(s, step, i);
    }
    forall n: nat
      ensures InvUnit(t, n) && InvReq(t, n) && InvArena(t, n)
    {
      QuietUnit(s, step, n);
      QuietReq(s, step, n);
      QuietArena(s, step, n);
    }
    forall k | 0 <= k < |t.log|
      ensures InvLog(t, k)
    {
      QuietLog(s, step, k);
    }
  }

  lemma TableUntouched(s: State, step: Step)
    requires Enabled(s, step) && LeavesTable(step)
    ensures Apply(s, step).tb == s.tb && Apply(s, step).free == s.free
  {
    hide DoPark, DoClientGone, DoFinished, DoWalk;
  }

  // ----- steps that change one slot -----

  /** The slot a step changes, if it changes the table at all. */
  ghost predicate OnlySlot(s: State, t: State, j: nat) {
    && j < |s.tb.slots| == |t.tb.slots| && t.tb.loop == s.tb.loop
    && forall i | 0 <= i < |s.tb.slots| && i != j :: t.tb.slots[i] == s.tb.slots[i]
  }

  lemma ParkTable(s: State, u: Unit)
    requires Inv(s) && Enabled(s, Park(u)) && DoPark(s, u) != s
    ensures var t := DoPark(s, u);
            && s.free != [] && OnlySlot(s, t, s.free[0]) && InvTable(t)
            && t == s.(tb := t.tb, free := s.free[1..], loop := Enqueuing(s.loop.req, u), arena := None, parked := true,
                       deferred := s.deferred[s.loop.req := Parking(t.tickets[u], u)], tickets := s.tickets[u := t.tickets[u]],
                       owner := s.owner[u := s.loop.req], arenas := s.arenas[u := s.arena])
            && Holds(t, s.free[0], u) && Home(t, u) == s.free[0] && t.tickets[u] != 0
            && PhaseAt(t.tb, s.free[0]) == ARMED && PhaseAt(s.tb, s.free[0]) == FREE
            && t.tb.slots == s.tb.slots[s.free[0] := t.tb.slots[s.free[0]]]
            && var x := t.tb.slots[s.free[0]];
               x.state == StateOf(GenerationIn(x.state), ARMED) && x.work == Some(u) && x.arena == s.arena && x.req == Some(s.loop.req)
  {
    var t := DoPark(s, u);
    ArmKeepsList(s.tb, s.free, s.loop.req, u, s.arena);
    var i := s.free[0];
    var g := NextGeneration(s.tb.slots[i].state);
    TicketRoundTrip(s.tb.loop, i, g);
    StateRoundTrip(g, ARMED);
  }

  lemma ParkSlot(s: State, u: Unit, i: nat)
    requires Inv(s) && Enabled(s, Park(u)) && DoPark(s, u) != s && i < |s.tb.slots|
    ensures i < |DoPark(s, u).tb.slots| && InvSlot(DoPark(s, u), i) && InvWake(DoPark(s, u), i)
  {
    ParkTable(s, u);
    var t, f := DoPark(s, u), s.free[0];
    hide DoPark, ListsFree, TicketOf, StateOf, IndexOf, GenerationIn, PhaseIn;
    assert InvSlot(s, i) && InvWake(s, i);
    if i != f {
      assert t.tb.slots[i] == s.tb.slots[i];
    }
  }

  lemma ParkUnit(s: State, u: Unit, v: Unit)
    requires Inv(s) && Enabled(s, Park(u)) && DoPark(s, u) != s
    ensures InvUnit(DoPark(s, u), v)
  {
    ParkTable(s, u);
    var t, f := DoPark(s, u), s.free[0];
    SlotUpdate(s.tb.slots, f, t.tb.slots[f], v);
    assert InvSlot(s, f) && InvUnit(s, v);
    hide DoPark, ListsFree, TicketOf, StateOf, IndexOf, GenerationIn, PhaseIn, WorkTimes, LogTimes;
    if Waits(t, v) && v != u {
      assert t.tb.slots[Home(s, v)] == s.tb.slots[Home(s, v)];
    }
  }

  lemma ParkReq(s: State, u: Unit, r: Req)
    requires Inv(s) && Enabled(s, Park(u)) && DoPark(s, u) != s
    ensures InvReq(DoPark(s, u), r)
  {
    ParkTable(s, u);
    var t, f := DoPark(s, u), s.free[0];
    hide DoPark, ListsFree, TicketOf, StateOf, IndexOf, GenerationIn, PhaseIn, WorkTimes, LogTimes;
    assert InvReq(s, r) && InvSlot(s, f);
    if r in s.deferred && r != s.loop.req {
      var h := Home(s, s.deferred[r].unit);
      assert h < |s.tb.slots| && h != f ==> t.tb.slots[h] == s.tb.slots[h];
    }
  }

  lemma ParkRest(s: State, u: Unit, n: nat)
    requires Inv(s) && Enabled(s, Park(u)) && DoPark(s, u) != s
    ensures InvArena(DoPark(s, u), n) && InvLoop(DoPark(s, u))
    ensures DoPark(s, u).log == s.log && (n < |s.log| ==> InvLog(DoPark(s, u), n))
  {
    ParkTable(s, u);
    var t, f := DoPark(s, u), s.free[0];
    SlotUpdate(s.tb.slots, f, t.tb.slots[f], n);
    assert InvSlot(s, f) && InvArena(s, n) && InvUnit(s, u);
    if n < |s.log| {
      assert InvLog(s, n);
    }
    hide DoPark, ListsFree, TicketOf, StateOf, IndexOf, GenerationIn, PhaseIn, WorkTimes, LogTimes, ArenaTimes;
  }

  // A client leaves.

  lemma GoneTable(s: State, r: Req)
    requires Inv(s) && Enabled(s, ClientGone(r)) && r in s.deferred
    ensures var t, u := DoClientGone(s, r), s.deferred[r].unit;
            && u in s.tickets && Home(s, u) < |s.tb.slots| && Holds(s, Home(s, u), u)
            && InvTable(t) && t.free == s.free
            && t == s.(live := s.live - {r}, deferred := s.deferred - {r}, tb := t.tb)
            && t.tb == s.tb.(slots := s.tb.slots[Home(s, u) := s.tb.slots[Home(s, u)].(req := None)])
  {
    assert InvReq(s, r);
    var u := s.deferred[r].unit;
    HoldsHome(s, Home(s, u), u);
    ForgetKeepsList(s.tb, s.free, Home(s, u), GenerationOf(s.tickets[u]));
  }

  lemma GoneSlot(s: State, r: Req, i: nat)
    requires Inv(s) && Enabled(s, ClientGone(r)) && i < |s.tb.slots|
    ensures i < |DoClientGone(s, r).tb.slots| && InvSlot(DoClientGone(s, r), i) && InvWake(DoClientGone(s, r), i)
  {
    assert InvSlot(s, i) && InvWake(s, i) && InvReq(s, r);
    if r in s.deferred {
      GoneTable(s, r);
    }
    if s.tb.slots[i].work.Some? && PhaseAt(s.tb, i) != FREE {
      HoldsHome(s, i, s.tb.slots[i].work.value);
    }
    hide ListsFree, TicketOf, StateOf, IndexOf, GenerationIn, GenerationOf, PhaseIn, Forget;
  }

  lemma GoneUnit(s: State, r: Req, u: Unit)
    requires Inv(s) && Enabled(s, ClientGone(r))
    ensures InvUnit(DoClientGone(s, r), u)
  {
    assert InvUnit(s, u);
    if r in s.deferred {
      GoneTable(s, r);
      var h := Home(s, s.deferred[r].unit);
      SlotUpdate(s.tb.slots, h, s.tb.slots[h].(req := None), u);
    }
    hide ListsFree, TicketOf, StateOf, IndexOf, GenerationIn, GenerationOf, PhaseIn, Forget, WorkTimes, LogTimes;
  }

  lemma GoneRest(s: State, r: Req, n: nat)
    requires Inv(s) && Enabled(s, ClientGone(r))
    ensures InvReq(DoClientGone(s, r), n) && InvArena(DoClientGone(s, r), n) && InvLoop(DoClientGone(s, r))
    ensures DoClientGone(s, r).log == s.log && (n < |s.log| ==> InvLog(DoClientGone(s, r), n)) && InvTable(DoClientGone(s, r))
  {
    assert InvReq(s, n) && InvArena(s, n);
    if n < |s.log| {
      assert InvLog(s, n);
    }
    if r in s.deferred {
      GoneTable(s, r);
      var h := Home(s, s.deferred[r].unit);
      SlotUpdate(s.tb.slots, h, s.tb.slots[h].(req := None), n);
    }
    hide ListsFree, TicketOf, StateOf, IndexOf, GenerationIn, GenerationOf, PhaseIn, Forget, WorkTimes, LogTimes, ArenaTimes;
  }

  // A worker finishes.

  /** The slot is armed before the unit is queued and stays so: the one `finished` always claims it. */
  lemma FinishedClaims(s: State, u: Unit)
    requires Inv(s) && u in s.flying
    ensures u in s.tickets && Claimable(s.tb, s.tickets[u]) == Some(Home(s, u))
    ensures Holds(s, Home(s, u), u) && PhaseAt(s.tb, Home(s, u)) == ARMED
  {
    assert InvUnit(s, u);
    var h := Home(s, u);
    HoldsHome(s, h, u);
    assert InvSlot(s, h);
    var g := GenerationIn(s.tb.slots[h].state);
    TicketRoundTrip(s.tb.loop, h, g);
  }

  lemma FinishedTable(s: State, u: Unit)
    requires Inv(s) && Enabled(s, Finished(u))
    ensures var t, h := DoFinished(s, u), Home(s, u);
            && Holds(s, h, u) && PhaseAt(s.tb, h) == ARMED && InvTable(t) && t.free == s.free
            && t == s.(tb := t.tb, flying := s.flying - {u}, claimers := s.claimers + {u})
            && t.tb == s.tb.(slots := s.tb.slots[h := s.tb.slots[h].(state := t.tb.slots[h].state)])
            && GenerationIn(t.tb.slots[h].state) == GenerationIn(s.tb.slots[h].state)
            && PhaseAt(t.tb, h) == RESUMING && t.tb.slots[h].state == StateOf(GenerationIn(s.tb.slots[h].state), RESUMING)
  {
    FinishedClaims(s, u);
    var h := Home(s, u);
    HoldsHome(s, h, u);
    StateRoundTrip(GenerationOf(s.tickets[u]), RESUMING);
    ClaimKeepsList(s.tb, s.free, s.tickets[u]);
  }

  lemma FinishedSlot(s: State, u: Unit, i: nat)
    requires Inv(s) && Enabled(s, Finished(u)) && i < |s.tb.slots|
    ensures i < |DoFinished(s, u).tb.slots| && InvSlot(DoFinished(s, u), i) && InvWake(DoFinished(s, u), i)
  {
    FinishedTable(s, u);
    hide ListsFree, TicketOf, StateOf, IndexOf, GenerationIn, PhaseIn, DoFinished;
    assert InvSlot(s, i) && InvWake(s, i);
    if i != Home(s, u) && s.tb.slots[i].work.Some? && PhaseAt(s.tb, i) != FREE {
      HoldsHome(s, i, s.tb.slots[i].work.value);
    }
  }

  lemma FinishedUnit(s: State, u: Unit, v: Unit)
    requires Inv(s) && Enabled(s, Finished(u))
    ensures InvUnit(DoFinished(s, u), v)
  {
    FinishedTable(s, u);
    var t, h := DoFinished(s, u), Home(s, u);
    SlotUpdate(s.tb.slots, h, t.tb.slots[h], v);
    hide ListsFree, TicketOf, StateOf, IndexOf, GenerationIn, PhaseIn, DoFinished, WorkTimes, LogTimes;
    assert InvUnit(s, v) && InvUnit(s, u);
  }

  lemma FinishedRest(s: State, u: Unit, n: nat)
    requires Inv(s) && Enabled(s, Finished(u))
    ensures var t := DoFinished(s, u);
            && InvReq(t, n) && InvArena(t, n) && InvLoop(t) && InvTable(t) && t.log == s.log && (n < |s.log| ==> InvLog(t, n))
  {
    FinishedTable(s, u);
    var t, h := DoFinished(s, u), Home(s, u);
    SlotUpdate(s.tb.slots, h, t.tb.slots[h], n);
    if s.loop.Called? {
      SlotUpdate(s.tb.slots, h, t.tb.slots[h], s.loop.unit);
    }
    hide ListsFree, TicketOf, StateOf, IndexOf, GenerationIn, PhaseIn, DoFinished, WorkTimes, LogTimes, ArenaTimes;
    assert InvReq(s, n) && InvArena(s, n);
    if n < |s.log| {
      assert InvLog(s, n);
    }
  }

  // The walk looks at a slot.

  predicate Delivers(s: State) {
    s.loop.Walking? && s.loop.i < |s.tb.slots| && PhaseAt(s.tb, s.loop.i) == RESUMING
  }

  lemma WalkTable(s: State)
    requires Inv(s) && Delivers(s)
    ensures var t, i, x := DoWalk(s), s.loop.i, s.tb.slots[s.loop.i];
            && x.work.Some? && Holds(s, i, x.work.value) && Home(s, x.work.value) == i
            && InvTable(t) && t.free == [i] + s.free
            && t == s.(tb := t.tb, free := t.free, arena := x.arena, parked := false, loop := Calling(x.work.value, x.req))
            && t.tb.slots == s.tb.slots[i := t.tb.slots[i]] && t.tb.loop == s.tb.loop
            && PhaseAt(t.tb, i) == FREE && t.tb.slots[i].work == None && t.tb.slots[i].arena == None
  {
    var i := s.loop.i;
    assert InvSlot(s, i);
    HoldsHome(s, i, s.tb.slots[i].work.value);
    StateRoundTrip(GenerationIn(s.tb.slots[i].state), FREE);
    ReleaseKeepsList(s.tb, s.free, i);
  }

  lemma WalkSlot(s: State, j: nat)
    requires Inv(s) && Delivers(s) && j < |s.tb.slots|
    ensures j < |DoWalk(s).tb.slots| && InvSlot(DoWalk(s), j) && InvWake(DoWalk(s), j)
  {
    WalkTable(s);
    hide ListsFree, TicketOf, StateOf, IndexOf, GenerationIn, PhaseIn, DoWalk, Release;
    assert InvSlot(s, j) && InvWake(s, j);
  }

  lemma WalkUnit(s: State, v: Unit)
    requires Inv(s) && Delivers(s)
    ensures InvUnit(DoWalk(s), v)
  {
    WalkTable(s);
    var t, i := DoWalk(s), s.loop.i;
    SlotUpdate(s.tb.slots, i, t.tb.slots[i], v);
    hide ListsFree, TicketOf, StateOf, IndexOf, GenerationIn, PhaseIn, DoWalk, Release, WorkTimes, LogTimes;
    assert InvUnit(s, v);
  }

  lemma WalkReq(s: State, r: Req)
    requires Inv(s) && Delivers(s)
    ensures InvReq(DoWalk(s), r)
  {
    WalkTable(s);
    var i := s.loop.i;
    hide ListsFree, TicketOf, StateOf, IndexOf, GenerationIn, PhaseIn, DoWalk, Release, WorkTimes, LogTimes;
    assert InvReq(s, r) && InvSlot(s, i);
  }

  lemma WalkRest(s: State, n: nat)
    requires Inv(s) && Delivers(s)
    ensures var t := DoWalk(s);
            && InvArena(t, n) && InvLoop(t) && t.log == s.log && (n < |s.log| ==> InvLog(t, n))
  {
    WalkTable(s);
    var t, i := DoWalk(s), s.loop.i;
    SlotUpdate(s.tb.slots, i, t.tb.slots[i], n);
    hide ListsFree, TicketOf, StateOf, IndexOf, GenerationIn, PhaseIn, DoWalk, Release, WorkTimes, LogTimes, ArenaTimes;
    assert InvArena(s, n) && InvSlot(s, i);
    if n < |s.log| {
      assert InvLog(s, n);
    }
  }

  // ----- every step -----

  lemma ParkKeeps(s: State, u: Unit)
    requires Inv(s) && Enabled(s, Park(u))
    ensures Inv(DoPark(s, u))
  {
    hide DoPark, InvSlot, InvWake, InvUnit, InvReq, InvArena, InvLog, InvLoop;
    var t := DoPark(s, u);
    if t != s {
      ParkTable(s, u);
      forall i | 0 <= i < |t.tb.slots| ensures InvSlot(t, i) && InvWake(t, i) {
        ParkSlot(s, u, i);
      }
      forall n: nat ensures InvUnit(t, n) && InvReq(t, n) && InvArena(t, n) && (n < |t.log| ==> InvLog(t, n)) {
        ParkUnit(s, u, n);
        ParkReq(s, u, n);
        ParkRest(s, u, n);
      }
      ParkRest(s, u, 0);
    }
  }

  lemma GoneKeeps(s: State, r: Req)
    requires Inv(s) && Enabled(s, ClientGone(r))
    ensures Inv(DoClientGone(s, r))
  {
    var t := DoClientGone(s, r);
    GoneRest(s, r, 0);
    assert |t.tb.slots| == |s.tb.slots|;
    hide DoClientGone, InvSlot, InvWake, InvUnit, InvReq, InvArena, InvLog, InvLoop;
    forall i | 0 <= i < |t.tb.slots| ensures InvSlot(t, i) && InvWake(t, i) {
      GoneSlot(s, r, i);
    }
    forall n: nat ensures InvUnit(t, n) && InvReq(t, n) && InvArena(t, n) && (n < |t.log| ==> InvLog(t, n)) {
      GoneUnit(s, r, n);
      GoneRest(s, r, n);
    }
  }

  lemma FinishedKeeps(s: State, u: Unit)
    requires Inv(s) && Enabled(s, Finished(u))
    ensures Inv(DoFinished(s, u))
  {
    var t := DoFinished(s, u);
    FinishedRest(s, u, 0);
    FinishedTable(s, u);
    hide DoFinished, InvSlot, InvWake, InvUnit, InvReq, InvArena, InvLog, InvLoop;
    forall i | 0 <= i < |t.tb.slots| ensures InvSlot(t, i) && InvWake(t, i) {
      FinishedSlot(s, u, i);
    }
    forall n: nat ensures InvUnit(t, n) && InvReq(t, n) && InvArena(t, n) && (n < |t.log| ==> InvLog(t, n)) {
      FinishedUnit(s, u, n);
      FinishedRest(s, u, n);
    }
  }

  lemma WalkDelivers(s: State)
    requires Inv(s) && Delivers(s)
    ensures Inv(DoWalk(s))
  {
    var t := DoWalk(s);
    WalkRest(s, 0);
    WalkTable(s);
    hide DoWalk, InvSlot, InvWake, InvUnit, InvReq, InvArena, InvLog, InvLoop;
    forall i | 0 <= i < |t.tb.slots| ensures InvSlot(t, i) && InvWake(t, i) {
      WalkSlot(s, i);
    }
    forall n: nat ensures InvUnit(t, n) && InvReq(t, n) && InvArena(t, n) && (n < |t.log| ==> InvLog(t, n)) {
      WalkUnit(s, n);
      WalkReq(s, n);
      WalkRest(s, n);
    }
  }

  lemma WalkPasses(s: State)
    requires Inv(s) && Enabled(s, Walk) && !Delivers(s)
    ensures Inv(DoWalk(s))
  {
    var t := DoWalk(s);
    assert t == s.(loop := t.loop) && (t.loop.Idle? || t.loop == Walking(s.loop.i + 1));
    assert t.loop.Idle? ==> s.loop.i >= |s.tb.slots|;
    hide DoWalk, ListsFree, TicketOf, StateOf, IndexOf, GenerationIn, PhaseIn, WorkTimes, LogTimes, ArenaTimes;
    forall i | 0 <= i < |t.tb.slots| ensures InvSlot(t, i) && InvWake(t, i) {
      assert InvSlot(s, i) && InvWake(s, i);
    }
    forall n: nat ensures InvUnit(t, n) && InvReq(t, n) && InvArena(t, n) && (n < |t.log| ==> InvLog(t, n)) {
      assert InvUnit(s, n) && InvReq(s, n) && InvArena(s, n);
      if n < |s.log| {
        assert InvLog(s, n);
      }
    }
  }

  lemma InvStep(s: State, step: Step)
    requires Inv(s) && Enabled(s, step)
    ensures Inv(Apply(s, step))
  {
    hide Inv, DoPark, DoClientGone, DoFinished, DoWalk;
    match step
    case Park(u) => ParkKeeps(s, u);
    case ClientGone(r) => GoneKeeps(s, r);
    case Finished(u) => FinishedKeeps(s, u);
    case Walk =>
      if Delivers(s) {
        WalkDelivers(s);
      } else {
        WalkPasses(s);
      }
    case _ => QuietStep(s, step);
  }

  ghost predicate Next(s: State, t: State) {
    exists step :: Enabled(s, step) && t == Apply(s, step)
  }

  ghost predicate IsRun(ss: seq<State>) {
    && |ss| > 0 && Initial(ss[0])
    && forall k, l | 0 <= k && k + 1 == l < |ss| :: Next(ss[k], ss[l])
  }

  lemma NextInv(s: State, t: State)
    requires Inv(s) && Next(s, t)
    ensures Inv(t)
  {
    hide Inv;
    var step :| Enabled(s, step) && t == Apply(s, step);
    InvStep(s, step);
  }

  lemma {:induction false} RunInv(ss: seq<State>, k: nat)
    requires IsRun(ss) && k < |ss|
    ensures Inv(ss[k])
  {
    hide Inv, Next, Initial;
    if k == 0 {
      InitialInv(ss[0]);
    } else {
      RunInv(ss, k - 1);
      NextInv(ss[k - 1], ss[k]);
    }
  }

  // ----- the theorems, over every run -----

  /** `finished` finds its slot armed, whatever happened since it was parked. */
  lemma EveryFinishedClaims(ss: seq<State>, k: nat, u: Unit)
    requires IsRun(ss) && k < |ss| && u in ss[k].flying
    ensures u in ss[k].tickets && Claimable(ss[k].tb, ss[k].tickets[u]) == Some(Home(ss[k], u))
  {
    RunInv(ss, k);
    FinishedClaims(ss[k], u);
  }

  /**
   * The coalescing wake-up loses nothing: once no wake-up is pending, no claimer is short of its
   * send and no walk is running, no slot is left resuming.
   */
  lemma NoResumeLost(ss: seq<State>, k: nat, i: nat)
    requires IsRun(ss) && k < |ss| && i < |ss[k].tb.slots|
    requires !ss[k].pending && ss[k].claimers == {}
    requires ss[k].loop.Idle? || ss[k].loop.Handling? || ss[k].loop.Enqueuing?
    ensures PhaseAt(ss[k].tb, i) != RESUMING
  {
    RunInv(ss, k);
    assert InvWake(ss[k], i);
  }

  /** `done` runs at most once for a unit, and once the unit is neither in a slot nor in the loop's
      hands it has run exactly once; a unit that was never parked is never done. */
  lemma DoneOnce(ss: seq<State>, k: nat, u: Unit)
    requires IsRun(ss) && k < |ss|
    ensures var s := ss[k];
            LogTimes(s.log, u) == One(u in s.tickets) - WorkTimes(s.tb.slots, u) - One(s.loop.Calling? && s.loop.unit == u)
  {
    RunInv(ss, k);
    assert InvUnit(ss[k], u);
  }

  /** `done` is given the request it was parked for, or nothing exactly when the client had left. */
  lemma DoneWithTheRequest(ss: seq<State>, k: nat, n: nat)
    requires IsRun(ss) && k < |ss| && n < |ss[k].log|
    ensures var d := ss[k].log[n];
            && d.unit in ss[k].owner
            && d.where == if d.connected then Some(ss[k].owner[d.unit]) else None
  {
    RunInv(ss, k);
    assert InvLog(ss[k], n);
  }

  /**
   * Every arena is in exactly one place -- the pool, the current request or one slot -- so it is
   * returned once and never lent twice; and while a unit is with the executor its arena is in its slot.
   */
  lemma ArenaOwnedOnce(ss: seq<State>, k: nat, a: Arena, u: Unit)
    requires IsRun(ss) && k < |ss| && a in ss[k].all
    ensures var s := ss[k];
            && One(a in s.pool) + One(s.arena == Some(a)) + ArenaTimes(s.tb.slots, a) == 1
            && (u in s.flying && u in s.arenas && s.arenas[u] == Some(a) ==> a !in s.pool && s.arena != Some(a))
  {
    RunInv(ss, k);
    var s := ss[k];
    assert InvArena(s, a);
    if u in s.flying {
      FinishedClaims(s, u);
      var h := Home(s, u);
      assert InvSlot(s, h);
      SlotUpdate(s.tb.slots, h, s.tb.slots[h], a);
    }
  }

  /**
   * At rest -- the loop idle, no unit with the executor, no claimer and no wake-up under way -- every
   * slot is free, every unit that was parked has been done exactly once, and every arena is in the pool.
   */
  lemma AtRestAllDone(ss: seq<State>, k: nat)
    requires IsRun(ss) && k < |ss|
    requires ss[k].loop.Idle? && ss[k].flying == {} && ss[k].claimers == {} && !ss[k].pending
    ensures var s := ss[k];
            && (forall i | 0 <= i < |s.tb.slots| :: PhaseAt(s.tb, i) == FREE)
            && (forall u: Unit :: LogTimes(s.log, u) == One(u in s.tickets))
            && s.pool == s.all
  {
    hide IsRun, LogTimes;
    RunInv(ss, k);
    var s := ss[k];
    forall i | 0 <= i < |s.tb.slots|
      ensures PhaseAt(s.tb, i) == FREE && s.tb.slots[i].work == None && s.tb.slots[i].arena == None
    {
      NoResumeLost(ss, k, i);
      assert InvSlot(s, i);
    }
    forall n: nat
      ensures LogTimes(s.log, n) == One(n in s.tickets) && (n in s.pool <==> n in s.all)
    {
      NothingThere(s.tb.slots, n);
      assert InvUnit(s, n) && InvArena(s, n);
    }
  }

  /** Parking succeeds exactly while a slot is free: the request, the unit and the arena are in it then, and the handler has none. */
  lemma ParkTakesASlot(ss: seq<State>, k: nat, u: Unit)
    requires IsRun(ss) && k < |ss| && Enabled(ss[k], Park(u))
    ensures var s, t := ss[k], Apply(ss[k], Park(u));
            && ((forall i | 0 <= i < |s.tb.slots| :: PhaseAt(s.tb, i) != FREE) ==> t == s)
            && ((exists i :: 0 <= i < |s.tb.slots| && PhaseAt(s.tb, i) == FREE) ==>
                  && s.free != [] && s.free[0] < |t.tb.slots| && PhaseAt(s.tb, s.free[0]) == FREE
                  && t.tb.slots[s.free[0]].req == Some(s.loop.req) && t.tb.slots[s.free[0]].work == Some(u)
                  && t.tb.slots[s.free[0]].arena == s.arena && PhaseAt(t.tb, s.free[0]) == ARMED
                  && t.loop == Enqueuing(s.loop.req, u) && t.arena == None && t.parked
                  && u in t.tickets && Claimable(t.tb, t.tickets[u]) == Some(s.free[0]))
  {
    RunInv(ss, k);
    var s := ss[k];
    assert InvTable(s);
    hide Inv, IsRun;
    ArmKeepsList(s.tb, s.free, s.loop.req, u, s.arena);
    if s.free != [] {
      assert s.free[0] in s.free;
      ArmedPhase(s.tb, s.loop.req, u, s.arena);
    }
  }

  lemma ArmedPhase(tb: Table, req: nat, work: nat, arena: Option<nat>)
    requires Shape(tb) && tb.freeHead >= 0
    ensures PhaseAt(Arm(tb, req, work, arena).0, tb.freeHead) == ARMED
  {
    StateRoundTrip(NextGeneration(tb.slots[tb.freeHead].state), ARMED);
  }
}
