/**
 * Running one unit of work: the transaction the executor opens and ends around it, and the two
 * budgets -- one for units that ask to run again, one for connections that lose statements.
 *
 * The driver and the work are an adversary: `Turn` is everything they may answer during one turn
 * of the loop, and a script of turns is arbitrary. What the loop does is a `trace` of the calls it
 * makes, and whether a transaction is open is read off the trace by the driver's own rules.
 */
module RunUnit {

  datatype Kind = Postgres | Sqlite
  datatype Access = Read | Write
  datatype End = Commit | Rollback | Again

  /** `Spent` is the executor's own error, for a unit or a connection over its budget. */
  datatype Status = Ok | Driver(code: nat) | Spent

  datatype Answer = Done | Refused(code: nat)

  /** `lost`: the work's session lost a prepared statement. `stuck`: SQLite says the transaction is
      still open after a ROLLBACK that was refused. */
  datatype Turn = Turn(begin: Answer, end: End, lost: bool, rollback: Answer, stuck: bool, commit: Answer)

  datatype Event =
    | Begin(immediate: bool, answer: Answer)
    | Work(attempt: nat, end: End, lost: bool)
    | RollBack(answer: Answer, stuck: bool)
    | Redial
    | CommitCall(answer: Answer)
    | CriticalStop

  datatype Config = Config(kind: Kind, access: Access, againMax: nat, rerunMax: nat)

  predicate Sound(c: Config) {
    c.againMax > 0 && c.rerunMax > 0
  }

  datatype Result = Result(trace: seq<Event>, status: Status, attempt: nat)

  function StatusOf(a: Answer): Status {
    match a
    case Done => Ok
    case Refused(code) => Driver(code)
  }

  // ----- the dialogue, as a function -----

  predicate Stuck(c: Config, t: Turn) {
    c.kind == Sqlite && t.rollback.Refused? && t.stuck
  }

  function RollBackCalls(c: Config, t: Turn): seq<Event> {
    [RollBack(t.rollback, t.stuck)]
    + if t.rollback.Done? then []
      else if c.kind == Postgres then [Redial]
      else if t.stuck then [CriticalStop]
      else []
  }

  function Opening(c: Config, t: Turn, attempt: nat): seq<Event> {
    (if c.access == Write then [Begin(c.kind == Sqlite, t.begin)] else [])
    + if c.access == Write && t.begin.Refused? then [] else [Work(attempt, t.end, t.lost)]
  }

  /** The calls of a turn up to where the loop decides whether to go round again. */
  function Turning(c: Config, t: Turn, attempt: nat): seq<Event> {
    Opening(c, t, attempt) + if c.access == Write then RollBackCalls(c, t) else []
  }

  predicate GoesOn(c: Config, t: Turn, attempt: nat, reruns: nat) {
    && (c.access == Write ==> t.begin.Done? && !Stuck(c, t))
    && (t.lost || t.end == Again)
    && (if t.lost then reruns + 1 < c.rerunMax else attempt < c.againMax)
  }

  /** A turn after which the loop returns. */
  function Final(c: Config, t: Turn, attempt: nat): Result {
    if c.access == Write && t.begin.Refused? then
      Result(Opening(c, t, attempt), StatusOf(t.begin), attempt)
    else if !t.lost && c.access == Write && t.end == Commit then
      Result(Opening(c, t, attempt) + [CommitCall(t.commit)], StatusOf(t.commit), attempt)
    else
      Result(Turning(c, t, attempt),
             if c.access == Write && Stuck(c, t) then StatusOf(t.rollback)
             else if t.lost || t.end == Again then Spent
             else Ok,
             attempt)
  }

  /** What the loop does from its `n`-th turn on, with that much of each budget spent. */
  function Exec(c: Config, script: nat -> Turn, n: nat, attempt: nat, reruns: nat): Result
    requires 1 <= attempt <= c.againMax && reruns < c.rerunMax
    decreases c.againMax - attempt + c.rerunMax - reruns
  {
    var t := script(n);
    if !GoesOn(c, t, attempt, reruns) then Final(c, t, attempt)
    else if t.lost then Before(Turning(c, t, attempt), Exec(c, script, n + 1, attempt, reruns + 1))
    else Before(Turning(c, t, attempt), Exec(c, script, n + 1, attempt + 1, reruns))
  }

  function Before(calls: seq<Event>, r: Result): Result {
    r.(trace := calls + r.trace)
  }

  // ----- the loop -----

  method Run(c: Config, script: nat -> Turn) returns (status: Status, attempt: nat, trace: seq<Event>)
    requires Sound(c)
    ensures Result(trace, status, attempt) == Exec(c, script, 0, 1, 0)
    ensures Works(trace) <= c.againMax + c.rerunMax - 1
    ensures OpenAfter(c, trace, false) <==> CriticalStop in trace
  {
    hide Works, OpenAfter;
    var reruns := 0;
    var n := 0;
    status, attempt, trace := Ok, 1, [];
    ghost var whole := Exec(c, script, 0, 1, 0);
    WorkBound(c, script, 0, 1, 0);
    NothingLeftOpen(c, script, 0, 1, 0);
    while true
      invariant 1 <= attempt <= c.againMax && reruns < c.rerunMax && status == Ok
      invariant whole == Before(trace, Exec(c, script, n, attempt, reruns))
      decreases c.againMax - attempt + c.rerunMax - reruns
    {
      ghost var start, calls := trace, Turning(c, script(n), attempt);
      var verdict;
      trace, verdict := OneTurn(c, script(n), attempt, trace);
      if verdict.Ends? {
        status := verdict.status;
        return;
      }
      if verdict.Loses? {
        reruns := reruns + 1;
        if reruns >= c.rerunMax {
          status := Spent;
          return;
        }
      } else {
        if attempt >= c.againMax {
          status := Spent;
          return;
        }
        attempt := attempt + 1;
      }
      n := n + 1;
      Reassociate(start, trace, calls, Exec(c, script, n, attempt, reruns));
    }
  }

  /** How a turn leaves the loop: with a status, with a run to repeat, or with another attempt to make. */
  datatype Verdict = Ends(status: Status) | Loses | Asks

  /** One turn: BEGIN, the work, and the COMMIT or ROLLBACK that ends the transaction. */
  method OneTurn(c: Config, t: Turn, attempt: nat, before: seq<Event>) returns (trace: seq<Event>, verdict: Verdict)
    ensures trace == before + if verdict.Ends? then Final(c, t, attempt).trace else Turning(c, t, attempt)
    ensures verdict.Ends? ==> verdict.status == Final(c, t, attempt).status
    ensures verdict.Ends? ==> forall reruns :: !GoesOn(c, t, attempt, reruns)
    ensures !verdict.Ends? ==> (verdict.Loses? <==> t.lost) && (t.lost || t.end == Again)
    ensures !verdict.Ends? && c.access == Write ==> t.begin.Done? && !Stuck(c, t)
  {
    trace := before;
    if c.access == Write {
      trace := trace + [Begin(c.kind == Sqlite, t.begin)];
      if t.begin.Refused? {
        assert trace == before + Opening(c, t, attempt);
        return trace, Ends(StatusOf(t.begin));
      }
    }
    trace := trace + [Work(attempt, t.end, t.lost)];
    assert trace == before + Opening(c, t, attempt);
    if t.lost {
      if c.access == Write {
        var stop;
        trace, stop := CallRollBack(c, t, trace);
        if stop {
          return trace, Ends(StatusOf(t.rollback));
        }
      }
      return trace, Loses;
    }
    if c.access == Write {
      if t.end == Commit {
        trace := trace + [CommitCall(t.commit)];
        return trace, Ends(StatusOf(t.commit));
      }
      var stop;
      trace, stop := CallRollBack(c, t, trace);
      if stop {
        return trace, Ends(StatusOf(t.rollback));
      }
    }
    return trace, if t.end == Again then Asks else Ends(Ok);
  }

  /** ROLLBACK, and what a refused one means on either database; `stop` ends the unit. */
  method CallRollBack(c: Config, t: Turn, before: seq<Event>) returns (trace: seq<Event>, stop: bool)
    ensures trace == before + RollBackCalls(c, t) && stop == Stuck(c, t)
  {
    trace := before + [RollBack(t.rollback, t.stuck)];
    if t.rollback.Done? {
      return trace, false;
    }
    if c.kind == Postgres {
      return trace + [Redial], false;
    }
    if !t.stuck {
      return trace, false;
    }
    return trace + [CriticalStop], true;
  }

  lemma Reassociate(start: seq<Event>, trace: seq<Event>, calls: seq<Event>, r: Result)
    requires trace == start + calls
    ensures Before(start, Before(calls, r)) == Before(trace, r)
  {
    assert start + (calls + r.trace) == trace + r.trace;
  }

  // ----- reading a trace -----

  /**
   * The databases' rules: BEGIN opens if it was not refused; COMMIT ends the transaction whatever
   * it answers; ROLLBACK ends it on PostgreSQL whatever it answers, and on SQLite unless it was
   * refused and the transaction is reported still open.
   */
  function After(c: Config, open: bool, e: Event): bool {
    match e
    case Begin(_, a) => open || a.Done?
    case CommitCall(_) => false
    case RollBack(a, stuck) => open && c.kind == Sqlite && a.Refused? && stuck
    case _ => open
  }

  function OpenAfter(c: Config, tr: seq<Event>, open: bool): bool {
    if tr == [] then open else OpenAfter(c, tr[1..], After(c, open, tr[0]))
  }

  function Works(tr: seq<Event>): nat {
    if tr == [] then 0 else (if tr[0].Work? then 1 else 0) + Works(tr[1..])
  }

  /** Runs that asked for another attempt; a run thrown away for a lost statement does not count. */
  function Agains(tr: seq<Event>): nat {
    if tr == [] then 0 else (if tr[0].Work? && tr[0].end == Again && !tr[0].lost then 1 else 0) + Agains(tr[1..])
  }

  function Losts(tr: seq<Event>): nat {
    if tr == [] then 0 else (if tr[0].Work? && tr[0].lost then 1 else 0) + Losts(tr[1..])
  }

  lemma {:induction false} Concat(c: Config, a: seq<Event>, b: seq<Event>, open: bool)
    ensures OpenAfter(c, a + b, open) == OpenAfter(c, b, OpenAfter(c, a, open))
    ensures Works(a + b) == Works(a) + Works(b)
    ensures Agains(a + b) == Agains(a) + Agains(b)
    ensures Losts(a + b) == Losts(a) + Losts(b)
  {
    if a == [] {
      assert a + b == b;
    } else {
      assert (a + b)[1..] == a[1..] + b;
      Concat(c, a[1..], b, After(c, open, a[0]));
    }
  }

  lemma Reads(c: Config, e: Event, rest: seq<Event>, open: bool)
    ensures OpenAfter(c, [e] + rest, open) == OpenAfter(c, rest, After(c, open, e))
    ensures Works([e] + rest) == (if e.Work? then 1 else 0) + Works(rest)
    ensures Agains([e] + rest) == (if e.Work? && e.end == Again && !e.lost then 1 else 0) + Agains(rest)
    ensures Losts([e] + rest) == (if e.Work? && e.lost then 1 else 0) + Losts(rest)
  {
    assert ([e] + rest)[1..] == rest;
  }

  lemma OpeningReads(c: Config, t: Turn, attempt: nat)
    requires c.access == Write ==> t.begin.Done?
    ensures var o := Opening(c, t, attempt);
            && OpenAfter(c, o, false) == (c.access == Write)
            && Works(o) == 1 && Agains(o) == (if t.end == Again && !t.lost then 1 else 0)
            && Losts(o) == (if t.lost then 1 else 0) && CriticalStop !in o
  {
    var b, w := Begin(c.kind == Sqlite, t.begin), Work(attempt, t.end, t.lost);
    Reads(c, b, [w], false);
    Reads(c, w, [], false);
    Reads(c, w, [], true);
    assert Opening(c, t, attempt) == if c.access == Write then [b] + [w] else [w] + [];
    assert [w] + [] == [w];
  }

  lemma RollBackReads(c: Config, t: Turn)
    ensures var b := RollBackCalls(c, t);
            && OpenAfter(c, b, true) == Stuck(c, t)
            && Works(b) == 0 && Agains(b) == 0 && Losts(b) == 0 && (CriticalStop in b <==> Stuck(c, t))
  {
    var b := RollBackCalls(c, t);
    Reads(c, b[0], b[1..], true);
    assert b == [b[0]] + b[1..];
    if |b| == 2 {
      Reads(c, b[1], [], Stuck(c, t));
      assert b[1..] == [b[1]] + [];
    }
  }

  lemma TurningReads(c: Config, t: Turn, attempt: nat)
    requires c.access == Write ==> t.begin.Done?
    ensures OpenAfter(c, Turning(c, t, attempt), false) == (c.access == Write && Stuck(c, t))
    ensures Works(Turning(c, t, attempt)) == 1
    ensures Agains(Turning(c, t, attempt)) == if t.end == Again && !t.lost then 1 else 0
    ensures Losts(Turning(c, t, attempt)) == if t.lost then 1 else 0
    ensures CriticalStop in Turning(c, t, attempt) <==> c.access == Write && Stuck(c, t)
  {
    var o, b := Opening(c, t, attempt), if c.access == Write then RollBackCalls(c, t) else [];
    OpeningReads(c, t, attempt);
    RollBackReads(c, t);
    Concat(c, o, b, false);
  }

  lemma FinalReads(c: Config, t: Turn, attempt: nat)
    ensures var tr := Final(c, t, attempt).trace;
            Works(tr) <= 1 && (OpenAfter(c, tr, false) <==> CriticalStop in tr)
  {
    if c.access == Write && t.begin.Refused? {
      var b := Begin(c.kind == Sqlite, t.begin);
      Reads(c, b, [], false);
      assert Opening(c, t, attempt) == [b] + [];
    } else if !t.lost && c.access == Write && t.end == Commit {
      OpeningReads(c, t, attempt);
      Concat(c, Opening(c, t, attempt), [CommitCall(t.commit)], false);
      Reads(c, CommitCall(t.commit), [], true);
      assert [CommitCall(t.commit)] == [CommitCall(t.commit)] + [];
    } else {
      TurningReads(c, t, attempt);
    }
  }

  // ----- what holds against every script -----

  /** The rest of the run after a turn the loop goes on from. */
  function Rest(c: Config, script: nat -> Turn, n: nat, attempt: nat, reruns: nat): Result
    requires 1 <= attempt <= c.againMax && reruns < c.rerunMax && GoesOn(c, script(n), attempt, reruns)
  {
    if script(n).lost then Exec(c, script, n + 1, attempt, reruns + 1)
    else Exec(c, script, n + 1, attempt + 1, reruns)
  }

  /** The work runs at most `againMax + rerunMax - 1` times. */
  lemma {:induction false} WorkBound(c: Config, script: nat -> Turn, n: nat, attempt: nat, reruns: nat)
    requires 1 <= attempt <= c.againMax && reruns < c.rerunMax
    ensures Works(Exec(c, script, n, attempt, reruns).trace) <= c.againMax - attempt + c.rerunMax - reruns
    decreases c.againMax - attempt + c.rerunMax - reruns
  {
    hide Final, Works, Turning;
    var t := script(n);
    if GoesOn(c, t, attempt, reruns) {
      TurningReads(c, t, attempt);
      Concat(c, Turning(c, t, attempt), Rest(c, script, n, attempt, reruns).trace, false);
      if t.lost {
        WorkBound(c, script, n + 1, attempt, reruns + 1);
      } else {
        WorkBound(c, script, n + 1, attempt + 1, reruns);
      }
    } else {
      FinalReads(c, t, attempt);
    }
  }

  /** The bound is reached: a unit that asks again until its last attempt and then keeps losing. */
  lemma {:induction false} WorkBoundIsTight(c: Config, n: nat, reruns: nat)
    requires Sound(c) && n < c.againMax + c.rerunMax - 1
    requires reruns == if n < c.againMax then 0 else n - c.againMax + 1
    ensures var script := (k: nat) => Turn(Done, Again, k + 1 >= c.againMax, Done, false, Done);
            Works(Exec(c, script, n, if n < c.againMax then n + 1 else c.againMax, reruns).trace)
              == c.againMax + c.rerunMax - 1 - n
    decreases c.againMax + c.rerunMax - n
  {
    var script := (k: nat) => Turn(Done, Again, k + 1 >= c.againMax, Done, false, Done);
    var attempt := if n < c.againMax then n + 1 else c.againMax;
    TurningReads(c, script(n), attempt);
    if GoesOn(c, script(n), attempt, reruns) {
      WorkBoundIsTight(c, n + 1, if n + 1 < c.againMax then 0 else n + 1 - c.againMax + 1);
      Concat(c, Turning(c, script(n), attempt), Rest(c, script, n, attempt, reruns).trace, false);
    }
  }

  /** On return a transaction is open exactly when the critical stop was raised. */
  lemma {:induction false} NothingLeftOpen(c: Config, script: nat -> Turn, n: nat, attempt: nat, reruns: nat)
    requires 1 <= attempt <= c.againMax && reruns < c.rerunMax
    ensures var tr := Exec(c, script, n, attempt, reruns).trace;
            OpenAfter(c, tr, false) <==> CriticalStop in tr
    decreases c.againMax - attempt + c.rerunMax - reruns
  {
    hide Final, Works, Turning, OpenAfter;
    var t := script(n);
    if GoesOn(c, t, attempt, reruns) {
      TurningReads(c, t, attempt);
      Concat(c, Turning(c, t, attempt), Rest(c, script, n, attempt, reruns).trace, false);
      if t.lost {
        NothingLeftOpen(c, script, n + 1, attempt, reruns + 1);
      } else {
        NothingLeftOpen(c, script, n + 1, attempt + 1, reruns);
      }
    } else {
      FinalReads(c, t, attempt);
    }
  }

  /**
   * What is legal at one place of a trace, given what came before it. Transactions never nest and
   * work that writes runs inside one; the attempt shown to the work is one more than the runs that
   * asked for another; after work that writes comes a ROLLBACK -- or a COMMIT, which only work that
   * asked for it and lost nothing gets, and which is the last thing that happens. A refused ROLLBACK
   * is followed by a new session on PostgreSQL, and by the critical stop if it left SQLite stuck.
   */
  ghost predicate LegalAt(c: Config, tr: seq<Event>, i: nat, attempt: nat)
    requires i < |tr|
  {
    var open := OpenAfter(c, tr[..i], false);
    match tr[i]
    case Begin(imm, _) => c.access == Write && imm == (c.kind == Sqlite) && !open
    case Work(a, end, lost) =>
      && a == attempt + Agains(tr[..i])
      && open == (c.access == Write)
      && (c.access == Write ==> i + 1 < |tr| && if end == Commit && !lost then tr[i + 1].CommitCall? else tr[i + 1].RollBack?)
    case RollBack(a, stuck) =>
      && open && c.access == Write
      && (a.Refused? && c.kind == Postgres ==> i + 1 < |tr| && tr[i + 1].Redial?)
      && (a.Refused? && c.kind == Sqlite && stuck ==> i + 1 < |tr| && tr[i + 1].CriticalStop?)
    case CommitCall(_) => open && i + 1 == |tr| && i > 0 && tr[i - 1].Work? && tr[i - 1].end == Commit && !tr[i - 1].lost
    case Redial => c.kind == Postgres && i > 0 && tr[i - 1].RollBack? && tr[i - 1].answer.Refused?
    case CriticalStop => open && c.kind == Sqlite && i + 1 == |tr| && i > 0 && tr[i - 1].RollBack? && tr[i - 1].answer.Refused?
  }

  ghost predicate Legal(c: Config, tr: seq<Event>, attempt: nat) {
    forall i | 0 <= i < |tr| :: LegalAt(c, tr, i, attempt)
  }

  lemma OpeningLegal(c: Config, t: Turn, attempt: nat, rest: seq<Event>)
    requires c.access == Write ==> t.begin.Done?
    requires c.access == Write ==> rest != [] && if t.end == Commit && !t.lost then rest[0].CommitCall? else rest[0].RollBack?
    ensures var tr := Opening(c, t, attempt) + rest;
            forall i | 0 <= i < |Opening(c, t, attempt)| :: LegalAt(c, tr, i, attempt)
  {
    var o := Opening(c, t, attempt);
    var tr := o + rest;
    assert tr[..0] == [];
    if c.access == Write {
      var b := Begin(c.kind == Sqlite, t.begin);
      assert o == [b, Work(attempt, t.end, t.lost)];
      assert tr[..1] == [b] + [];
      Reads(c, b, [], false);
    }
  }

  lemma RollBackLegal(c: Config, t: Turn, attempt: nat, rest: seq<Event>)
    requires c.access == Write && t.begin.Done? && (Stuck(c, t) ==> rest == [])
    ensures var o, b := Opening(c, t, attempt), RollBackCalls(c, t);
            forall i | |o| <= i < |o| + |b| :: LegalAt(c, o + b + rest, i, attempt)
  {
    var o, b := Opening(c, t, attempt), RollBackCalls(c, t);
    var tr := o + b + rest;
    assert |o| == 2 && tr[..2] == o;
    OpeningReads(c, t, attempt);
    if |b| == 2 {
      assert tr[..3] == o + ([b[0]] + []);
      Concat(c, o, [b[0]] + [], false);
      Reads(c, b[0], [], true);
    }
  }

  lemma ShiftLegal(c: Config, calls: seq<Event>, rest: seq<Event>, attempt: nat, attempt': nat, i: nat)
    requires !OpenAfter(c, calls, false) && attempt' == attempt + Agains(calls)
    requires i < |rest| && LegalAt(c, rest, i, attempt')
    ensures LegalAt(c, calls + rest, |calls| + i, attempt)
  {
    var tr := calls + rest;
    assert tr[..|calls| + i] == calls + rest[..i];
    Concat(c, calls, rest[..i], false);
    assert tr[|calls| + i] == rest[i];
    if i > 0 {
      assert tr[|calls| + i - 1] == rest[i - 1];
    }
    if i + 1 < |rest| {
      assert tr[|calls| + i + 1] == rest[i + 1];
    }
  }

  lemma TurningLegal(c: Config, t: Turn, attempt: nat, rest: seq<Event>)
    requires c.access == Write ==> t.begin.Done? && !(t.end == Commit && !t.lost) && (Stuck(c, t) ==> rest == [])
    ensures forall i | 0 <= i < |Turning(c, t, attempt)| :: LegalAt(c, Turning(c, t, attempt) + rest, i, attempt)
  {
    var o, b := Opening(c, t, attempt), if c.access == Write then RollBackCalls(c, t) else [];
    assert o + (b + rest) == Turning(c, t, attempt) + rest;
    OpeningLegal(c, t, attempt, b + rest);
    if c.access == Write {
      RollBackLegal(c, t, attempt, rest);
    }
  }

  lemma FinalLegal(c: Config, t: Turn, attempt: nat)
    ensures Legal(c, Final(c, t, attempt).trace, attempt)
  {
    var tr := Final(c, t, attempt).trace;
    if c.access == Write && t.begin.Refused? {
      assert tr == [Begin(c.kind == Sqlite, t.begin)] && tr[..0] == [];
    } else if !t.lost && c.access == Write && t.end == Commit {
      OpeningLegal(c, t, attempt, [CommitCall(t.commit)]);
      OpeningReads(c, t, attempt);
      assert |Opening(c, t, attempt)| == 2 && tr[..2] == Opening(c, t, attempt);
      assert LegalAt(c, tr, 2, attempt);
    } else {
      TurningLegal(c, t, attempt, []);
      assert tr == tr + [];
    }
  }

  /** Against every script, every call the loop makes is legal where it is made. */
  lemma {:induction false} EveryCallLegal(c: Config, script: nat -> Turn, n: nat, attempt: nat, reruns: nat)
    requires 1 <= attempt <= c.againMax && reruns < c.rerunMax
    ensures Legal(c, Exec(c, script, n, attempt, reruns).trace, attempt)
    decreases c.againMax - attempt + c.rerunMax - reruns
  {
    hide Final, Turning, LegalAt, OpenAfter, Agains;
    var t := script(n);
    var tr := Exec(c, script, n, attempt, reruns).trace;
    if GoesOn(c, t, attempt, reruns) {
      TurningReads(c, t, attempt);
      var calls := Turning(c, t, attempt);
      var attempt' := if t.lost then attempt else attempt + 1;
      var rest := Rest(c, script, n, attempt, reruns).trace;
      EveryCallLegal(c, script, n + 1, attempt', if t.lost then reruns + 1 else reruns);
      TurningLegal(c, t, attempt, rest);
      assert tr == calls + rest;
      forall i | 0 <= i < |tr|
        ensures LegalAt(c, tr, i, attempt)
      {
        if i >= |calls| {
          ShiftLegal(c, calls, rest, attempt, attempt', i - |calls|);
        }
      }
    } else {
      FinalLegal(c, t, attempt);
    }
  }

  function Last(tr: seq<Event>): Event
    requires tr != []
  {
    tr[|tr| - 1]
  }

  /** From `i` on there is no further run and no critical stop: `tr[i]` is the run that decided. */
  ghost predicate Decides(tr: seq<Event>, i: nat) {
    && i < |tr| && tr[i].Work?
    && forall j | i < j < |tr| :: !tr[j].Work? && !tr[j].CriticalStop?
  }

  /** What each status says about the trace, `reruns` of the budget having been spent before it. */
  ghost predicate Explains(c: Config, r: Result, reruns: nat) {
    && r.trace != []
    && (r.status.Driver? ==>
          || Last(r.trace) == Begin(c.kind == Sqlite, Refused(r.status.code))
          || Last(r.trace) == CommitCall(Refused(r.status.code))
          || (Last(r.trace).CriticalStop? && |r.trace| > 1 && r.trace[|r.trace| - 2] == RollBack(Refused(r.status.code), true)))
    && (!r.status.Driver? ==> exists i: nat :: ExplainsAt(c, r, reruns, i))
  }

  ghost predicate ExplainsAt(c: Config, r: Result, reruns: nat, i: nat) {
    && Decides(r.trace, i)
    && (r.status.Ok? ==> !r.trace[i].lost && r.trace[i].end != Again)
    && (r.status.Ok? && c.access == Write && r.trace[i].end == Commit ==> Last(r.trace) == CommitCall(Done))
    && (r.status.Spent? && r.trace[i].lost ==> reruns + Losts(r.trace) == c.rerunMax)
    && (r.status.Spent? && !r.trace[i].lost ==> r.trace[i].end == Again && r.attempt == c.againMax)
  }

  lemma FinalExplained(c: Config, t: Turn, attempt: nat, reruns: nat)
    requires attempt <= c.againMax && reruns < c.rerunMax && !GoesOn(c, t, attempt, reruns)
    ensures Explains(c, Final(c, t, attempt), reruns)
  {
    var r := Final(c, t, attempt);
    if c.access == Write && t.begin.Refused? {
    } else {
      var i := if c.access == Write then 1 else 0;
      assert r.trace[i] == Work(attempt, t.end, t.lost);
      if !r.status.Driver? {
        assert Decides(r.trace, i);
        TurningReads(c, t, attempt);
        assert ExplainsAt(c, r, reruns, i);
      }
    }
  }

  lemma DecidesLater(calls: seq<Event>, rest: seq<Event>, i: nat)
    requires Decides(rest, i)
    ensures Decides(calls + rest, |calls| + i) && (calls + rest)[|calls| + i] == rest[i]
  {
  }

  /** SC_OK means the deciding run ended the way it asked; a driver's status is the last call's;
      the executor's own error means the deciding run wanted another and a budget was spent. */
  lemma {:induction false} StatusExplained(c: Config, script: nat -> Turn, n: nat, attempt: nat, reruns: nat)
    requires 1 <= attempt <= c.againMax && reruns < c.rerunMax
    ensures Explains(c, Exec(c, script, n, attempt, reruns), reruns)
    decreases c.againMax - attempt + c.rerunMax - reruns
  {
    hide Final, Turning;
    var t := script(n);
    var r := Exec(c, script, n, attempt, reruns);
    if GoesOn(c, t, attempt, reruns) {
      var rest := Rest(c, script, n, attempt, reruns);
      var reruns' := if t.lost then reruns + 1 else reruns;
      StatusExplained(c, script, n + 1, if t.lost then attempt else attempt + 1, reruns');
      assert Last(r.trace) == Last(rest.trace);
      if !rest.status.Driver? {
        var i: nat :| ExplainsAt(c, rest, reruns', i);
        DecidesLater(Turning(c, t, attempt), rest.trace, i);
        TurningReads(c, t, attempt);
        Concat(c, Turning(c, t, attempt), rest.trace, false);
        assert ExplainsAt(c, r, reruns, |Turning(c, t, attempt)| + i);
      }
    } else {
      FinalExplained(c, t, attempt, reruns);
    }
  }
}
