/**
 * Prepared statements on a PostgreSQL connection. The connection marks the names it prepared; the
 * session behind it may lose names at any time, and says so only when one is used. The server is an
 * arbitrary script of replies, bound only to what its protocol means: preparing a name it holds is a
 * duplicate, and only a name it holds can be run.
 */
module Prepared {

  /** `held` is what the session has, which the connection cannot see. */
  datatype Db = Db(marked: set<nat>, held: set<nat>, rerun: bool)

  /** What happens at one call to the server: names are lost first, then it is willing or not. */
  datatype Reply = Reply(lost: set<nat>, willing: bool, idle: bool)

  datatype Turn = Turn(prepare: Reply, exec: Reply)

  type Script = nat -> Turn

  datatype Prepare = Already | Made | Duplicate | NotMade

  datatype Exec = Ran | UnknownName | NotRun

  function Lose(db: Db, lost: set<nat>): Db {
    db.(held := db.held - lost)
  }

  /** `prepare`: asks the server only for a name that is not marked. */
  function PrepareName(db: Db, slot: nat, r: Reply): (Db, Prepare) {
    if slot in db.marked then (db, Already)
    else
      var d := Lose(db, r.lost);
      if slot in d.held then (d, Duplicate)
      else if r.willing then (d.(held := d.held + {slot}, marked := d.marked + {slot}), Made)
      else (d, NotMade)
  }

  /** A refusal for another reason can come whether or not the name is held. */
  function ExecName(db: Db, slot: nat, r: Reply): (Db, Exec) {
    var d := Lose(db, r.lost);
    if !r.willing then (d, NotRun) else if slot in d.held then (d, Ran) else (d, UnknownName)
  }

  /** How running a statement ended, and what was asked of the server on the way. */
  datatype Outcome = Outcome(db: Db, result: Result, prepares: seq<Prepare>, execs: seq<Exec>)

  datatype Result = Done | Refused | Flagged

  function RunFrom(db: Db, slot: nat, script: Script, attempt: nat): Outcome
    requires attempt < 2
    decreases 2 - attempt
  {
    var turn := script(attempt);
    var (d1, p) := PrepareName(db, slot, turn.prepare);
    if p.Duplicate? || p.NotMade? then Outcome(d1, Refused, [p], [])
    else
      var (d2, e) := ExecName(d1, slot, turn.exec);
      match e
      case Ran => Outcome(d2, Done, [p], [e])
      case NotRun => Outcome(d2, Refused, [p], [e])
      case UnknownName =>
        var d3 := d2.(marked := d2.marked - {slot});
        if attempt == 0 && turn.exec.idle then
          var o := RunFrom(d3, slot, script, 1);
          o.(prepares := [p] + o.prepares, execs := [e] + o.execs)
        else Outcome(d3.(rerun := true), Flagged, [p], [e])
  }

  /** What every step keeps: the session holds no name that is not marked. */
  predicate Tracked(db: Db) {
    db.held <= db.marked
  }

  lemma {:induction false} RunTracked(db: Db, slot: nat, script: Script, attempt: nat)
    requires attempt < 2 && Tracked(db)
    ensures var o := RunFrom(db, slot, script, attempt);
            Tracked(o.db) && Duplicate !in o.prepares
    decreases 2 - attempt
  {
    var turn := script(attempt);
    var (d1, p) := PrepareName(db, slot, turn.prepare);
    assert Tracked(d1);
    if p.Already? || p.Made? {
      var (d2, e) := ExecName(d1, slot, turn.exec);
      if e.UnknownName? && attempt == 0 && turn.exec.idle {
        RunTracked(d2.(marked := d2.marked - {slot}), slot, script, 1);
      }
    }
  }

  /**
   * A statement is run once, refused, or left to a rerun of its unit, within two attempts; a rerun is
   * asked for exactly when the name was unknown and could not be prepared again here, and then the
   * name is not marked, so that the next run prepares it.
   */
  lemma RunEnds(db: Db, slot: nat, script: Script)
    requires Tracked(db)
    ensures var o := RunFrom(db, slot, script, 0);
            && |o.execs| <= |o.prepares| <= 2
            && (o.result.Done? <==> o.execs != [] && o.execs[|o.execs| - 1].Ran?)
            && (forall i | 0 <= i < |o.execs| - 1 :: o.execs[i].UnknownName?)
            && (o.result.Flagged? <==> o.execs != [] && o.execs[|o.execs| - 1].UnknownName? && |o.execs| == |o.prepares|)
            && (o.result.Flagged? ==> o.db.rerun && slot !in o.db.marked)
            && (!o.result.Flagged? ==> o.db.rerun == db.rerun)
            && (forall x | x != slot :: x in o.db.marked <==> x in db.marked)
  {
    var (d1, p) := PrepareName(db, slot, script(0).prepare);
    if p.Already? || p.Made? {
      var (d2, e) := ExecName(d1, slot, script(0).exec);
      if e.UnknownName? && script(0).exec.idle {
        SecondEnds(d2.(marked := d2.marked - {slot}), slot, script);
      }
    }
  }

  lemma SecondEnds(db: Db, slot: nat, script: Script)
    ensures var o := RunFrom(db, slot, script, 1);
            && |o.prepares| == 1 && |o.execs| <= 1
            && (o.result.Done? <==> o.execs == [Ran])
            && (o.result.Flagged? <==> o.execs == [UnknownName])
            && (o.result.Flagged? ==> o.db.rerun && slot !in o.db.marked)
            && (!o.result.Flagged? ==> o.db.rerun == db.rerun)
            && (forall x | x != slot :: x in o.db.marked <==> x in db.marked)
  {
  }

  /** Inside a transaction there is one attempt: an unknown name is left to a rerun of the unit, and nothing is tried again. */
  lemma OneAttemptInside(db: Db, slot: nat, script: Script)
    requires !script(0).exec.idle
    ensures var o := RunFrom(db, slot, script, 0);
            |o.prepares| == 1 && |o.execs| <= 1 && (o.result.Flagged? <==> o.execs == [UnknownName])
  {
  }

  /** Outside one an unknown name is tried a second time, and what that comes to is the answer. */
  lemma SecondAttemptOutside(db: Db, slot: nat, script: Script)
    requires script(0).exec.idle
    ensures var o := RunFrom(db, slot, script, 0);
            o.execs != [] && o.execs[0].UnknownName? ==> |o.prepares| == 2 && (o.result.Flagged? <==> |o.execs| == 2 && o.execs[1].UnknownName?)
  {
    var (d1, p) := PrepareName(db, slot, script(0).prepare);
    if p.Already? || p.Made? {
      var (d2, e) := ExecName(d1, slot, script(0).exec);
      if e.UnknownName? {
        SecondEnds(d2.(marked := d2.marked - {slot}), slot, script);
      }
    }
  }

  /** Outside a transaction a lost name is recovered here unless the session loses it again meanwhile. */
  lemma LostNameRecovered(db: Db, slot: nat, script: Script)
    requires Tracked(db) && script(0).exec.idle
    requires script(0).exec.willing && script(1).prepare.willing && script(1).exec.willing
    requires script(0).prepare.willing && slot !in script(1).exec.lost
    ensures RunFrom(db, slot, script, 0).result.Done?
  {
    var (d1, p) := PrepareName(db, slot, script(0).prepare);
    assert Tracked(d1);
  }

  // ----- every run of a connection -----

  datatype Event =
    | Run(slot: nat, script: Script)
    | LoseNames(lost: set<nat>)
    | Redial(connected: bool)
    | ClearRerun

  /** Connecting again gives a session that holds nothing, and clears the marks; failing to leaves no session at all. */
  function After(db: Db, e: Event): Db {
    match e
    case Run(slot, script) => RunFrom(db, slot, script, 0).db
    case LoseNames(lost) => Lose(db, lost)
    case Redial(connected) => db.(held := {}, marked := if connected then {} else db.marked)
    case ClearRerun => db.(rerun := false)
  }

  function AfterAll(db: Db, es: seq<Event>): Db
    decreases |es|
  {
    if es == [] then db else After(AfterAll(db, es[..|es| - 1]), es[|es| - 1])
  }

  const Opened: Db := Db({}, {}, false)

  lemma {:induction false} AlwaysTracked(es: seq<Event>)
    ensures Tracked(AfterAll(Opened, es))
    decreases |es|
  {
    if es != [] {
      AlwaysTracked(es[..|es| - 1]);
      var db, e := AfterAll(Opened, es[..|es| - 1]), es[|es| - 1];
      if e.Run? {
        RunTracked(db, e.slot, e.script, 0);
      }
    }
  }

  /** However the session loses names: no statement is ever prepared under a name it still has. */
  lemma NeverDuplicate(es: seq<Event>, slot: nat, script: Script)
    ensures Duplicate !in RunFrom(AfterAll(Opened, es), slot, script, 0).prepares
  {
    AlwaysTracked(es);
    RunTracked(AfterAll(Opened, es), slot, script, 0);
  }

  // ----- the connection -----

  /** `held` is the session's side, which only the server's replies read. */
  class Connection {
    const prepared: array<bool>
    var rerunUnit: bool
    var held: set<nat>

    constructor (slots: nat)
      ensures fresh(prepared) && prepared.Length == slots && Value() == Opened
    {
      prepared := new bool[slots](_ => false);
      rerunUnit := false;
      held := {};
    }

    ghost function Marked(): set<nat>
      reads prepared
    {
      set k: nat | 0 <= k < prepared.Length && prepared[k]
    }

    ghost function Value(): Db
      reads this, prepared
    {
      Db(Marked(), held, rerunUnit)
    }

    method Prepare(slot: nat, r: Reply) returns (p: Prepare)
      requires slot < prepared.Length
      modifies this`held, prepared
      ensures (Value(), p) == PrepareName(old(Value()), slot, r)
    {
      if prepared[slot] {
        return Already;
      }
      held := held - r.lost;
      if slot in held {
        return Duplicate;
      }
      if !r.willing {
        return NotMade;
      }
      held := held + {slot};
      prepared[slot] := true;
      assert Marked() == old(Marked()) + {slot};
      return Made;
    }

    method Execute(slot: nat, r: Reply) returns (e: Exec)
      modifies this`held
      ensures (Value(), e) == ExecName(old(Value()), slot, r)
    {
      held := held - r.lost;
      return if !r.willing then NotRun else if slot in held then Ran else UnknownName;
    }

    method Unmark(slot: nat)
      requires slot < prepared.Length
      modifies prepared
      ensures Value() == old(Value()).(marked := old(Marked()) - {slot})
    {
      prepared[slot] := false;
      assert Marked() == old(Marked()) - {slot};
    }

    /** Runs a statement, recovering once from a name the session lost. */
    method RunStatement(slot: nat, script: Script) returns (result: Result)
      requires slot < prepared.Length
      modifies this`held, this`rerunUnit, prepared
      ensures var o := RunFrom(old(Value()), slot, script, 0); Value() == o.db && result == o.result
    {
      ghost var all := RunFrom(Value(), slot, script, 0);
      var attempt := 0;
      while true
        invariant attempt < 2
        invariant var o := RunFrom(Value(), slot, script, attempt); all.db == o.db && all.result == o.result
        decreases 2 - attempt
      {
        hide Marked, PrepareName, ExecName;
        var turn := script(attempt);
        var p := Prepare(slot, turn.prepare);
        if p.Duplicate? || p.NotMade? {
          return Refused;
        }
        var e := Execute(slot, turn.exec);
        if !e.UnknownName? {
          return if e.Ran? then Done else Refused;
        }
        Unmark(slot);
        if !(attempt == 0 && turn.exec.idle) {
          rerunUnit := true;
          return Flagged;
        }
        attempt := attempt + 1;
      }
    }

    /** A new session on the same connection: every name is forgotten with the old one. */
    method Reset(connected: bool)
      modifies this`held, prepared
      ensures Value() == After(old(Value()), Redial(connected))
    {
      held := {};
      if connected {
        for k := 0 to prepared.Length
          invariant held == {} && forall j | 0 <= j < k :: !prepared[j]
        {
          prepared[k] := false;
        }
        assert Marked() == {};
      }
    }
  }
}
