/** What the driver and the work answered is what the trace and the status report, turn by turn. */
module RunUnitScript {
  import opened RunUnit

  function Begins(tr: seq<Event>): nat {
    if tr == [] then 0 else (if tr[0].Begin? then 1 else 0) + Begins(tr[1..])
  }

  function RollBacks(tr: seq<Event>): nat {
    if tr == [] then 0 else (if tr[0].RollBack? then 1 else 0) + RollBacks(tr[1..])
  }

  lemma {:induction false} CountsConcat(a: seq<Event>, b: seq<Event>)
    ensures Begins(a + b) == Begins(a) + Begins(b) && RollBacks(a + b) == RollBacks(a) + RollBacks(b)
    ensures Works(a + b) == Works(a) + Works(b)
  {
    if a == [] {
      assert a + b == b;
    } else {
      assert (a + b)[1..] == a[1..] + b;
      CountsConcat(a[1..], b);
    }
  }

  lemma CountsOne(e: Event)
    ensures Begins([e]) == (if e.Begin? then 1 else 0) && RollBacks([e]) == (if e.RollBack? then 1 else 0)
    ensures Works([e]) == if e.Work? then 1 else 0
  {
    assert [e][1..] == [];
  }

  /** A call reports what was answered in the turn that its kind counts to. */
  ghost predicate GivenBy(script: nat -> Turn, e: Event, begins: nat, works: nat, rollbacks: nat) {
    match e
    case Begin(_, a) => a == script(begins).begin
    case Work(_, end, lost) => end == script(works).end && lost == script(works).lost
    case RollBack(a, stuck) => a == script(rollbacks).rollback && stuck == script(rollbacks).stuck
    case CommitCall(a) => works > 0 && a == script(works - 1).commit
    case _ => true
  }

  /** The call at `i`: the k-th of its kind reports the k-th turn, and a COMMIT that of the work before it. */
  ghost predicate Given(script: nat -> Turn, n: nat, tr: seq<Event>, i: nat)
    requires i < |tr|
  {
    && GivenBy(script, tr[i], n + Begins(tr[..i]), n + Works(tr[..i]), n + RollBacks(tr[..i]))
    && (tr[i].CommitCall? ==> Works(tr[..i]) > 0)
  }

  /** A turn that goes on has one of each. */
  lemma TurningCounts(c: Config, t: Turn, attempt: nat)
    requires c.access == Write ==> t.begin.Done?
    ensures var one := if c.access == Write then 1 else 0; var tr := Turning(c, t, attempt);
            Begins(tr) == one && RollBacks(tr) == one && Works(tr) == 1
  {
    var o, b := Opening(c, t, attempt), RollBackCalls(c, t);
    OpeningCounts(c, t, attempt);
    RollBackCounts(c, t);
    CountsConcat(o, b);
    assert c.access != Write ==> o + [] == o;
  }

  lemma OpeningCounts(c: Config, t: Turn, attempt: nat)
    ensures var o := Opening(c, t, attempt);
            && RollBacks(o) == 0 && Begins(o) == (if c.access == Write then 1 else 0)
            && Works(o) == if c.access == Write && t.begin.Refused? then 0 else 1
  {
    var b, w := Begin(c.kind == Sqlite, t.begin), Work(attempt, t.end, t.lost);
    CountsOne(b);
    CountsOne(w);
    CountsConcat([b], [w]);
    assert [b] + [] == [b] && [] + [w] == [w];
  }

  lemma RollBackCounts(c: Config, t: Turn)
    ensures var b := RollBackCalls(c, t); Begins(b) == 0 && RollBacks(b) == 1 && Works(b) == 0
  {
    var b := RollBackCalls(c, t);
    CountsOne(b[0]);
    if |b| == 2 {
      CountsOne(b[1]);
      CountsConcat([b[0]], [b[1]]);
      assert b == [b[0]] + [b[1]];
    }
  }

  lemma OpeningGiven(c: Config, script: nat -> Turn, n: nat, attempt: nat, rest: seq<Event>)
    ensures var o := Opening(c, script(n), attempt);
            forall i | 0 <= i < |o| :: Given(script, n, o + rest, i)
  {
    var o := Opening(c, script(n), attempt);
    var tr := o + rest;
    assert tr[..0] == [];
    if |o| == 2 {
      assert tr[..1] == [o[0]];
      CountsOne(o[0]);
    }
  }

  lemma TurningGiven(c: Config, script: nat -> Turn, n: nat, attempt: nat, rest: seq<Event>)
    ensures var calls := Turning(c, script(n), attempt);
            forall i | 0 <= i < |calls| :: Given(script, n, calls + rest, i)
  {
    var o, b := Opening(c, script(n), attempt), if c.access == Write then RollBackCalls(c, script(n)) else [];
    var tr := o + b + rest;
    assert tr == o + (b + rest);
    OpeningGiven(c, script, n, attempt, b + rest);
    OpeningCounts(c, script(n), attempt);
    if c.access == Write {
      assert tr[..|o|] == o && tr[|o|] == b[0];
      if |b| == 2 {
        assert tr[|o| + 1] == b[1];
      }
    }
  }

  lemma FinalGiven(c: Config, script: nat -> Turn, n: nat, attempt: nat)
    ensures var tr := Final(c, script(n), attempt).trace;
            forall i | 0 <= i < |tr| :: Given(script, n, tr, i)
  {
    var t := script(n);
    var tr := Final(c, t, attempt).trace;
    if c.access == Write && t.begin.Refused? {
      OpeningGiven(c, script, n, attempt, []);
      assert tr + [] == tr;
    } else if !t.lost && c.access == Write && t.end == Commit {
      var o := Opening(c, t, attempt);
      OpeningGiven(c, script, n, attempt, [CommitCall(t.commit)]);
      OpeningCounts(c, t, attempt);
      assert tr[..|o|] == o && tr[|o|] == CommitCall(t.commit);
    } else {
      TurningGiven(c, script, n, attempt, []);
      assert tr + [] == tr;
    }
  }

  ghost predicate AllGiven(script: nat -> Turn, n: nat, tr: seq<Event>) {
    forall i | 0 <= i < |tr| :: Given(script, n, tr, i)
  }

  predicate OnlyWork(tr: seq<Event>) {
    forall i | 0 <= i < |tr| :: tr[i].Work?
  }

  lemma {:induction false} ReadersOnlyWork(c: Config, script: nat -> Turn, n: nat, attempt: nat, reruns: nat)
    requires 1 <= attempt <= c.againMax && reruns < c.rerunMax && c.access == Read
    ensures OnlyWork(Exec(c, script, n, attempt, reruns).trace)
    decreases c.againMax - attempt + c.rerunMax - reruns
  {
    var t := script(n);
    if GoesOn(c, t, attempt, reruns) {
      assert OnlyWork(Turning(c, t, attempt));
      if t.lost {
        ReadersOnlyWork(c, script, n + 1, attempt, reruns + 1);
      } else {
        ReadersOnlyWork(c, script, n + 1, attempt + 1, reruns);
      }
    }
  }

  lemma Prefixed(calls: seq<Event>, rest: seq<Event>, i: nat)
    requires |calls| <= i < |calls + rest|
    ensures (calls + rest)[..i] == calls + rest[..i - |calls|] && (calls + rest)[i] == rest[i - |calls|]
  {
  }

  lemma ShiftOne(script: nat -> Turn, n: nat, calls: seq<Event>, front: seq<Event>, e: Event)
    requires GivenBy(script, e, n + 1 + Begins(front), n + 1 + Works(front), n + 1 + RollBacks(front))
    requires Works(calls) == 1 && (e.Work? || (Begins(calls) == 1 && RollBacks(calls) == 1))
    ensures var all := calls + front;
            GivenBy(script, e, n + Begins(all), n + Works(all), n + RollBacks(all)) && Works(all) > 0
  {
    CountsConcat(calls, front);
    hide Works, Begins, RollBacks;
  }

  lemma ShiftGiven(script: nat -> Turn, n: nat, calls: seq<Event>, rest: seq<Event>, j: nat)
    requires j < |rest| && Given(script, n + 1, rest, j)
    requires Works(calls) == 1 && (rest[j].Work? || (Begins(calls) == 1 && RollBacks(calls) == 1))
    ensures Given(script, n, calls + rest, |calls| + j)
  {
    hide Works, Begins, RollBacks, GivenBy;
    Prefixed(calls, rest, |calls| + j);
    ShiftOne(script, n, calls, rest[..j], rest[j]);
  }

  lemma AllGivenShift(script: nat -> Turn, n: nat, calls: seq<Event>, rest: seq<Event>)
    requires AllGiven(script, n + 1, rest) && (forall i | 0 <= i < |calls| :: Given(script, n, calls + rest, i))
    requires Works(calls) == 1 && (OnlyWork(rest) || (Begins(calls) == 1 && RollBacks(calls) == 1))
    ensures AllGiven(script, n, calls + rest)
  {
    hide Works, Begins, RollBacks, GivenBy, Given;
    forall i | |calls| <= i < |calls| + |rest|
      ensures Given(script, n, calls + rest, i)
    {
      assert Given(script, n + 1, rest, i - |calls|);
      ShiftGiven(script, n, calls, rest, i - |calls|);
    }
  }

  /** Against every script, every call in the trace reports the answer of its own turn. */
  lemma {:induction false} EveryAnswerGiven(c: Config, script: nat -> Turn, n: nat, attempt: nat, reruns: nat)
    requires 1 <= attempt <= c.againMax && reruns < c.rerunMax
    ensures AllGiven(script, n, Exec(c, script, n, attempt, reruns).trace)
    decreases c.againMax - attempt + c.rerunMax - reruns
  {
    hide Turning, Final, Works, Begins, RollBacks, OnlyWork;
    var t := script(n);
    if GoesOn(c, t, attempt, reruns) {
      var a, r := if t.lost then attempt else attempt + 1, if t.lost then reruns + 1 else reruns;
      EveryAnswerGiven(c, script, n + 1, a, r);
      var calls, rest := Turning(c, t, attempt), Exec(c, script, n + 1, a, r).trace;
      TurningGiven(c, script, n, attempt, rest);
      TurningCounts(c, t, attempt);
      if c.access == Read {
        ReadersOnlyWork(c, script, n + 1, a, r);
      }
      AllGivenShift(script, n, calls, rest);
    } else {
      FinalGiven(c, script, n, attempt);
    }
  }

  /** How a unit whose last turn was `t` ends. */
  ghost predicate EndsLike(c: Config, status: Status, t: Turn) {
    if c.access == Write && t.begin.Refused? then status == Driver(t.begin.code)
    else if c.access == Write && t.end == Commit && !t.lost then
      (t.commit.Done? ==> status == Ok) && (t.commit.Refused? ==> status == Driver(t.commit.code))
    else if c.access == Write && c.kind == Sqlite && t.rollback.Refused? && t.stuck then status == Driver(t.rollback.code)
    else if t.lost || t.end == Again then status == Spent
    else status == Ok
  }

  /**
   * The last turn decides: a COMMIT that was asked for ends in success exactly if the driver did it, and
   * otherwise with the code it gave; so do a refused BEGIN and a ROLLBACK that left SQLite stuck. Every turn
   * before wanted another.
   */
  lemma {:induction false} LastTurnDecides(c: Config, script: nat -> Turn, n: nat, attempt: nat, reruns: nat) returns (m: nat)
    requires 1 <= attempt <= c.againMax && reruns < c.rerunMax
    ensures var r := Exec(c, script, n, attempt, reruns);
            && n <= m && EndsLike(c, r.status, script(m))
            && (forall k | n <= k < m :: script(k).lost || script(k).end == Again)
            && m == n + (if c.access == Write then Begins(r.trace) else Works(r.trace)) - 1
    decreases c.againMax - attempt + c.rerunMax - reruns
  {
    hide Turning, Works, Begins;
    var t := script(n);
    if GoesOn(c, t, attempt, reruns) {
      hide Final;
      TurningCounts(c, t, attempt);
      CountsConcat(Turning(c, t, attempt), Rest(c, script, n, attempt, reruns).trace);
      if t.lost {
        m := LastTurnDecides(c, script, n + 1, attempt, reruns + 1);
      } else {
        m := LastTurnDecides(c, script, n + 1, attempt + 1, reruns);
      }
    } else {
      m := n;
      FinalCounts(c, t, attempt);
      FinalEndsLike(c, t, attempt, reruns);
    }
  }

  lemma FinalEndsLike(c: Config, t: Turn, attempt: nat, reruns: nat)
    requires !GoesOn(c, t, attempt, reruns)
    ensures EndsLike(c, Final(c, t, attempt).status, t)
  {
  }

  lemma FinalCounts(c: Config, t: Turn, attempt: nat)
    ensures var tr := Final(c, t, attempt).trace;
            if c.access == Write then Begins(tr) == 1 else Works(tr) == 1
  {
    OpeningCounts(c, t, attempt);
    if !(c.access == Write && t.begin.Refused?) {
      CountsOne(CommitCall(t.commit));
      CountsConcat(Opening(c, t, attempt), [CommitCall(t.commit)]);
      TurningCounts(c, t, attempt);
    }
  }
}
