/**
 * A statement's slot, given to it on first use by whichever thread is first: a load, an increment of
 * the shared counter and a compare-and-swap, each one step, with any other thread's steps between.
 */
module StatementSlots {

  const SlotsMax: int := 512

  type Statement = nat

  /** Where a thread is in a call for a statement. */
  datatype Pc =
    | Idle
    | Loading(of: Statement)
    | Drawing(of: Statement)
    | Storing(of: Statement, drawn: int)
    | Reloading(of: Statement)

  datatype Answer = Answer(of: Statement, slot: int)

  datatype State = State(
    last: int,               // the last slot handed out
    slots: seq<int>,         // by statement; 0 for not yet
    threads: seq<Pc>,
    answers: seq<Answer>)    // history: what the calls returned

  datatype Step = Begin(t: nat, of: Statement) | Go(t: nat)

  predicate Enabled(s: State, step: Step) {
    && step.t < |s.threads|
    && (step.Begin? ==> s.threads[step.t].Idle? && step.of < |s.slots|)
    && (step.Go? ==> !s.threads[step.t].Idle? && s.threads[step.t].of < |s.slots|)
  }

  function At(s: State, t: nat, p: Pc): State
    requires t < |s.threads|
  {
    s.(threads := s.threads[t := p])
  }

  function Return(s: State, t: nat, of: Statement, slot: int): State
    requires t < |s.threads|
  {
    At(s, t, Idle).(answers := s.answers + [Answer(of, slot)])
  }

  function Apply(s: State, step: Step): State
    requires Enabled(s, step)
  {
    var t := step.t;
    if step.Begin? then At(s, t, Loading(step.of))
    else
      match s.threads[t]
      case Loading(x) => if s.slots[x] != 0 then Return(s, t, x, s.slots[x]) else At(s, t, Drawing(x))
      case Drawing(x) =>
        var s1 := s.(last := s.last + 1);
        if s1.last >= SlotsMax then Return(s1, t, x, -1) else At(s1, t, Storing(x, s1.last))
      case Storing(x, drawn) =>
        if s.slots[x] == 0 then Return(s.(slots := s.slots[x := drawn]), t, x, drawn) else At(s, t, Reloading(x))
      case Reloading(x) => Return(s, t, x, s.slots[x])
  }

  ghost predicate Init(s: State) {
    && s.last == 0 && s.answers == []
    && (forall x | 0 <= x < |s.slots| :: s.slots[x] == 0)
    && (forall t | 0 <= t < |s.threads| :: s.threads[t].Idle?)
  }

  ghost predicate Next(s: State, s1: State) {
    exists step :: Enabled(s, step) && s1 == Apply(s, step)
  }

  ghost predicate IsRun(ss: seq<State>) {
    && ss != [] && Init(ss[0])
    && forall k, l | 0 <= k && k + 1 == l < |ss| :: Next(ss[k], ss[l])
  }

  /** A slot that was drawn and not thrown away. */
  predicate Drawn(s: State, n: int) {
    1 <= n <= s.last && n < SlotsMax
  }

  ghost predicate Fresh(s: State, t: nat)
    requires t < |s.threads| && s.threads[t].Storing?
  {
    var n := s.threads[t].drawn;
    && Drawn(s, n)
    && (forall x | 0 <= x < |s.slots| :: s.slots[x] != n)
    && (forall u | 0 <= u < |s.threads| && u != t && s.threads[u].Storing? :: s.threads[u].drawn != n)
  }

  ghost predicate SlotsOk(s: State) {
    && (forall x | 0 <= x < |s.slots| :: s.slots[x] == 0 || Drawn(s, s.slots[x]))
    && (forall x, y | 0 <= x < y < |s.slots| && s.slots[x] != 0 :: s.slots[x] != s.slots[y])
  }

  ghost predicate ThreadsOk(s: State) {
    && (forall t | 0 <= t < |s.threads| && s.threads[t].Storing? :: Fresh(s, t))
    && (forall t | 0 <= t < |s.threads| && s.threads[t].Reloading? ::
          s.threads[t].of < |s.slots| && s.slots[s.threads[t].of] != 0)
  }

  ghost predicate AnswersOk(s: State) {
    forall k | 0 <= k < |s.answers| ::
      s.answers[k].slot == -1 || (s.answers[k].of < |s.slots| && s.answers[k].slot == s.slots[s.answers[k].of] != 0)
  }

  /** A call fails only once the numbers have run out. */
  ghost predicate FailuresOk(s: State) {
    forall k | 0 <= k < |s.answers| && s.answers[k].slot == -1 :: s.last >= SlotsMax
  }

  ghost predicate Inv(s: State) {
    s.last >= 0 && SlotsOk(s) && ThreadsOk(s) && AnswersOk(s) && FailuresOk(s)
  }

  lemma StoreKeeps(s: State, t: nat)
    requires Inv(s) && Enabled(s, Go(t)) && s.threads[t].Storing? && s.slots[s.threads[t].of] == 0
    ensures Inv(Apply(s, Go(t)))
  {
    assert Fresh(s, t);
    var s1 := Apply(s, Go(t));
    var n := s.threads[t].drawn;
    assert ThreadsOk(s1) by {
      forall u | 0 <= u < |s1.threads| && s1.threads[u].Storing?
        ensures Fresh(s1, u)
      {
        assert Fresh(s, u);
      }
    }
  }

  lemma DrawKeeps(s: State, t: nat)
    requires Inv(s) && Enabled(s, Go(t)) && s.threads[t].Drawing?
    ensures Inv(Apply(s, Go(t)))
  {
    var s1 := Apply(s, Go(t));
    assert ThreadsOk(s1) by {
      forall u | 0 <= u < |s1.threads| && s1.threads[u].Storing?
        ensures Fresh(s1, u)
      {
        forall v | 0 <= v < |s.threads| && s.threads[v].Storing?
          ensures s.threads[v].drawn <= s.last
        {
          assert Fresh(s, v);
        }
        if u != t {
          assert Fresh(s, u);
        }
      }
    }
  }

  lemma OtherKeeps(s: State, step: Step)
    requires Inv(s) && Enabled(s, step)
    requires step.Go? ==> s.threads[step.t].Loading? || s.threads[step.t].Reloading? ||
                          (s.threads[step.t].Storing? && s.slots[s.threads[step.t].of] != 0)
    ensures Inv(Apply(s, step))
  {
    var s1 := Apply(s, step);
    assert ThreadsOk(s1) by {
      forall u | 0 <= u < |s1.threads| && s1.threads[u].Storing?
        ensures Fresh(s1, u)
      {
        assert Fresh(s, u);
      }
    }
  }

  lemma InvStep(s: State, step: Step)
    requires Inv(s) && Enabled(s, step)
    ensures Inv(Apply(s, step))
  {
    hide Inv;
    if step.Go? && s.threads[step.t].Drawing? {
      DrawKeeps(s, step.t);
    } else if step.Go? && s.threads[step.t].Storing? && s.slots[s.threads[step.t].of] == 0 {
      StoreKeeps(s, step.t);
    } else {
      OtherKeeps(s, step);
    }
  }

  lemma {:induction false} RunInv(ss: seq<State>, k: nat)
    requires IsRun(ss) && k < |ss|
    ensures Inv(ss[k])
  {
    if k > 0 {
      hide Inv, Apply;
      var j := k - 1;
      RunInv(ss, j);
      assert Next(ss[j], ss[k]);
      var step :| Enabled(ss[j], step) && ss[k] == Apply(ss[j], step);
      InvStep(ss[j], step);
    }
  }

  /**
   * In every run, whatever the threads' interleaving: the calls for one statement that did not fail
   * all returned the same slot, no two statements were given one slot, and every slot is in the table.
   */
  lemma OneSlotEach(ss: seq<State>, k: nat, i: nat, j: nat)
    requires IsRun(ss) && k < |ss| && i < |ss[k].answers| && j < |ss[k].answers|
    requires ss[k].answers[i].slot != -1 && ss[k].answers[j].slot != -1
    ensures ss[k].answers[i].slot == ss[k].answers[j].slot <==> ss[k].answers[i].of == ss[k].answers[j].of
    ensures 1 <= ss[k].answers[i].slot < SlotsMax
  {
    RunInv(ss, k);
    var s := ss[k];
    var x, y := s.answers[i].of, s.answers[j].of;
    assert s.slots[x] != 0 && s.slots[y] != 0;
    assert Drawn(s, s.slots[x]);
  }

  /** While fewer numbers were drawn than there are slots, no call has failed. */
  lemma FailsOnlyWhenFull(ss: seq<State>, k: nat, i: nat)
    requires IsRun(ss) && k < |ss| && i < |ss[k].answers| && ss[k].last < SlotsMax
    ensures ss[k].answers[i].slot != -1
  {
    RunInv(ss, k);
    assert FailuresOk(ss[k]);
  }

  /** And a number is drawn only by a call that found its statement without a slot, one at a time. */
  lemma DrawsOne(s: State, step: Step)
    requires Enabled(s, step)
    ensures Apply(s, step).last == s.last + if step.Go? && s.threads[step.t].Drawing? then 1 else 0
    ensures step.Go? && s.threads[step.t].Loading? ==>
              (Apply(s, step).threads[step.t].Drawing? <==> s.slots[s.threads[step.t].of] == 0)
  {
  }

  /** How many steps a call has before it at most. */
  function StepsLeft(p: Pc): nat {
    match p
    case Idle => 0
    case Loading(_) => 4
    case Drawing(_) => 3
    case Storing(_, _) => 2
    case Reloading(_) => 1
  }

  /**
   * No call goes round: it answers within four steps of its own, whatever the others do meanwhile, for the
   * statement it was asked for and once, at the step with which it ends.
   */
  lemma EveryCallAnswers(s: State, t: nat)
    requires Enabled(s, Go(t))
    ensures var s1 := Apply(s, Go(t));
            && t < |s1.threads| == |s.threads| && (forall u | 0 <= u < |s.threads| && u != t :: s1.threads[u] == s.threads[u])
            && StepsLeft(s1.threads[t]) < StepsLeft(s.threads[t]) <= 4
            && (!s1.threads[t].Idle? ==> s1.answers == s.answers && s1.threads[t].of == s.threads[t].of)
            && (s1.threads[t].Idle? ==>
                  |s1.answers| == |s.answers| + 1 && s1.answers[..|s.answers|] == s.answers
                  && s1.answers[|s.answers|].of == s.threads[t].of)
  {
    var s1 := Apply(s, Go(t));
    assert s1.threads[t].Idle? ==> s1.answers == s.answers + [s1.answers[|s.answers|]];
  }
}
