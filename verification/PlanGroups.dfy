/** The executor's groups: one per cache group that has a worker, the others joined to one of those. */
module PlanGroups {
  import opened Placement

  /** How many workers each cache group has. */
  function PerCache(cpus: seq<nat>, workers: nat, n: nat): (per: seq<nat>)
    requires n <= workers
    ensures |per| == |cpus|
  {
    seq(|cpus|, g requires 0 <= g < |cpus| => Placed(cpus, workers, g, n))
  }

  /** How many of the cache groups before `g` have a worker. */
  function Rank(per: seq<nat>, g: nat): (r: nat)
    requires g <= |per|
    ensures r <= g
  {
    if g == 0 then 0 else Rank(per, g - 1) + if per[g - 1] != 0 then 1 else 0
  }

  /** The nearest cache group at or below `g` that has a worker, or -1. */
  function Down(per: seq<nat>, g: int): (d: int)
    requires -1 <= g < |per|
    ensures -1 <= d <= g && (d >= 0 ==> per[d] != 0) && forall h | d < h <= g :: per[h] == 0
    decreases g + 1
  {
    if g == -1 || per[g] != 0 then g else Down(per, g - 1)
  }

  /** The first one at or above `g` that has a worker, or their number. */
  function Up(per: seq<nat>, g: nat): (u: nat)
    requires g <= |per|
    ensures g <= u <= |per| && (u < |per| ==> per[u] != 0) && forall h | g <= h < u :: per[h] == 0
    decreases |per| - g
  {
    if g == |per| || per[g] != 0 then g else Up(per, g + 1)
  }

  predicate SomeWorker(per: seq<nat>) {
    exists g | 0 <= g < |per| :: per[g] != 0
  }

  /** The cache group whose workers serve `g`: the nearest at or below it, else the first above. */
  function Serving(per: seq<nat>, g: nat): (r: nat)
    requires g < |per| && SomeWorker(per)
    ensures r < |per| && per[r] != 0
  {
    var d := Down(per, g);
    if d >= 0 then d else Up(per, g)
  }

  // ----- facts about the plan -----

  lemma {:induction false} RankMono(per: seq<nat>, i: nat, j: nat)
    requires i <= j <= |per|
    ensures Rank(per, i) <= Rank(per, j)
    decreases j
  {
    if i < j {
      RankMono(per, i, j - 1);
    }
  }

  /** Groups with workers have different numbers, all below their count, in order. */
  lemma RankStrict(per: seq<nat>, i: nat, j: nat)
    requires i < j <= |per| && per[i] != 0
    ensures Rank(per, i) < Rank(per, j)
  {
    assert Rank(per, i + 1) == Rank(per, i) + 1;
    RankMono(per, i + 1, j);
  }

  /** A group without workers is served as its neighbour below is, if there is one. */
  lemma ServingBelow(per: seq<nat>, g: nat)
    requires 0 < g < |per| && SomeWorker(per) && per[g] == 0
    ensures Serving(per, g) == Serving(per, g - 1)
  {
    if Down(per, g - 1) < 0 {
      UpPast(per, g - 1);
    }
  }

  lemma UpPast(per: seq<nat>, g: nat)
    requires g < |per| && per[g] == 0
    ensures Up(per, g) == Up(per, g + 1)
  {
  }

  /** The counts sum to the items placed. */
  lemma {:induction false} PerCacheSums(cpus: seq<nat>, workers: nat, n: nat)
    requires |cpus| > 0 && n <= workers
    ensures Sum(PerCache(cpus, workers, n), |cpus|) == n
  {
    if n == 0 {
      SumZero(PerCache(cpus, workers, 0), |cpus|);
    } else {
      PerCacheSums(cpus, workers, n - 1);
      var g := GroupOf(cpus, n - 1, workers);
      OneMore(PerCache(cpus, workers, n - 1), PerCache(cpus, workers, n), g, |cpus|);
    }
  }

  lemma {:induction false} SumZero(s: seq<nat>, n: nat)
    requires n <= |s| && forall i | 0 <= i < n :: s[i] == 0
    ensures Sum(s, n) == 0
  {
    if n > 0 {
      SumZero(s, n - 1);
    }
  }

  lemma {:induction false} OneMore(s: seq<nat>, t: seq<nat>, g: nat, n: nat)
    requires n <= |s| == |t| && g < |s| && forall i | 0 <= i < |s| :: t[i] == s[i] + if i == g then 1 else 0
    ensures Sum(t, n) == Sum(s, n) + if g < n then 1 else 0
  {
    if n > 0 {
      OneMore(s, t, g, n - 1);
    }
  }

  lemma PlanHasWorker(cpus: seq<nat>, workers: nat)
    requires |cpus| > 0 && workers > 0
    ensures SomeWorker(PerCache(cpus, workers, workers))
  {
    var per := PerCache(cpus, workers, workers);
    PerCacheSums(cpus, workers, workers);
    if !SomeWorker(per) {
      SumZero(per, |per|);
    }
  }

  /** The worker counts of the cache groups before `n` that have a worker. */
  function NonZero(per: seq<nat>, n: nat): (ws: seq<nat>)
    requires n <= |per|
    ensures |ws| == Rank(per, n) && forall k | 0 <= k < |ws| :: ws[k] >= 1
  {
    if n == 0 then [] else if per[n - 1] != 0 then NonZero(per, n - 1) + [per[n - 1]] else NonZero(per, n - 1)
  }

  /** They sum to the same. */
  lemma {:induction false} NonZeroSum(per: seq<nat>, n: nat)
    requires n <= |per|
    ensures Sum(NonZero(per, n), Rank(per, n)) == Sum(per, n)
  {
    if n > 0 {
      NonZeroSum(per, n - 1);
      if per[n - 1] != 0 {
        SumPrefix(NonZero(per, n), NonZero(per, n - 1), Rank(per, n - 1));
      }
    }
  }

  /** A group's number is the place of its count. */
  lemma {:induction false} NonZeroAt(per: seq<nat>, g: nat, n: nat)
    requires g < n <= |per| && per[g] != 0
    ensures Rank(per, g) < Rank(per, n) && NonZero(per, n)[Rank(per, g)] == per[g]
    decreases n
  {
    RankStrict(per, g, n);
    if g < n - 1 {
      NonZeroAt(per, g, n - 1);
    }
  }

  lemma {:induction false} SumPrefix(s: seq<nat>, t: seq<nat>, n: nat)
    requires n <= |t| <= |s| && forall i | 0 <= i < n :: s[i] == t[i]
    ensures Sum(s, n) == Sum(t, n)
  {
    if n > 0 {
      SumPrefix(s, t, n - 1);
    }
  }

  /** The CPUs of the first `n` cache groups that group `k` serves. */
  ghost function Joined(per: seq<nat>, sets: seq<set<nat>>, k: nat, n: nat): set<nat>
    requires n <= |per| == |sets| && SomeWorker(per)
  {
    if n == 0 then {}
    else Joined(per, sets, k, n - 1) + if Rank(per, Serving(per, n - 1)) == k then sets[n - 1] else {}
  }

  lemma {:induction false} JoinedHas(per: seq<nat>, sets: seq<set<nat>>, k: nat, n: nat, c: nat)
    requires n <= |per| == |sets| && SomeWorker(per)
    ensures c in Joined(per, sets, k, n) <==> exists g | 0 <= g < n :: Rank(per, Serving(per, g)) == k && c in sets[g]
  {
    hide Rank, Serving;
    if n > 0 {
      JoinedHas(per, sets, k, n - 1, c);
    }
  }

  // ----- the plan, computed in place -----

  /** Marks a cache group without an executor group of its own. */
  const NoGroup: nat := 0xFFFF

  method CountWorkers(cpus: seq<nat>, workers: nat) returns (per: array<nat>)
    requires |cpus| > 0
    ensures fresh(per) && per[..] == PerCache(cpus, workers, workers)
  {
    per := new nat[|cpus|](_ => 0);
    for w := 0 to workers
      invariant forall g | 0 <= g < |cpus| :: per[g] == Placed(cpus, workers, g, w)
    {
      var g := PlaceItem(cpus, w, workers);
      per[g] := per[g] + 1;
    }
  }

  /** What stands for a cache group before it is joined to another. */
  ghost function OwnGroup(per: seq<nat>, g: nat): nat
    requires g < |per|
  {
    if per[g] != 0 then Rank(per, g) else NoGroup
  }

  method NumberGroups(per: seq<nat>) returns (execOf: array<nat>, next: nat)
    ensures fresh(execOf) && execOf.Length == |per| && next == Rank(per, |per|)
    ensures forall g | 0 <= g < |per| :: execOf[g] == OwnGroup(per, g)
  {
    execOf := new nat[|per|](_ => 0);
    next := 0;
    for g := 0 to |per|
      invariant next == Rank(per, g)
      invariant forall h | 0 <= h < g :: execOf[h] == OwnGroup(per, h)
    {
      if per[g] != 0 {
        execOf[g] := next;
        next := next + 1;
      } else {
        execOf[g] := NoGroup;
      }
    }
  }

  method ScanDown(execOf: array<nat>, g: nat) returns (down: int)
    requires g < execOf.Length
    ensures -1 <= down < g && (down >= 0 ==> execOf[down] != NoGroup)
    ensures forall h | down < h < g :: execOf[h] == NoGroup
  {
    down := g - 1;
    while down >= 0 && execOf[down] == NoGroup
      invariant -1 <= down < g && forall h | down < h < g :: execOf[h] == NoGroup
    {
      down := down - 1;
    }
  }

  method ScanUp(execOf: array<nat>, g: nat) returns (up: nat)
    requires g < execOf.Length
    ensures g < up <= execOf.Length && (up < execOf.Length ==> execOf[up] != NoGroup)
    ensures forall h | g < h < up :: execOf[h] == NoGroup
  {
    up := g + 1;
    while up < execOf.Length && execOf[up] == NoGroup
      invariant g < up <= execOf.Length && forall h | g < h < up :: execOf[h] == NoGroup
    {
      up := up + 1;
    }
  }

  /** The groups up to `g` are joined, the others still stand for themselves. */
  ghost predicate JoinedUpTo(per: seq<nat>, execOf: seq<nat>, g: nat)
    requires |per| == |execOf| && SomeWorker(per)
  {
    && (forall h | 0 <= h < g && h < |per| :: execOf[h] == Rank(per, Serving(per, h)))
    && (forall h | g <= h < |per| :: execOf[h] == OwnGroup(per, h))
  }

  lemma RankIsNumber(per: seq<nat>, g: nat)
    requires g <= |per| < NoGroup
    ensures Rank(per, g) < NoGroup
  {
  }

  /** Below the group everything has a number already, so the scan stops at once and is right to. */
  lemma TargetBelow(per: seq<nat>, execOf: seq<nat>, g: nat)
    requires 0 < g < |per| == |execOf| < NoGroup && SomeWorker(per) && JoinedUpTo(per, execOf, g) && per[g] == 0
    ensures execOf[g - 1] != NoGroup && execOf[g - 1] == Rank(per, Serving(per, g))
  {
    hide Serving, Rank;
    RankIsNumber(per, Serving(per, g - 1));
    ServingBelow(per, g);
  }

  lemma TargetAbove(per: seq<nat>, execOf: seq<nat>, up: nat)
    requires 0 < |per| == |execOf| < NoGroup && SomeWorker(per) && JoinedUpTo(per, execOf, 0) && per[0] == 0
    requires 0 < up <= |per| && (up < |per| ==> execOf[up] != NoGroup) && (forall h | 0 < h < up :: execOf[h] == NoGroup)
    ensures up < |per| && execOf[up] == Rank(per, Serving(per, 0))
  {
    hide Rank;
    forall h | 0 <= h < |per|
      ensures execOf[h] == NoGroup <==> per[h] == 0
    {
      RankIsNumber(per, h);
    }
    assert Up(per, 0) == up;
  }

  /** The group that a cache group without workers joins. */
  method FindTarget(ghost per: seq<nat>, execOf: array<nat>, g: nat) returns (target: nat)
    requires g < |per| == execOf.Length < NoGroup && SomeWorker(per) && JoinedUpTo(per, execOf[..], g) && per[g] == 0
    ensures target == Rank(per, Serving(per, g))
  {
    hide JoinedUpTo, Rank, Serving, SomeWorker;
    var down := ScanDown(execOf, g);
    var up := ScanUp(execOf, g);
    if g > 0 {
      TargetBelow(per, execOf[..], g);
    } else {
      TargetAbove(per, execOf[..], up);
    }
    target := if down >= 0 then execOf[down] else execOf[up];
  }

  lemma NextGroup(per: seq<nat>, g: nat)
    requires g < |per| < NoGroup && SomeWorker(per)
    ensures OwnGroup(per, g) == NoGroup <==> per[g] == 0
    ensures per[g] != 0 ==> OwnGroup(per, g) == Rank(per, g) == Rank(per, Serving(per, g))
    ensures Rank(per, g + 1) == Rank(per, g) + (if per[g] != 0 then 1 else 0) <= Rank(per, |per|)
    ensures NonZero(per, g + 1) == NonZero(per, g) + (if per[g] != 0 then [per[g]] else [])
    ensures Rank(per, Serving(per, g)) < Rank(per, |per|)
  {
    RankMono(per, g + 1, |per|);
    RankStrict(per, Serving(per, g), |per|);
  }

  /** Joins every cache group to the executor group that serves it, overwriting the numbers as it goes. */
  method JoinGroups(per: seq<nat>, sets: seq<set<nat>>, execOf: array<nat>, workers: array<nat>, cpus: array<set<nat>>)
    requires execOf.Length == |per| == |sets| < NoGroup && SomeWorker(per)
    requires workers.Length == cpus.Length == Rank(per, |per|) && execOf != workers
    requires forall g | 0 <= g < |per| :: execOf[g] == OwnGroup(per, g)
    requires forall k | 0 <= k < cpus.Length :: cpus[k] == {}
    modifies execOf, workers, cpus
    ensures forall g | 0 <= g < |per| :: execOf[g] == Rank(per, Serving(per, g))
    ensures workers[..] == NonZero(per, |per|)
    ensures forall k | 0 <= k < cpus.Length :: cpus[k] == Joined(per, sets, k, |per|)
  {
    hide Rank, Serving, NonZero, SomeWorker, OwnGroup;
    NoneYet(per);
    assert JoinedUpTo(per, execOf[..], 0);
    for g := 0 to |per|
      invariant JoinedUpTo(per, execOf[..], g)
      invariant Rank(per, g) <= workers.Length && workers[..Rank(per, g)] == NonZero(per, g)
      invariant forall k | 0 <= k < cpus.Length :: cpus[k] == Joined(per, sets, k, g)
    {
      NextGroup(per, g);
      var target := execOf[g];
      assert target == OwnGroup(per, g);
      if target == NoGroup {
        target := FindTarget(per, execOf, g);
      } else {
        workers[target] := per[g];
        assert workers[..target + 1] == NonZero(per, g) + [per[g]];
      }
      cpus[target] := cpus[target] + sets[g];
      execOf[g] := target;
    }
  }

  lemma NoneYet(per: seq<nat>)
    ensures Rank(per, 0) == 0 && NonZero(per, 0) == []
  {
  }

  datatype Group = Group(workers: nat, capacity: nat, cpus: set<nat>)

  /** What a plan is to give: the executor's groups, and where each cache group and each loop hands its work. */
  datatype Plan = Plan(groups: seq<Group>, execOf: seq<nat>, loopGroup: seq<nat>)

  function WorkersOf(p: Plan): seq<nat> {
    seq(|p.groups|, k requires 0 <= k < |p.groups| => p.groups[k].workers)
  }

  /** The plan of `workers` workers, each worth `perWorker` queued units, and `loops` loops over cache groups with these CPUs. */
  ghost predicate IsPlan(p: Plan, cpus: seq<nat>, sets: seq<set<nat>>, workers: nat, perWorker: nat, loops: nat)
    requires 0 < |cpus| == |sets| && workers > 0
  {
    var per := PerCache(cpus, workers, workers);
    PlanHasWorker(cpus, workers);
    && |p.execOf| == |cpus| && |p.loopGroup| == loops
    && WorkersOf(p) == NonZero(per, |per|)
    && (forall g | 0 <= g < |cpus| :: p.execOf[g] == Rank(per, Serving(per, g)))
    && (forall k | 0 <= k < |p.groups| :: p.groups[k].capacity == p.groups[k].workers * perWorker)
    && (forall k | 0 <= k < |p.groups| :: p.groups[k].cpus == Joined(per, sets, k, |per|))
    && (forall w | 0 <= w < loops :: p.loopGroup[w] == p.execOf[GroupOf(cpus, w, loops)])
  }

  method MakePlan(cpus: seq<nat>, sets: seq<set<nat>>, workers: nat, perWorker: nat, loops: nat) returns (p: Plan)
    requires 0 < |cpus| == |sets| < NoGroup && workers > 0
    ensures IsPlan(p, cpus, sets, workers, perWorker, loops)
  {
    hide Rank, Serving, NonZero, PerCache;
    PlanHasWorker(cpus, workers);
    var per := CountWorkers(cpus, workers);
    var execOf, count := NumberGroups(per[..]);
    var groupWorkers := new nat[count](_ => 0);
    var groupCpus := new set<nat>[count](_ => {});
    JoinGroups(per[..], sets, execOf, groupWorkers, groupCpus);
    var ws, cs := groupWorkers[..], groupCpus[..];
    var groups := seq(count, k requires 0 <= k < count => Group(ws[k], ws[k] * perWorker, cs[k]));
    var loopGroup := PlaceLoops(cpus, execOf[..], loops);
    p := Plan(groups, execOf[..], loopGroup);
    assert WorkersOf(p) == ws;
  }

  method PlaceLoops(cpus: seq<nat>, execOf: seq<nat>, loops: nat) returns (loopGroup: seq<nat>)
    requires 0 < |cpus| == |execOf|
    ensures |loopGroup| == loops && forall w | 0 <= w < loops :: loopGroup[w] == execOf[GroupOf(cpus, w, loops)]
  {
    var out := new nat[loops](_ => 0);
    for w := 0 to loops
      invariant forall v | 0 <= v < w :: out[v] == execOf[GroupOf(cpus, v, loops)]
    {
      var g := PlaceItem(cpus, w, loops);
      out[w] := execOf[g];
    }
    return out[..];
  }

  /**
   * Every executor group has a worker, and the workers of all of them are the pool. A cache group's
   * group has the workers of the one that serves it, and the CPUs of a group are those of the cache
   * groups that hand it their work.
   */
  lemma PlanServes(p: Plan, cpus: seq<nat>, sets: seq<set<nat>>, workers: nat, perWorker: nat, loops: nat)
    requires 0 < |cpus| == |sets| && workers > 0 && IsPlan(p, cpus, sets, workers, perWorker, loops)
    ensures (forall k | 0 <= k < |p.groups| :: p.groups[k].workers >= 1) && Sum(WorkersOf(p), |p.groups|) == workers
    ensures SomeWorker(PerCache(cpus, workers, workers))
    ensures forall g | 0 <= g < |cpus| ::
              && p.execOf[g] < |p.groups|
              && p.groups[p.execOf[g]].workers == Placed(cpus, workers, Serving(PerCache(cpus, workers, workers), g), workers)
    ensures forall k, c | 0 <= k < |p.groups| ::
              c in p.groups[k].cpus <==> exists g | 0 <= g < |cpus| :: p.execOf[g] == k && c in sets[g]
    ensures forall w | 0 <= w < loops :: p.loopGroup[w] < |p.groups|
  {
    var per := PerCache(cpus, workers, workers);
    assert forall g | 0 <= g < |cpus| :: per[g] == Placed(cpus, workers, g, workers);
    hide Rank, Serving, NonZero, PerCache, Placed, Joined;
    PlanHasWorker(cpus, workers);
    NonZeroSum(per, |per|);
    PerCacheSums(cpus, workers, workers);
    forall k | 0 <= k < |p.groups|
      ensures p.groups[k].workers >= 1
    {
      assert p.groups[k].workers == WorkersOf(p)[k];
    }
    forall g | 0 <= g < |cpus|
      ensures p.execOf[g] < |p.groups| && p.groups[p.execOf[g]].workers == per[Serving(per, g)]
    {
      NonZeroAt(per, Serving(per, g), |per|);
      assert p.groups[p.execOf[g]].workers == WorkersOf(p)[p.execOf[g]];
    }
    forall k, c | 0 <= k < |p.groups|
      ensures c in p.groups[k].cpus <==> exists g | 0 <= g < |cpus| :: p.execOf[g] == k && c in sets[g]
    {
      JoinedHas(per, sets, k, |per|, c);
    }
  }

  // ----- how near the serving group is -----

  function Distance(g: nat, h: nat): nat {
    if g <= h then h - g else g - h
  }

  /** No cache group with workers is nearer to `g` than `r` is. */
  ghost predicate Nearest(per: seq<nat>, g: nat, r: nat)
    requires g < |per|
  {
    r < |per| && per[r] != 0 && forall h | 0 <= h < |per| && per[h] != 0 :: Distance(g, r) <= Distance(g, h)
  }

  /** The serving group is the nearest one exactly unless there is one below and a nearer one above. */
  lemma NearestIff(per: seq<nat>, g: nat)
    requires g < |per| && SomeWorker(per)
    ensures Nearest(per, g, Serving(per, g)) <==>
            (Down(per, g) >= 0 && Up(per, g) < |per| ==> g - Down(per, g) <= Up(per, g) - g)
  {
    var d, u := Down(per, g), Up(per, g);
    if d >= 0 && u < |per| && Nearest(per, g, Serving(per, g)) {
      assert Distance(g, d) <= Distance(g, u);
    }
  }

  lemma EightEqual(g: nat)
    requires g <= 8
    ensures Sum([1, 1, 1, 1, 1, 1, 1, 1], g) == g
  {
    if g > 0 {
      EightEqual(g - 1);
    }
  }

  lemma EightPlaced(g: nat)
    requires g < 8
    ensures Placed([1, 1, 1, 1, 1, 1, 1, 1], 2, g, 2) == if g == 2 || g == 6 then 1 else 0
  {
    var cpus: seq<nat> := [1, 1, 1, 1, 1, 1, 1, 1];
    EightEqual(g);
    EightEqual(g + 1);
    EightEqual(8);
    InGroupIff(cpus, 0, 2, g);
    InGroupIff(cpus, 1, 2, g);
    hide GroupOf, Sum;
    assert Placed(cpus, 2, g, 0) == 0;
    assert Placed(cpus, 2, g, 1) == if GroupOf(cpus, 0, 2) == g then 1 else 0;
  }

  /** Two workers on eight equal cache groups: the sixth hands its work to the third, past the seventh beside it. */
  lemma PassesANearerGroup()
    ensures var per := PerCache([1, 1, 1, 1, 1, 1, 1, 1], 2, 2);
            && per == [0, 0, 1, 0, 0, 0, 1, 0] && SomeWorker(per)
            && Serving(per, 5) == 2 && !Nearest(per, 5, Serving(per, 5))
  {
    var cpus: seq<nat> := [1, 1, 1, 1, 1, 1, 1, 1];
    hide Placed;
    forall g | 0 <= g < 8
      ensures Placed(cpus, 2, g, 2) == if g == 2 || g == 6 then 1 else 0
    {
      EightPlaced(g);
    }
    var per := PerCache(cpus, 2, 2);
    assert per == [0, 0, 1, 0, 0, 0, 1, 0];
    assert per[2] != 0;
    assert Down(per, 5) == 2;
    assert Distance(5, 6) < Distance(5, 2) && per[6] != 0;
  }
}
