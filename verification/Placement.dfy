/**
 * Sharing out items -- event loops, database workers -- among groups of CPUs so that each gets what its
 * size is worth. `PlanGroups` builds on it.
 */
module Placement {
  import opened Arith

  function Sum(s: seq<nat>, n: nat): nat
    requires n <= |s|
  {
    if n == 0 then 0 else Sum(s, n - 1) + s[n - 1]
  }

  /** The CPU, counted over all groups, in the middle of the item's share. */
  function Position(total: nat, index: nat, count: nat): nat
    requires count > 0
  {
    Quotient((2 * index + 1) * total, 2 * count)
  }

  /** The first group from `g` on whose CPUs, with all before, reach past the position; else the last. */
  function Holding(cpus: seq<nat>, position: nat, g: nat): (r: nat)
    requires g < |cpus|
    ensures g <= r < |cpus|
    ensures forall h | g < h <= r :: Sum(cpus, h) <= position
    ensures r < |cpus| - 1 ==> position < Sum(cpus, r + 1)
    decreases |cpus| - g
  {
    if position < Sum(cpus, g + 1) || g == |cpus| - 1 then g else Holding(cpus, position, g + 1)
  }

  /** Which group item `index` of `count` goes to. */
  function GroupOf(cpus: seq<nat>, index: nat, count: nat): (g: nat)
    ensures |cpus| > 0 ==> g < |cpus|
  {
    if |cpus| <= 1 || count == 0 then 0 else Holding(cpus, Position(Sum(cpus, |cpus|), index, count), 0)
  }

  method PlaceItem(cpus: seq<nat>, index: nat, count: nat) returns (g: nat)
    ensures g == GroupOf(cpus, index, count)
  {
    hide Position;
    if |cpus| <= 1 || count == 0 {
      return 0;
    }
    var total := 0;
    for i := 0 to |cpus|
      invariant total == Sum(cpus, i)
    {
      total := total + cpus[i];
    }
    var position := Position(total, index, count);
    var seen := 0;
    g := 0;
    while g != |cpus|
      invariant g <= |cpus| && seen == Sum(cpus, g)
      invariant forall h | 0 < h <= g :: Sum(cpus, h) <= position
    {
      seen := seen + cpus[g];
      if position < seen {
        HoldingIs(cpus, position, g);
        return;
      }
      g := g + 1;
    }
    g := |cpus| - 1;
    HoldingIs(cpus, position, g);
  }

  lemma HoldingIs(cpus: seq<nat>, position: nat, g: nat)
    requires g < |cpus| && forall h | 0 < h <= g :: Sum(cpus, h) <= position
    requires position < Sum(cpus, g + 1) || g == |cpus| - 1
    ensures Holding(cpus, position, 0) == g
  {
    hide Sum;
    var r := Holding(cpus, position, 0);
  }

  // ----- order and fairness -----

  lemma {:induction false} SumMono(s: seq<nat>, i: nat, j: nat)
    requires i <= j <= |s|
    ensures Sum(s, i) <= Sum(s, j)
    decreases j
  {
    if i < j {
      SumMono(s, i, j - 1);
    }
  }

  lemma PositionMono(total: nat, i: nat, j: nat, count: nat)
    requires count > 0 && i <= j
    ensures Position(total, i, count) <= Position(total, j, count)
  {
    MulMono(2 * i + 1, 2 * j + 1, total);
    QuotientMono((2 * i + 1) * total, (2 * j + 1) * total, 2 * count);
  }

  /** Later items go to the same group or to a later one. */
  lemma PlacementMonotone(cpus: seq<nat>, i: nat, j: nat, count: nat)
    requires i <= j
    ensures GroupOf(cpus, i, count) <= GroupOf(cpus, j, count)
  {
    hide Sum, Position;
    if |cpus| > 1 && count > 0 {
      var total := Sum(cpus, |cpus|);
      PositionMono(total, i, j, count);
      var r, q := GroupOf(cpus, i, count), GroupOf(cpus, j, count);
    }
  }

  /** How many of the first `n` items of `count` are placed in group `g`. */
  function Placed(cpus: seq<nat>, count: nat, g: nat, n: nat): nat {
    if n == 0 then 0
    else Placed(cpus, count, g, n - 1) + if GroupOf(cpus, n - 1, count) == g then 1 else 0
  }

  /** How many of the first `n` items stand before CPU `s`. */
  function Before(total: nat, count: nat, s: nat, n: nat): nat
    requires count > 0
  {
    if n == 0 then 0 else Before(total, count, s, n - 1) + if Position(total, n - 1, count) < s then 1 else 0
  }

  /** An item is in a group exactly when it stands at or past the CPUs before it and before its own last one: the
      middle of its share, (i + 1/2) / count of all CPUs, falls among them. */
  lemma InGroupIff(cpus: seq<nat>, i: nat, count: nat, g: nat)
    requires |cpus| > 1 && i < count && g < |cpus| && Sum(cpus, |cpus|) > 0
    ensures GroupOf(cpus, i, count) == g <==>
            Sum(cpus, g) <= Position(Sum(cpus, |cpus|), i, count) < Sum(cpus, g + 1)
    ensures GroupOf(cpus, i, count) == g <==>
            (2 * count) * Sum(cpus, g) <= (2 * i + 1) * Sum(cpus, |cpus|) < (2 * count) * Sum(cpus, g + 1)
  {
    var total := Sum(cpus, |cpus|);
    PositionInside(total, i, count);
    StandsBefore(total, i, count, Sum(cpus, g));
    StandsBefore(total, i, count, Sum(cpus, g + 1));
    hide Position;
    var p := Position(total, i, count);
    var r := GroupOf(cpus, i, count);
    assert p < Sum(cpus, r + 1);
    assert Sum(cpus, r) <= p;
    if r < g {
      SumMono(cpus, r + 1, g);
    } else if g < r {
      SumMono(cpus, g + 1, r);
    }
  }

  lemma PositionInside(total: nat, i: nat, count: nat)
    requires i < count && total > 0
    ensures Position(total, i, count) < total
  {
    StandsBefore(total, i, count, total);
    MulMono(2 * i + 2, 2 * count, total);
    assert (2 * i + 2) * total == (2 * i + 1) * total + total;
  }

  lemma StandsBefore(total: nat, i: nat, count: nat, s: nat)
    requires count > 0
    ensures Position(total, i, count) < s <==> (2 * i + 1) * total < (2 * count) * s
  {
    QuotientBelow((2 * i + 1) * total, 2 * count, s);
  }

  /** The share of the first `s` CPUs, rounded half down. */
  function Rounded(total: nat, count: nat, s: nat): nat
    requires total > 0
  {
    Quotient((2 * count) * s + total - 1, 2 * total)
  }

  lemma RoundedIff(total: nat, i: nat, count: nat, s: nat)
    requires total > 0 && count > 0
    ensures i < Rounded(total, count, s) <==> Position(total, i, count) < s
  {
    StandsBefore(total, i, count, s);
    var x := (2 * count) * s + total - 1;
    QuotientBelow(x, 2 * total, i + 1);
    assert (2 * total) * (i + 1) == (2 * i + 1) * total + total;
  }

  lemma {:induction false} BeforeIsRounded(total: nat, count: nat, s: nat, n: nat)
    requires total > 0 && count > 0
    ensures Before(total, count, s, n) == if n < Rounded(total, count, s) then n else Rounded(total, count, s)
  {
    hide Rounded, Position;
    if n > 0 {
      BeforeIsRounded(total, count, s, n - 1);
      RoundedIff(total, n - 1, count, s);
    }
  }

  lemma {:induction false} PlacedIsBetween(cpus: seq<nat>, count: nat, g: nat, n: nat)
    requires |cpus| > 1 && n <= count && 0 < count && g < |cpus| && Sum(cpus, |cpus|) > 0
    ensures Placed(cpus, count, g, n) ==
            Before(Sum(cpus, |cpus|), count, Sum(cpus, g + 1), n) - Before(Sum(cpus, |cpus|), count, Sum(cpus, g), n)
  {
    hide Sum, Position, GroupOf;
    if n > 0 {
      PlacedIsBetween(cpus, count, g, n - 1);
      InGroupIff(cpus, n - 1, count, g);
      SumMono(cpus, g, g + 1);
    }
  }

  lemma RoundedWithin(total: nat, count: nat, s: nat)
    requires total > 0 && s <= total
    ensures Rounded(total, count, s) <= count
    ensures (2 * count) * s - total <= (2 * total) * Rounded(total, count, s) < (2 * count) * s + total
  {
    var x := (2 * count) * s + total - 1;
    Remainder(x, 2 * total);
    MulMono(s, total, 2 * count);
    QuotientBelow(x, 2 * total, count + 1);
    assert (2 * total) * (count + 1) == (2 * count) * total + 2 * total;
  }

  /** A group receives the floor or the ceiling of its share of the items by CPUs. */
  lemma FairShare(cpus: seq<nat>, count: nat, g: nat)
    requires g < |cpus| && Sum(cpus, |cpus|) > 0
    ensures var total, n := Sum(cpus, |cpus|), Placed(cpus, count, g, count);
            n == (count * cpus[g]) / total || n == (count * cpus[g] + total - 1) / total
  {
    var total := Sum(cpus, |cpus|);
    if count == 0 {
      return;
    }
    if |cpus| == 1 {
      assert total == Sum(cpus, 0) + cpus[0];
      OneGroupTakesAll(cpus, count, count);
      Divides(count, 0, total);
      return;
    }
    hide Placed, Before;
    var a, b := Sum(cpus, g), Sum(cpus, g + 1);
    assert b == a + cpus[g];
    SumMono(cpus, g + 1, |cpus|);
    PlacedIsBetween(cpus, count, g, count);
    BeforeIsRounded(total, count, a, count);
    BeforeIsRounded(total, count, b, count);
    RoundedWithin(total, count, a);
    RoundedWithin(total, count, b);
    hide Rounded;
    var ra, rb := Rounded(total, count, a), Rounded(total, count, b);
    ShareBetween(total, count, a, cpus[g], ra, rb);
    FloorOrCeiling(rb - ra, count * cpus[g], total);
  }

  lemma {:induction false} OneGroupTakesAll(cpus: seq<nat>, count: nat, n: nat)
    requires |cpus| == 1
    ensures Placed(cpus, count, 0, n) == n
  {
    if n > 0 {
      OneGroupTakesAll(cpus, count, n - 1);
    }
  }

  lemma ShareBetween(total: nat, count: nat, a: nat, k: nat, ra: int, rb: int)
    requires (2 * count) * a - total <= (2 * total) * ra < (2 * count) * a + total
    requires (2 * count) * (a + k) - total <= (2 * total) * rb < (2 * count) * (a + k) + total
    ensures count * k - total < total * (rb - ra) < count * k + total
  {
    Distribute(2 * count, a, k);
    assert (2 * count) * k == 2 * (count * k);
    assert (2 * total) * ra == 2 * (total * ra) && (2 * total) * rb == 2 * (total * rb);
    Distribute(total, rb, -ra);
  }

  lemma FloorOrCeiling(n: int, x: nat, total: nat)
    requires total > 0 && x - total < total * n < x + total
    ensures n == x / total || n == (x + total - 1) / total
  {
    if n < 0 {
      MulMono(n, -1, total);
    }
    Distribute(total, n, 1);
    QuotientBelow(x, total, n + 1);
    QuotientBelow(x + total - 1, total, n);
    var q := x / total;
    QuotientBelow(x, total, q + 1);
    Distribute(total, q + 1, 1);
    QuotientBelow(x + total - 1, total, q + 2);
  }
}
