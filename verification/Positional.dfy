/**
 * Numbers written in a base, least significant digit first, and the conversion that multiplies the
 * digits so far by the old base and adds the next digit, carrying in place.
 */
module Positional {
  import opened Arith

  /** The number that `s` writes in base `b`. */
  ghost function LE(s: seq<nat>, b: nat): nat {
    if s == [] then 0 else s[0] + b * LE(s[1..], b)
  }

  /** Digits of base `b`, the most significant of them not zero. */
  ghost predicate Canonical(s: seq<nat>, b: nat) {
    && (forall i | 0 <= i < |s| :: s[i] < b)
    && (s != [] ==> s[|s| - 1] != 0)
  }

  function Digits(c: nat, b: nat): seq<nat>
    requires b > 1
  {
    if c == 0 then [] else
      Shrinks(c, b);
      [c % b] + Digits(c / b, b)
  }

  lemma Shrinks(c: nat, b: nat)
    requires b > 1 && c > 0
    ensures 0 <= c / b < c
  {
    if c / b >= c {
      MulMono(c, c / b, b);
      MulMono(2, b, c);
      assert false;
    }
  }

  /** `m` times the number, plus `c`: the carry loop over the digits, then over what is left of the carry. */
  function MulAdd(s: seq<nat>, m: nat, c: nat, b: nat): (r: seq<nat>)
    requires b > 1
    ensures |r| >= |s|
  {
    if s == [] then Digits(c, b)
    else [(s[0] * m + c) % b] + MulAdd(s[1..], m, (s[0] * m + c) / b, b)
  }

  /** The digits `xs` of base `m`, most significant first, converted to base `b`. */
  function Convert(xs: seq<nat>, m: nat, b: nat): seq<nat>
    requires b > 1
  {
    if xs == [] then [] else MulAdd(Convert(xs[..|xs| - 1], m, b), m, xs[|xs| - 1], b)
  }

  function Reversed(s: seq<nat>): (r: seq<nat>)
    ensures |r| == |s| && forall i | 0 <= i < |s| :: r[i] == s[|s| - 1 - i]
  {
    seq(|s|, i requires 0 <= i < |s| => s[|s| - 1 - i])
  }

  // ----- what the conversion computes -----

  lemma LECons(x: nat, s: seq<nat>, b: nat)
    ensures LE([x] + s, b) == x + b * LE(s, b)
  {
    assert ([x] + s)[1..] == s;
  }

  lemma {:induction false} DigitsValue(c: nat, b: nat)
    requires b > 1
    ensures LE(Digits(c, b), b) == c && Canonical(Digits(c, b), b)
    ensures c > 0 ==> Digits(c, b) != []
    decreases c
  {
    if c > 0 {
      Shrinks(c, b);
      DigitsValue(c / b, b);
      Remainder(c, b);
      LECons(c % b, Digits(c / b, b), b);
    }
  }

  lemma {:induction false} MulAddValue(s: seq<nat>, m: nat, c: nat, b: nat)
    requires b > 1
    ensures LE(MulAdd(s, m, c, b), b) == m * LE(s, b) + c
  {
    if s == [] {
      DigitsValue(c, b);
    } else {
      var v := s[0] * m + c;
      var t := LE(s[1..], b);
      MulAddValue(s[1..], m, v / b, b);
      Remainder(v, b);
      LECons(v % b, MulAdd(s[1..], m, v / b, b), b);
      Distribute(b, m * t, v / b);
      Exchange(b, m, t);
      Distribute(m, s[0], b * t);
    }
  }

  lemma {:induction false} MulAddCanonical(s: seq<nat>, m: nat, c: nat, b: nat)
    requires b > 1 && m > 0 && Canonical(s, b)
    ensures Canonical(MulAdd(s, m, c, b), b)
  {
    if s == [] {
      DigitsValue(c, b);
    } else {
      var v := s[0] * m + c;
      var r := MulAdd(s[1..], m, v / b, b);
      assert MulAdd(s, m, c, b) == [v % b] + r;
      MulAddCanonical(s[1..], m, v / b, b);
      if |s| == 1 {
        DigitsValue(v / b, b);
        MulMono(1, m, s[0]);
        assert v > 0;
        if v / b == 0 {
          assert v == b * (v / b) + v % b;
        }
      }
    }
  }

  lemma {:induction false} ConvertGrows(xs: seq<nat>, k: nat, m: nat, b: nat)
    requires b > 1 && k <= |xs|
    ensures |Convert(xs[..k], m, b)| <= |Convert(xs, m, b)|
    decreases |xs|
  {
    if k < |xs| {
      ConvertGrows(xs[..|xs| - 1], k, m, b);
      assert xs[..|xs| - 1][..k] == xs[..k];
    } else {
      assert xs[..k] == xs;
    }
  }

  /** Conversion keeps the number and gives its only canonical spelling. */
  lemma {:induction false} ConvertValue(xs: seq<nat>, m: nat, b: nat)
    requires b > 1 && m > 0
    ensures LE(Convert(xs, m, b), b) == LE(Reversed(xs), m)
    ensures Canonical(Convert(xs, m, b), b)
  {
    if xs != [] {
      var front, x := xs[..|xs| - 1], xs[|xs| - 1];
      ConvertValue(front, m, b);
      MulAddValue(Convert(front, m, b), m, x, b);
      MulAddCanonical(Convert(front, m, b), m, x, b);
      assert Reversed(xs) == [x] + Reversed(front);
      LECons(x, Reversed(front), m);
    }
  }

  lemma {:induction false} CanonicalPositive(s: seq<nat>, b: nat)
    requires b > 1 && Canonical(s, b) && s != []
    ensures LE(s, b) > 0
  {
    if |s| > 1 {
      CanonicalPositive(s[1..], b);
      MulMono(1, LE(s[1..], b), b);
    }
  }

  /** One number has one canonical spelling. */
  lemma {:induction false} Unique(s: seq<nat>, t: seq<nat>, b: nat)
    requires b > 1 && Canonical(s, b) && Canonical(t, b) && LE(s, b) == LE(t, b)
    ensures s == t
  {
    if s == [] || t == [] {
      if s != [] {
        CanonicalPositive(s, b);
      }
      if t != [] {
        CanonicalPositive(t, b);
      }
    } else {
      Divides(LE(s[1..], b), s[0], b);
      Divides(LE(t[1..], b), t[0], b);
      Unique(s[1..], t[1..], b);
      assert s == [s[0]] + s[1..] && t == [t[0]] + t[1..];
    }
  }

  /** Converting there and back is the identity on digits that do not start with a zero. */
  lemma ThereAndBack(xs: seq<nat>, m: nat, b: nat)
    requires b > 1 && m > 1 && Canonical(Reversed(xs), m)
    ensures Reversed(Convert(Reversed(Convert(xs, m, b)), b, m)) == xs
  {
    hide Convert;
    var ys := Reversed(Convert(xs, m, b));
    ConvertValue(xs, m, b);
    ConvertValue(ys, b, m);
    assert Reversed(ys) == Convert(xs, m, b);
    Unique(Convert(ys, b, m), Reversed(xs), m);
    assert Reversed(Reversed(xs)) == xs;
  }

  // ----- how long a spelling is -----

  function Pow(b: nat, n: nat): nat {
    if n == 0 then 1 else b * Pow(b, n - 1)
  }

  lemma {:induction false} PowMono(b: nat, i: nat, j: nat)
    requires b > 0 && i <= j
    ensures 0 < Pow(b, i) <= Pow(b, j)
    decreases j
  {
    if i < j {
      PowMono(b, i, j - 1);
      MulMono(1, b, Pow(b, j - 1));
    } else if i > 0 {
      PowMono(b, i - 1, i - 1);
      MulMono(1, b, Pow(b, i - 1));
    }
  }

  lemma {:induction false} PowAdd(b: nat, i: nat, j: nat)
    ensures Pow(b, i + j) == Pow(b, i) * Pow(b, j)
  {
    if i > 0 {
      PowAdd(b, i - 1, j);
      Exchange(b, Pow(b, i - 1), Pow(b, j));
    }
  }

  lemma Square(b: nat, i: nat)
    ensures Pow(b, i + i) == Pow(b, i) * Pow(b, i) && Pow(b, 1) == b
  {
    PowAdd(b, i, i);
  }

  lemma {:induction false} Bounded(s: seq<nat>, b: nat)
    requires b > 1 && forall i | 0 <= i < |s| :: s[i] < b
    ensures LE(s, b) < Pow(b, |s|)
  {
    if s != [] {
      Bounded(s[1..], b);
      OneMoreDigit(s[0], LE(s[1..], b), Pow(b, |s| - 1), b);
    }
  }

  lemma {:induction false} AtLeast(s: seq<nat>, b: nat)
    requires b > 1 && Canonical(s, b) && s != []
    ensures LE(s, b) >= Pow(b, |s| - 1)
  {
    if |s| > 1 {
      AtLeast(s[1..], b);
      MulMono(Pow(b, |s| - 2), LE(s[1..], b), b);
    }
  }

  lemma LengthFromValue(s: seq<nat>, b: nat, n: nat)
    requires b > 1 && Canonical(s, b) && Pow(b, n) <= LE(s, b) < Pow(b, n + 1)
    ensures |s| == n + 1
  {
    hide Pow, LE;
    Bounded(s, b);
    if |s| <= n {
      PowMono(b, |s|, n);
    } else if |s| > n + 1 {
      AtLeast(s, b);
      PowMono(b, n + 1, |s| - 1);
    }
  }

  lemma {:induction false} LEConcat(s: seq<nat>, t: seq<nat>, b: nat)
    ensures LE(s + t, b) == LE(s, b) + Pow(b, |s|) * LE(t, b)
  {
    if s == [] {
      assert s + t == t;
    } else {
      LEConcat(s[1..], t, b);
      assert (s + t)[1..] == s[1..] + t;
      var p, u := Pow(b, |s| - 1), LE(t, b);
      Distribute(b, LE(s[1..], b), p * u);
      Exchange(b, p, u);
    }
  }
}
