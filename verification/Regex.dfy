/** Regular expressions over character classes, and what they match. */
module Regex {

  datatype Class = Word | LabelChar | Letter | Dot | DotOrHyphen | AtSign

  /** ASCII, either case. */
  predicate In(c: char, cls: Class) {
    match cls
    case Word => 'A' <= c <= 'Z' || 'a' <= c <= 'z' || '0' <= c <= '9' || c == '_' || c == '+' || c == '-'
    case LabelChar => 'A' <= c <= 'Z' || 'a' <= c <= 'z' || '0' <= c <= '9'
    case Letter => 'A' <= c <= 'Z' || 'a' <= c <= 'z'
    case Dot => c == '.'
    case DotOrHyphen => c == '.' || c == '-'
    case AtSign => c == '@'
  }

  datatype Re = One(cls: Class) | Cat(first: Re, second: Re) | Star(body: Re)

  function Plus(r: Re): Re {
    Cat(r, Star(r))
  }

  /** The meaning of an expression, as a set of strings. */
  ghost predicate Matches(r: Re, s: string)
    decreases r, |s|
  {
    match r
    case One(cls) => |s| == 1 && In(s[0], cls)
    case Cat(a, b) => exists i | 0 <= i <= |s| :: Matches(a, s[..i]) && Matches(b, s[i..])
    case Star(a) => s == "" || exists i | 0 < i <= |s| :: Matches(a, s[..i]) && Matches(r, s[i..])
  }

  // ----- reading an expression character by character -----

  lemma OneIs(cls: Class, s: string)
    ensures Matches(One(cls), s) <==> |s| == 1 && In(s[0], cls)
  {
  }

  lemma CatAt(a: Re, b: Re, s: string, i: nat)
    requires i <= |s| && Matches(a, s[..i]) && Matches(b, s[i..])
    ensures Matches(Cat(a, b), s)
  {
  }

  lemma CatSplit(a: Re, b: Re, s: string) returns (i: nat)
    requires Matches(Cat(a, b), s)
    ensures i <= |s| && Matches(a, s[..i]) && Matches(b, s[i..])
  {
    i :| 0 <= i <= |s| && Matches(a, s[..i]) && Matches(b, s[i..]);
  }

  lemma StarNone(a: Re)
    ensures Matches(Star(a), "")
  {
  }

  lemma StarMore(a: Re, s: string, i: nat)
    requires 0 < i <= |s| && Matches(a, s[..i]) && Matches(Star(a), s[i..])
    ensures Matches(Star(a), s)
  {
  }

  lemma StarSplit(a: Re, s: string) returns (i: nat)
    requires Matches(Star(a), s) && s != ""
    ensures 0 < i <= |s| && Matches(a, s[..i]) && Matches(Star(a), s[i..])
  {
    i :| 0 < i <= |s| && Matches(a, s[..i]) && Matches(Star(a), s[i..]);
  }

  /** A class in front takes the first character. */
  lemma OneThen(cls: Class, r: Re, s: string)
    ensures Matches(Cat(One(cls), r), s) <==> s != "" && In(s[0], cls) && Matches(r, s[1..])
  {
    hide In, Matches;
    if Matches(Cat(One(cls), r), s) {
      var i := CatSplit(One(cls), r, s);
      OneIs(cls, s[..i]);
    }
    if s != "" && In(s[0], cls) && Matches(r, s[1..]) {
      OneIs(cls, s[..1]);
      CatAt(One(cls), r, s, 1);
    }
  }

  lemma Slices(s: string, i: nat, j: nat)
    requires i <= j <= |s|
    ensures s[..j][..i] == s[..i] && s[..j][i..] == s[i..j] && s[i..][..j - i] == s[i..j] && s[i..][j - i..] == s[j..]
  {
  }

  lemma LeftToRight(a: Re, b: Re, c: Re, s: string)
    requires Matches(Cat(Cat(a, b), c), s)
    ensures Matches(Cat(a, Cat(b, c)), s)
  {
    hide Matches;
    var j := CatSplit(Cat(a, b), c, s);
    var i := CatSplit(a, b, s[..j]);
    Slices(s, i, j);
    CatAt(b, c, s[i..], j - i);
    CatAt(a, Cat(b, c), s, i);
  }

  lemma RightToLeft(a: Re, b: Re, c: Re, s: string)
    requires Matches(Cat(a, Cat(b, c)), s)
    ensures Matches(Cat(Cat(a, b), c), s)
  {
    hide Matches;
    var i := CatSplit(a, Cat(b, c), s);
    var k := CatSplit(b, c, s[i..]);
    Slices(s, i, i + k);
    CatAt(a, b, s[..i + k], i);
    CatAt(Cat(a, b), c, s, i + k);
  }

  lemma CatAssoc(a: Re, b: Re, c: Re, s: string)
    ensures Matches(Cat(Cat(a, b), c), s) <==> Matches(Cat(a, Cat(b, c)), s)
  {
    hide Matches;
    if Matches(Cat(Cat(a, b), c), s) {
      LeftToRight(a, b, c, s);
    }
    if Matches(Cat(a, Cat(b, c)), s) {
      RightToLeft(a, b, c, s);
    }
  }

  lemma StarTakes(cls: Class, r: Re, s: string, i: nat)
    requires 0 < i <= |s| && Matches(Star(One(cls)), s[..i]) && Matches(r, s[i..])
    ensures In(s[0], cls) && Matches(Cat(Star(One(cls)), r), s[1..])
  {
    hide In, Matches;
    var k := StarSplit(One(cls), s[..i]);
    OneIs(cls, s[..i][..k]);
    assert s[..i][1..] == s[1..i];
    Slices(s, 1, i);
    CatAt(Star(One(cls)), r, s[1..], i - 1);
  }

  lemma StarGives(cls: Class, r: Re, s: string)
    requires s != "" && In(s[0], cls) && Matches(Cat(Star(One(cls)), r), s[1..])
    ensures Matches(Cat(Star(One(cls)), r), s)
  {
    hide In, Matches;
    var star := Star(One(cls));
    var k := CatSplit(star, r, s[1..]);
    var i := k + 1;
    Slices(s, 1, i);
    OneIs(cls, s[..i][..1]);
    StarMore(One(cls), s[..i], 1);
    CatAt(star, r, s, i);
  }

  /** A repeated class takes characters while it is given them. */
  lemma StarOneThen(cls: Class, r: Re, s: string)
    ensures Matches(Cat(Star(One(cls)), r), s) <==>
            Matches(r, s) || (s != "" && In(s[0], cls) && Matches(Cat(Star(One(cls)), r), s[1..]))
  {
    hide In, Matches;
    var star := Star(One(cls));
    if Matches(Cat(star, r), s) {
      var i := CatSplit(star, r, s);
      if i == 0 {
        assert s[0..] == s;
      } else {
        StarTakes(cls, r, s, i);
      }
    }
    if Matches(r, s) {
      StarNone(One(cls));
      assert s[..0] == "" && s[0..] == s;
      CatAt(star, r, s, 0);
    }
    if s != "" && In(s[0], cls) && Matches(Cat(star, r), s[1..]) {
      StarGives(cls, r, s);
    }
  }

  /** A repetition is nothing, or one turn that is not empty and the repetition again. */
  lemma StarUnfolds(a: Re, s: string)
    requires !Matches(a, "")
    ensures Matches(Star(a), s) <==> s == "" || Matches(Cat(a, Star(a)), s)
  {
    hide Matches;
    StarNone(a);
    if s != "" && Matches(Star(a), s) {
      var i := StarSplit(a, s);
      CatAt(a, Star(a), s, i);
    }
    if Matches(Cat(a, Star(a)), s) {
      var i := CatSplit(a, Star(a), s);
      assert s[..0] == "";
      StarMore(a, s, i);
    }
  }

  // ----- the flags `iu` -----

  /** The two characters outside ASCII that simple case folding takes to an ASCII letter. */
  function Fold(c: char): char {
    if c == '\U{017F}' then 's' else if c == '\U{212A}' then 'k' else c
  }

  function FoldAll(s: string): (t: string)
    ensures |t| == |s| && forall i | 0 <= i < |s| :: t[i] == Fold(s[i])
  {
    seq(|s|, i requires 0 <= i < |s| => Fold(s[i]))
  }

  /** What an expression matches under the flags: a class takes a character if it has its folding. */
  ghost predicate MatchesFolded(r: Re, s: string)
    decreases r, |s|
  {
    match r
    case One(cls) => |s| == 1 && In(Fold(s[0]), cls)
    case Cat(a, b) => exists i | 0 <= i <= |s| :: MatchesFolded(a, s[..i]) && MatchesFolded(b, s[i..])
    case Star(a) => s == "" || exists i | 0 < i <= |s| :: MatchesFolded(a, s[..i]) && MatchesFolded(r, s[i..])
  }

  lemma FoldSlices(s: string, i: nat)
    requires i <= |s|
    ensures FoldAll(s)[..i] == FoldAll(s[..i]) && FoldAll(s)[i..] == FoldAll(s[i..])
  {
    hide Fold;
  }

  /** It is what the expression matches in the folded string. */
  lemma {:induction false} FoldedMatches(r: Re, s: string)
    ensures MatchesFolded(r, s) <==> Matches(r, FoldAll(s))
    decreases r, |s|
  {
    hide In, Fold;
    match r
    case One(cls) =>
    case Cat(a, b) =>
      forall i | 0 <= i <= |s|
        ensures MatchesFolded(a, s[..i]) && MatchesFolded(b, s[i..]) <==>
                Matches(a, FoldAll(s)[..i]) && Matches(b, FoldAll(s)[i..])
      {
        FoldSlices(s, i);
        FoldedMatches(a, s[..i]);
        FoldedMatches(b, s[i..]);
      }
    case Star(a) =>
      forall i | 0 < i <= |s|
        ensures MatchesFolded(a, s[..i]) && MatchesFolded(r, s[i..]) <==>
                Matches(a, FoldAll(s)[..i]) && Matches(r, FoldAll(s)[i..])
      {
        FoldSlices(s, i);
        FoldedMatches(a, s[..i]);
        FoldedMatches(r, s[i..]);
      }
  }
}
