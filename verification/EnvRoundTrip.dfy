/** Writing entries into an existing file and loading the result. */
module EnvRoundTrip {
  import opened Options
  import opened EnvFile

  /** `a` followed by anything reads as `ps` followed by what that reads as. */
  ghost predicate Segment(a: string, ps: seq<Pair>) {
    forall rest: string :: Parse(a + rest) == Contents(Parse(rest).status, ps + Parse(rest).pairs)
  }

  lemma SegmentAt(a: string, ps: seq<Pair>, rest: string)
    requires Segment(a, ps)
    ensures Parse(a + rest) == Contents(Parse(rest).status, ps + Parse(rest).pairs)
  {
    hide Parse;
  }

  lemma SegmentsAt(a: string, ps: seq<Pair>, b: string, qs: seq<Pair>, rest: string)
    requires Segment(a, ps) && Segment(b, qs)
    ensures Parse((a + b) + rest) == Contents(Parse(rest).status, (ps + qs) + Parse(rest).pairs)
  {
    hide Parse, Segment;
    SegmentAt(a, ps, b + rest);
    SegmentAt(b, qs, rest);
    assert (a + b) + rest == a + (b + rest);
    assert (ps + qs) + Parse(rest).pairs == ps + (qs + Parse(rest).pairs);
  }

  lemma SegmentConcat(a: string, ps: seq<Pair>, b: string, qs: seq<Pair>)
    requires Segment(a, ps) && Segment(b, qs)
    ensures Segment(a + b, ps + qs)
  {
    hide Parse;
    forall rest: string
      ensures Parse((a + b) + rest) == Contents(Parse(rest).status, (ps + qs) + Parse(rest).pairs)
    {
      SegmentsAt(a, ps, b, qs, rest);
    }
  }

  lemma SegmentWhole(a: string, ps: seq<Pair>)
    requires Segment(a, ps)
    ensures Parse(a) == Contents(Fine, ps)
  {
    assert a + "" == a && ps + [] == ps;
    assert Parse("") == Contents(Fine, []);
  }

  // ----- a line reads the same whatever follows it -----

  ghost predicate NextLine(x: string) {
    x != "" && x[0] == '\n'
  }

  predicate EndsLine(s: string) {
    s != "" && s[|s| - 1] == '\n'
  }

  /** Between `s` and `x` a line ends. */
  ghost predicate Joint(s: string, x: string) {
    EndsLine(s) || NextLine(x)
  }

  /** What follows the end of that line. */
  ghost function Onward(s: string, x: string): string
    requires Joint(s, x)
  {
    if EndsLine(s) then x else x[1..]
  }

  /** A part of the text that reaches to the same end. */
  ghost predicate Tail(t: string, s: string) {
    EndsLine(t) <==> EndsLine(s)
  }

  lemma {:induction false} BlanksExtend(s: string, x: string)
    requires Joint(s, x)
    ensures SkipBlanks(s + x) == SkipBlanks(s) + x && Tail(SkipBlanks(s), s)
    decreases |s|
  {
    if s == "" {
      assert s + x == x && SkipBlanks(x) == x;
    } else {
      assert (s + x)[0] == s[0] && (s + x)[1..] == s[1..] + x;
      if Blank(s[0]) {
        BlanksExtend(s[1..], x);
      }
    }
  }

  lemma {:induction false} SkipLineExtend(s: string, x: string)
    requires SkipLine(s) == "" && Joint(s, x)
    ensures SkipLine(s + x) == Onward(s, x)
    decreases |s|
  {
    if s == "" {
      assert s + x == x;
    } else {
      assert (s + x)[0] == s[0] && (s + x)[1..] == s[1..] + x;
      if s[0] == '\n' {
        assert s[1..] == "" && "" + x == x;
      } else {
        SkipLineExtend(s[1..], x);
      }
    }
  }

  lemma {:induction false} LastLine(s: string)
    requires '\n' !in s
    ensures SkipLine(s) == ""
    decreases |s|
  {
    if s != "" {
      LastLine(s[1..]);
    }
  }

  lemma NameLenIs(name: string, x: string)
    requires (forall i | 0 <= i < |name| :: NameChar(name[i])) && (x != "" ==> !NameChar(x[0]))
    ensures NameLen(name + x) == |name|
  {
    hide NameChar;
    assert forall i | 0 <= i < |name| :: (name + x)[i] == name[i];
    assert x != "" ==> (name + x)[|name|] == x[0];
  }

  lemma NameLenExtend(s: string, x: string)
    requires Joint(s, x)
    ensures NameLen(s + x) == NameLen(s) && Tail(s[NameLen(s)..], s)
  {
    var k := NameLen(s);
    assert k == |s| ==> s == "" || NameChar(s[|s| - 1]);
    assert s + x == s[..k] + (s[k..] + x);
    NameLenIs(s[..k], s[k..] + x);
  }

  lemma BareLenIs(s: string, x: string)
    requires (forall i | 0 <= i < |s| :: !EndsBare(s[i])) && x != "" && EndsBare(x[0])
    ensures BareLen(s + x) == |s|
  {
    hide EndsBare;
    assert forall i | 0 <= i < |s| :: (s + x)[i] == s[i];
    assert (s + x)[|s|] == x[0];
  }

  lemma BareLenExtend(s: string, x: string)
    requires Joint(s, x)
    ensures BareLen(s + x) == BareLen(s) && Tail(s[BareLen(s)..], s)
  {
    var k := BareLen(s);
    assert k == |s| ==> s == "" || !EndsBare(s[|s| - 1]);
    assert s + x == s[..k] + (s[k..] + x);
    BareLenIs(s[..k], s[k..] + x);
  }

  lemma EscapedExtend(s: string, x: string)
    requires s != "" && (EndsLine(s) || (x != "" && x[0] != 'n' && x[0] != 'r'))
    ensures Escaped(s + x) == Escaped(s)
  {
  }

  lemma Dropped(s: string, k: nat, x: string)
    requires k <= |s| && (k == |s| ==> !EndsLine(s))
    ensures Tail(s[k..], s) && (s + x)[k..] == s[k..] + x
  {
  }

  lemma {:induction false} QuotedExtend(quote: char, s: string, x: string)
    requires Joint(s, x) && quote != '\n'
    ensures ReadQuoted(quote, s + x).raw >= ReadQuoted(quote, s).raw
    ensures var v := ReadQuoted(quote, s);
            v.closed ==> ReadQuoted(quote, s + x) == v.(rest := v.rest + x) && Tail(v.rest, s)
    decreases |s|
  {
    if s != "" {
      EscapedExtend(s, x);
      assert (s + x)[0] == s[0] && (|s| > 1 ==> (s + x)[1] == s[1]);
      if quote == '"' && s[0] != quote && Escaped(s) {
        assert |s| == 2 ==> !EndsLine(s);
        hide EndsLine, Escaped;
        Dropped(s, 2, x);
        QuotedExtend(quote, s[2..], x);
      } else if |s| > 1 || s[0] != '\n' {
        assert |s| == 1 ==> !EndsLine(s);
        hide EndsLine, Escaped;
        Dropped(s, 1, x);
        if s[0] != quote {
          QuotedExtend(quote, s[1..], x);
        }
      }
    }
  }

  lemma ValueExtend(s: string, x: string)
    requires Joint(s, x)
    ensures ReadValue(s + x).raw >= ReadValue(s).raw
    ensures var v := ReadValue(s);
            v.closed ==> ReadValue(s + x) == v.(rest := v.rest + x) && Tail(v.rest, s)
  {
    hide Trimmed, ReadQuoted, BareLen;
    if s == "" {
      BareLenExtend(s, x);
      assert s + x == x && x[..0] == "" && x[0..] == x && BareLen("") == 0;
    } else if s[0] == '\'' || s[0] == '"' {
      assert (s + x)[1..] == s[1..] + x;
      QuotedExtend(s[0], s[1..], x);
    } else {
      BareLenExtend(s, x);
      var k := BareLen(s);
      assert (s + x)[..k] == s[..k] && (s + x)[k..] == s[k..] + x;
    }
  }

  /** How a turn on some lines alone turns out when more follows. */
  ghost predicate Extends(t: Turn, u: Turn, rest: string) {
    && (t.Refused? ==> u == t)
    && (t.Assign? ==> (t.closed ==> u == t.(rest := rest)) && (u.Assign? ==> u.name == t.name))
    && (t.Skipped? ==> u == Skipped(rest))
    && (t.AtEnd? ==> u == Skipped(rest))
  }

  /** The turn takes all of the text. */
  predicate TakesAll(t: Turn) {
    t.Assign? || t.Skipped? ==> t.rest == ""
  }

  lemma AssignmentExtends(name: string, c: string, x: string)
    requires Joint(c, x) && TakesAll(Assignment(name, c))
    ensures Extends(Assignment(name, c), Assignment(name, c + x), Onward(c, x))
  {
    hide ReadValue, SkipLine, CString, SkipBlanks;
    if c != "" && c[0] == '=' {
      assert (c + x)[1..] == c[1..] + x;
      BlanksExtend(c[1..], x);
      var d := SkipBlanks(c[1..]);
      ValueExtend(d, x);
      if ReadValue(d).closed && ReadValue(d).raw <= ValueMax {
        SkipLineExtend(ReadValue(d).rest, x);
      }
    }
  }

  lemma StatementExtends(b: string, x: string)
    requires Joint(b, x) && TakesAll(Statement(b))
    ensures Extends(Statement(b), Statement(b + x), Onward(b, x))
  {
    hide SkipBlanks, Assignment, NameLen;
    if b != "" && NameStart(b[0]) {
      var k := NameLen(b);
      NameLenExtend(b, x);
      assert (b + x)[..k] == b[..k] && (b + x)[k..] == b[k..] + x;
      BlanksExtend(b[k..], x);
      if k <= NameMax {
        AssignmentExtends(b[..k], SkipBlanks(b[k..]), x);
      }
    }
  }

  lemma ExportedExtend(a: string, x: string)
    requires Joint(a, x)
    ensures Exported(a + x) == Exported(a)
  {
    var y := a + x;
    assert forall i | 0 <= i < 6 :: "export"[i] != '\n';
    if |a| <= 6 && |y| >= 6 {
      if EndsLine(a) {
        assert y[..6][|a| - 1] == '\n';
      } else if |a| < 6 {
        assert y[..6][|a|] == '\n';
      }
    } else if |a| > 6 {
      assert y[..6] == a[..6];
    }
  }

  lemma TurnsExtend(u: string, x: string)
    requires Joint(u, x) && TakesAll(Turns(u))
    ensures Extends(Turns(u), Turns(u + x), Onward(u, x))
  {
    hide SkipBlanks, SkipLine, Statement;
    BlanksExtend(u, x);
    var a := SkipBlanks(u);
    if a == "" {
      assert a + x == x;
      SkipLineExtend("", x);
      assert "" + x == x && SkipLine("") == "";
    } else if EndsBare(a[0]) {
      SkipLineExtend(a, x);
    } else {
      ExportedExtend(a, x);
      if Exported(a) {
        assert (a + x)[6..] == a[6..] + x;
        BlanksExtend(a[6..], x);
        StatementExtends(SkipBlanks(a[6..]), x);
      } else {
        StatementExtends(a, x);
      }
    }
  }

  /** A turn on a single line takes all of it. */
  lemma LineTakesAll(line: string)
    requires '\n' !in line
    ensures TakesAll(Turns(line))
  {
    hide NameLen, ReadValue, CString, SkipLine;
    var a := SkipBlanks(line);
    LastLine(a);
    var b := if Exported(a) then SkipBlanks(a[6..]) else a;
    if b != "" && NameLen(b) <= |b| {
      var c := SkipBlanks(b[NameLen(b)..]);
      if c != "" {
        LastLine(ReadValue(SkipBlanks(c[1..])).rest);
      }
    }
  }

  /** A value that starts on the line ends on it. */
  predicate Closed(line: string) {
    Turns(line).Assign? ==> Turns(line).closed
  }

  function PairsOn(u: string): seq<Pair> {
    if Turns(u).Assign? then [Pair(Turns(u).name, Turns(u).value)] else []
  }

  /** Some lines that are one turn, with the value closed if there is one. */
  predicate Whole(u: string) {
    !Turns(u).Refused? && Closed(u) && TakesAll(Turns(u))
  }

  function Ended(u: string): string {
    if EndsLine(u) then u else u + "\n"
  }

  lemma BlockTurn(u: string, rest: string)
    requires Whole(u) && u != ""
    ensures var t, y := Turns(u), Turns(Ended(u) + rest);
            if t.Assign? then y == t.(rest := rest) else y == Skipped(rest)
  {
    hide Turns;
    if EndsLine(u) {
      TurnsExtend(u, rest);
    } else {
      var x := "\n" + rest;
      assert (u + "\n") + rest == u + x && x[1..] == rest;
      TurnsExtend(u, x);
    }
  }

  lemma BlockAt(u: string, rest: string)
    requires Whole(u) && u != ""
    ensures Parse(Ended(u) + rest) == Contents(Parse(rest).status, PairsOn(u) + Parse(rest).pairs)
  {
    hide Turns, Whole, Ended;
    BlockTurn(u, rest);
    assert |Ended(u)| > 0 by {
      EndedIsNot(u);
    }
    var y := Ended(u) + rest;
    assert y != "";
    assert [] + Parse(rest).pairs == Parse(rest).pairs;
  }

  lemma EndedIsNot(u: string)
    ensures Ended(u) != ""
  {
  }

  lemma SegmentBlock(u: string)
    requires Whole(u) && u != ""
    ensures Segment(Ended(u), PairsOn(u))
  {
    hide Parse, Turns, Whole, Ended, PairsOn;
    forall rest: string
      ensures Parse(Ended(u) + rest) == Contents(Parse(rest).status, PairsOn(u) + Parse(rest).pairs)
    {
      BlockAt(u, rest);
    }
  }

  lemma SegmentLine(line: string)
    requires '\n' !in line && Closed(line) && !Turns(line).Refused?
    ensures Segment(line + "\n", PairsOn(line))
  {
    hide Turns, Segment;
    LineTakesAll(line);
    if line != "" {
      SegmentBlock(line);
    } else {
      SegmentBlank();
      assert Turns("") == AtEnd by {
        EmptyTurn();
      }
      assert "" + "\n" == "\n";
    }
  }

  lemma EmptyTurn()
    ensures Turns("") == AtEnd
  {
  }

  lemma SegmentBlank()
    ensures Segment("\n", [])
  {
    forall rest: string
      ensures Parse("\n" + rest) == Contents(Parse(rest).status, [] + Parse(rest).pairs)
    {
      var x := "\n" + rest;
      assert SkipBlanks(x) == x && SkipLine(x) == x[1..] == rest;
      assert Turns(x) == Skipped(rest);
    }
  }

  // ----- what the writer writes is read back -----

  predicate NoNul(s: string) {
    '\0' !in s
  }

  predicate ValidName(n: string) {
    n != "" && NameStart(n[0]) && |n| <= NameMax && forall i | 0 <= i < |n| :: NameChar(n[i])
  }

  predicate ValidEntry(e: Pair) {
    ValidName(e.name) && |e.value| <= ValueMax && NoNul(e.value)
  }

  lemma {:induction false} CStringWhole(s: string)
    requires NoNul(s)
    ensures CString(s) == s
    decreases |s|
  {
    if s != "" {
      CStringWhole(s[1..]);
      assert s == [s[0]] + s[1..];
    }
  }

  lemma HasEscapeTail(s: string)
    requires s != ""
    ensures HasEscape(s) <==> Escaped(s) || HasEscape(s[1..])
  {
    if HasEscape(s) {
      var i :| 0 <= i < |s| && Escaped(s[i..]);
      if i > 0 {
        assert s[1..][i - 1..] == s[i..];
      } else {
        assert s[0..] == s;
      }
    }
    if Escaped(s) {
      assert s[0..] == s;
    }
    if HasEscape(s[1..]) {
      var i :| 0 <= i < |s[1..]| && Escaped(s[1..][i..]);
      assert s[1..][i..] == s[i + 1..];
    }
  }

  /** Between quotes a value is read back exactly when it has neither that quote nor, for the double one, an escape. */
  lemma {:induction false} QuotedReadsBackIff(quote: char, value: string, rest: string)
    requires quote == '\'' || quote == '"'
    ensures ReadQuoted(quote, value + ([quote] + rest)) == Value(value, |value|, rest, true)
            <==> quote !in value && (quote == '"' ==> !HasEscape(value))
    decreases |value|
  {
    var x := [quote] + rest;
    var s := value + x;
    if value == "" {
      assert s == x && x[1..] == rest;
    } else {
      HasEscapeTail(value);
      EscapedExtend(value, x);
      assert s[0] == value[0] && s[1..] == value[1..] + x;
      if s[0] != quote && !(quote == '"' && Escaped(s)) {
        QuotedReadsBackIff(quote, value[1..], rest);
        var v := ReadQuoted(quote, s[1..]);
        assert ReadQuoted(quote, s) == Copied(s[0], v);
        assert value == [value[0]] + value[1..];
        assert ([s[0]] + v.text)[1..] == v.text;
      } else if s[0] != quote {
        assert ReadQuoted(quote, s).text[0] != '\\';
      }
    }
  }

  lemma PlainChars(c: char)
    requires Plain(c)
    ensures !EndsBare(c) && !Blank(c) && c != '\'' && c != '"'
  {
  }

  lemma BareReadsBack(value: string, x: string)
    requires AllPlain(value) && NextLine(x)
    ensures SkipBlanks(value + x) == value + x && ReadValue(value + x) == Value(value, |value|, x, true)
  {
    hide Plain, BareLen;
    forall i | 0 <= i < |value|
      ensures !EndsBare(value[i]) && !Blank(value[i]) && value[i] != '\'' && value[i] != '"'
    {
      PlainChars(value[i]);
    }
    BareLenIs(value, x);
    assert (value + x)[..|value|] == value && (value + x)[|value|..] == x;
    assert (value + x)[0] == if value == "" then x[0] else value[0];
  }

  lemma NotExported(name: string, x: string)
    requires ValidName(name)
    ensures !Exported(name + ("=" + x))
  {
    var a := name + ("=" + x);
    if |a| > 6 {
      if |name| < 6 {
        assert a[..6][|name|] == '=';
        assert forall i | 0 <= i < 6 :: "export"[i] != '=';
      } else if |name| > 6 {
        assert a[6] == name[6];
      }
    }
  }

  lemma TurnsOnAssignment(name: string, x: string)
    requires ValidName(name)
    ensures Turns(name + ("=" + x)) == Assignment(name, "=" + x)
  {
    hide Assignment, Exported, NameLen;
    var y := "=" + x;
    var a := name + y;
    assert a[0] == name[0] && !Blank(a[0]) && !EndsBare(a[0]);
    assert SkipBlanks(a) == a && SkipBlanks(y) == y;
    NotExported(name, x);
    NameLenIs(name, y);
    assert a[..|name|] == name && a[|name|..] == y;
    assert Turns(a) == Statement(a);
  }

  lemma QuotedShape(q: char, value: string, x: string)
    ensures var y := [q] + value + [q] + x; y[0] == q && y[1..] == value + ([q] + x)
  {
  }

  lemma ValueReadsBack(value: string, x: string)
    requires !FormFor(value).NoForm? && NextLine(x)
    ensures var y := ValueText(value) + x; SkipBlanks(y) == y && ReadValue(y) == Value(value, |value|, x, true)
  {
    hide AllPlain, HasEscape, BareLen, ReadQuoted;
    if FormFor(value).Bare? {
      BareReadsBack(value, x);
    } else {
      var q := FormFor(value).quote;
      var y := ValueText(value) + x;
      QuotedReadsBackIff(q, value, x);
      QuotedShape(q, value, x);
    }
  }

  lemma SegmentAssignment(e: Pair)
    requires ValidEntry(e) && !FormFor(e.value).NoForm?
    ensures Segment(AssignmentText(e), [e])
  {
    hide FormFor;
    var a := AssignmentText(e);
    forall rest: string
      ensures Parse(a + rest) == Contents(Parse(rest).status, [e] + Parse(rest).pairs)
    {
      AssignmentTurn(e, rest);
    }
  }

  lemma AssignmentShape(e: Pair, rest: string)
    ensures AssignmentText(e) + rest == e.name + ("=" + (ValueText(e.value) + ("\n" + rest)))
  {
    hide ValueText;
    var v := ValueText(e.value);
    assert (v + "\n") + rest == v + ("\n" + rest);
    assert ("=" + (v + "\n")) + rest == "=" + ((v + "\n") + rest);
  }

  lemma AssignmentTurn(e: Pair, rest: string)
    requires ValidEntry(e) && !FormFor(e.value).NoForm?
    ensures Turns(AssignmentText(e) + rest) == Assign(e.name, e.value, rest, true)
  {
    hide FormFor, ReadValue, Turns, SkipBlanks, SkipLine, AssignmentText, ValueText;
    var x := "\n" + rest;
    var y := ValueText(e.value) + x;
    AssignmentShape(e, rest);
    TurnsOnAssignment(e.name, y);
    assert ("=" + y)[1..] == y;
    ValueReadsBack(e.value, x);
    CStringWhole(e.value);
    LastLine("");
    SkipLineExtend("", x);
    assert "" + x == x && x[1..] == rest;
  }

  lemma SegmentComment(text: string)
    requires '\n' !in text
    ensures Segment(("#" + text) + "\n", [])
  {
    hide SkipLine;
    var line := "#" + text;
    assert SkipBlanks(line) == line;
    SegmentLine(line);
  }

  lemma SegmentUnderBlank(text: string)
    requires '\n' !in text
    ensures Segment("\n" + (("#" + text) + "\n"), [])
  {
    hide Segment;
    SegmentComment(text);
    SegmentBlank();
    SegmentConcat("\n", [], ("#" + text) + "\n", []);
    var none: seq<Pair> := [];
    assert none + none == none;
  }

  lemma HeadingIsOneLine()
    ensures '\n' !in HeadingText
  {
  }

  lemma SegmentHeading(out: string)
    ensures Segment(Heading(out), [])
  {
    hide Segment;
    HeadingIsOneLine();
    SegmentComment(HeadingText);
    SegmentUnderBlank(HeadingText);
  }

  // ----- the existing file, line by line -----

  lemma {:induction false} LineSplit(s: string)
    requires s != ""
    ensures var line := FirstLine(s);
            if line == s then SkipLine(s) == "" else s == line + "\n" + SkipLine(s)
    decreases |s|
  {
    if s[0] != '\n' {
      if |s| > 1 {
        LineSplit(s[1..]);
      }
      assert s == [s[0]] + s[1..];
    }
  }

  lemma ParseLine(s: string)
    requires s != "" && Closed(FirstLine(s)) && Parse(s).status.Fine?
    ensures !Turns(FirstLine(s)).Refused? && Parse(SkipLine(s)).status.Fine?
    ensures Parse(s).pairs == PairsOn(FirstLine(s)) + Parse(SkipLine(s)).pairs
  {
    hide Turns, FirstLine, SkipLine;
    var line, rest := FirstLine(s), SkipLine(s);
    LineSplit(s);
    var x := "\n" + rest;
    LineTakesAll(line);
    TurnsExtend(line, x);
    assert x[1..] == rest;
    if line != s {
      assert s == line + x;
    }
  }

  /** On a line the loader accepts, the writer sees the assignment unless `export` hides it. */
  lemma SameName(line: string)
    requires !Turns(line).Refused?
    ensures NameOn(line) == if Turns(line).Assign? && !Exported(SkipBlanks(line)) then Some(Turns(line).name) else None
  {
    hide NameLen, ReadValue, CString;
    var a := SkipBlanks(line);
    if a != "" && !EndsBare(a[0]) && Exported(a) {
      assert a == "export" + a[6..];
      ExportIsAName();
      NameLenIs("export", a[6..]);
    }
  }

  lemma ExportIsAName()
    ensures forall i | 0 <= i < 6 :: NameChar("export"[i])
    ensures NameStart("export"[0])
  {
  }

  /** The lines of the assignment that a text starts with. */
  function Block(s: string): (u: string)
    ensures u <= s
  {
    if Turns(s).Assign? then s[..|s| - |Turns(s).rest|] else ""
  }

  /** The writer replaces none of the lines. */
  predicate Untouched(u: string, entries: seq<Pair>, written: seq<bool>)
    requires |written| == |entries|
    decreases |u|
  {
    u == "" || (Assigned(FirstLine(u), entries, written) == |entries| && Untouched(SkipLine(u), entries, written))
  }

  /** A value over several lines: it is closed, up to the end of a line or of the text, and the writer leaves it alone. */
  predicate Spans(s: string, u: string, entries: seq<Pair>, written: seq<bool>)
    requires |written| == |entries|
  {
    && u != "" && Turns(u).Assign? && Whole(u) && (EndsLine(u) || u == s)
    && Untouched(u, entries, written)
  }

  /** The flags behind a line. */
  function Marked(line: string, entries: seq<Pair>, written: seq<bool>): (w: seq<bool>)
    requires |written| == |entries|
    ensures |w| == |entries|
  {
    var k := Assigned(line, entries, written);
    if k < |entries| then written[k := true] else written
  }

  /** Every value ends on the line it starts on, or the writer replaces none of the lines it takes. */
  predicate Orderly(s: string, entries: seq<Pair>, written: seq<bool>)
    requires |written| == |entries|
    decreases |s|
  {
    || s == ""
    || (Closed(FirstLine(s)) && Orderly(SkipLine(s), entries, Marked(FirstLine(s), entries, written)))
    || (!Closed(FirstLine(s)) && Spans(s, Block(s), entries, written) && Orderly(s[|Block(s)|..], entries, written))
  }

  /** As the writer starts, with nothing written. */
  predicate OrderlyFor(existing: string, entries: seq<Pair>) {
    Orderly(existing, entries, seq(|entries|, _ => false))
  }

  predicate Names(entries: seq<Pair>, n: string) {
    exists k | 0 <= k < |entries| :: entries[k].name == n
  }

  predicate Distinct(entries: seq<Pair>) {
    forall i, j | 0 <= i < j < |entries| :: entries[i].name != entries[j].name
  }

  // ----- the first assignment of a name is the one that is read -----

  function First(ps: seq<Pair>, n: string): Option<string>
    decreases |ps|
  {
    if ps == [] then None else if ps[0].name == n then Some(ps[0].value) else First(ps[1..], n)
  }

  lemma {:induction false} FirstConcat(ps: seq<Pair>, qs: seq<Pair>, n: string)
    ensures First(ps + qs, n) == if First(ps, n).Some? then First(ps, n) else First(qs, n)
    decreases |ps|
  {
    if ps == [] {
      assert ps + qs == qs;
    } else {
      FirstConcat(ps[1..], qs, n);
      assert (ps + qs)[1..] == ps[1..] + qs;
    }
  }

  lemma FirstOf(p: Pair, n: string)
    ensures First([p], n) == if p.name == n then Some(p.value) else None
  {
    assert [p][1..] == [];
  }

  /** An assignment in a file, and whether `export` stands before it. */
  datatype Item = Item(value: string, name: string, exported: bool)

  function ItemsOn(u: string): seq<Item> {
    if Turns(u).Assign? then [Item(Turns(u).value, Turns(u).name, Exported(SkipBlanks(u)))] else []
  }

  function Items(s: string): seq<Item>
    decreases |s|
  {
    if s == "" then []
    else if Closed(FirstLine(s)) then ItemsOn(FirstLine(s)) + Items(SkipLine(s))
    else if Block(s) == "" then []
    else ItemsOn(Block(s)) + Items(s[|Block(s)|..])
  }

  /** The first assignment of a name. */
  function FirstItem(xs: seq<Item>, n: string): (r: Option<Item>)
    ensures r.Some? ==> r.value in xs && r.value.name == n
    decreases |xs|
  {
    if xs == [] then None else if xs[0].name == n then Some(xs[0]) else FirstItem(xs[1..], n)
  }

  function ValueOf(x: Option<Item>): Option<string> {
    if x.Some? then Some(x.value.value) else None
  }

  lemma {:induction false} FirstItemConcat(xs: seq<Item>, ys: seq<Item>, n: string)
    ensures FirstItem(xs + ys, n) == if FirstItem(xs, n).Some? then FirstItem(xs, n) else FirstItem(ys, n)
    decreases |xs|
  {
    if xs == [] {
      assert xs + ys == ys;
    } else {
      FirstItemConcat(xs[1..], ys, n);
      assert (xs + ys)[1..] == xs[1..] + ys;
    }
  }

  lemma FirstOn(line: string, n: string)
    ensures First(PairsOn(line), n) == ValueOf(FirstItem(ItemsOn(line), n))
    ensures FirstItem(ItemsOn(line), n) == if ItemsOn(line) != [] && ItemsOn(line)[0].name == n then Some(ItemsOn(line)[0]) else None
  {
    hide Turns, Exported, SkipBlanks;
    if Turns(line).Assign? {
      FirstOf(PairsOn(line)[0], n);
      assert ItemsOn(line)[1..] == [];
    }
  }

  lemma ParseBlock(s: string, u: string, entries: seq<Pair>, written: seq<bool>)
    requires |written| == |entries| && u <= s && Spans(s, u, entries, written) && Parse(s).status.Fine?
    ensures Parse(s[|u|..]).status.Fine? && Parse(s).pairs == PairsOn(u) + Parse(s[|u|..]).pairs
  {
    hide Parse, Turns, Untouched, Closed, TakesAll;
    var rest := s[|u|..];
    assert s == u + rest;
    if EndsLine(u) {
      BlockAt(u, rest);
    } else {
      assert rest == "";
      NothingParsed();
      ParseLast(u);
    }
  }

  lemma ParseLast(u: string)
    requires u != "" && Turns(u).Assign? && TakesAll(Turns(u))
    ensures Parse(u) == Contents(Fine, PairsOn(u))
  {
    hide Turns;
    NothingParsed();
  }

  /** Reading a file gives a name the value of its first assignment. */
  lemma {:induction false} ParseIsItems(s: string, entries: seq<Pair>, written: seq<bool>, n: string)
    requires |written| == |entries| && Parse(s).status.Fine? && Orderly(s, entries, written)
    ensures First(Parse(s).pairs, n) == ValueOf(FirstItem(Items(s), n))
    decreases |s|
  {
    hide Parse, Turns, FirstLine, SkipLine, First, FirstItem, Closed, PairsOn, ItemsOn, Block, Whole, Untouched, Assigned;
    if s == "" {
      NothingParsed();
      FirstNone(n);
      NoItem(n);
    } else {
      var closed := Closed(FirstLine(s));
      var u := if closed then FirstLine(s) else Block(s);
      var rest := if closed then SkipLine(s) else s[|u|..];
      if closed {
        ParseLine(s);
      } else {
        ParseBlock(s, u, entries, written);
      }
      ParseIsItems(rest, entries, if closed then Marked(u, entries, written) else written, n);
      FirstConcat(PairsOn(u), Parse(rest).pairs, n);
      FirstItemConcat(ItemsOn(u), Items(rest), n);
      FirstOn(u, n);
    }
  }

  lemma FirstNone(n: string)
    ensures First([], n) == None
  {
  }

  lemma NoItem(n: string)
    ensures FirstItem([], n) == None
  {
  }

  function Get(env: Env, n: string): Option<string> {
    if n in env then Some(env[n]) else None
  }

  lemma {:induction false} SetAllGets(env: Env, ps: seq<Pair>, n: string)
    ensures Get(SetAll(env, ps), n) == if n in env then Some(env[n]) else First(ps, n)
    decreases |ps|
  {
    if ps != [] {
      SetAllGets(SetIfAbsent(env, ps[0]), ps[1..], n);
    }
  }

  /** The first assignment of the name is one that the writer does not see. */
  predicate Hidden(xs: seq<Item>, n: string) {
    FirstItem(xs, n).Some? && FirstItem(xs, n).value.exported
  }

  /** What the file read so far must answer for an entry, `xs` being the assignments passed in the old one. */
  ghost predicate Answers(e: Pair, written: bool, got: Option<string>, xs: seq<Item>) {
    if Hidden(xs, e.name) then got == ValueOf(FirstItem(xs, e.name))
    else if FirstItem(xs, e.name).Some? || written then written && got == Some(e.value)
    else got == None
  }

  /** `qs`, written so far, answers for the entries, and for every other name as the old file did. */
  ghost predicate Agrees(entries: seq<Pair>, written: seq<bool>, qs: seq<Pair>, xs: seq<Item>)
    requires |written| == |entries|
  {
    && (forall k | 0 <= k < |entries| :: Answers(entries[k], written[k], First(qs, entries[k].name), xs))
    && (forall n: string | !Names(entries, n) :: First(qs, n) == ValueOf(FirstItem(xs, n)))
  }

  /** While lines are rewritten only names that were met are written. */
  ghost predicate OnlyMet(entries: seq<Pair>, written: seq<bool>, xs: seq<Item>)
    requires |written| == |entries|
  {
    forall k | 0 <= k < |entries| && written[k] :: FirstItem(xs, entries[k].name).Some?
  }

  /** Text that is copied: if the writer would see its assignment, that entry is written already. */
  lemma CopyKeeps(entries: seq<Pair>, written: seq<bool>, qs: seq<Pair>, xs: seq<Item>, u: string)
    requires |written| == |entries| && Agrees(entries, written, qs, xs) && OnlyMet(entries, written, xs)
    requires Turns(u).Assign? && !Exported(SkipBlanks(u)) ==>
               forall k | 0 <= k < |entries| && entries[k].name == Turns(u).name :: written[k]
    ensures Agrees(entries, written, qs + PairsOn(u), xs + ItemsOn(u)) && OnlyMet(entries, written, xs + ItemsOn(u))
  {
    hide Turns, First, FirstItem, Exported, SkipBlanks, PairsOn;
    var on, item := PairsOn(u), ItemsOn(u);
    forall n: string
      ensures First(qs + on, n) == if First(qs, n).Some? then First(qs, n) else ValueOf(FirstItem(item, n))
      ensures FirstItem(xs + item, n) == if FirstItem(xs, n).Some? then FirstItem(xs, n) else FirstItem(item, n)
      ensures FirstItem(item, n) == if item != [] && item[0].name == n then Some(item[0]) else None
    {
      FirstConcat(qs, on, n);
      FirstItemConcat(xs, item, n);
      FirstOn(u, n);
    }
  }

  lemma CopyLineKeeps(entries: seq<Pair>, written: seq<bool>, qs: seq<Pair>, xs: seq<Item>, line: string)
    requires |written| == |entries| && Agrees(entries, written, qs, xs) && OnlyMet(entries, written, xs)
    requires !Turns(line).Refused? && Assigned(line, entries, written) == |entries|
    ensures Agrees(entries, written, qs + PairsOn(line), xs + ItemsOn(line)) && OnlyMet(entries, written, xs + ItemsOn(line))
  {
    hide Turns, NameOn, Exported, SkipBlanks, PairsOn, ItemsOn, Agrees, OnlyMet;
    SameName(line);
    CopyKeeps(entries, written, qs, xs, line);
  }

  // ----- values over several lines are copied whole -----

  lemma {:induction false} LineBefore(u: string, rest: string)
    requires u != "" && (EndsLine(u) || rest == "")
    ensures FirstLine(u + rest) == FirstLine(u) && SkipLine(u + rest) == SkipLine(u) + rest
    decreases |u|
  {
    assert (u + rest)[0] == u[0] && (u + rest)[1..] == u[1..] + rest;
    if u[0] != '\n' {
      if |u| > 1 {
        LineBefore(u[1..], rest);
      } else {
        assert u[1..] == "" && rest == "";
      }
    }
  }

  lemma EndedLines(u: string)
    requires u != ""
    ensures SkipLine(u) == "" ==> Ended(u) == FirstLine(u) + "\n"
    ensures SkipLine(u) != "" ==> Tail(SkipLine(u), u) && Ended(u) == FirstLine(u) + "\n" + Ended(SkipLine(u))
  {
    hide FirstLine, SkipLine;
    LineSplit(u);
    var line, more := FirstLine(u), SkipLine(u);
    if line == u {
      assert u[|u| - 1] in u;
    } else if more == "" {
      assert line + "\n" + more == line + "\n";
    } else {
      assert u[|u| - 1] == more[|more| - 1];
    }
  }

  lemma LineOfBlock(u: string, rest: string)
    requires u != "" && (EndsLine(u) || rest == "")
    ensures FirstLine(u + rest) == FirstLine(u) && SkipLine(u + rest) == SkipLine(u) + rest
    ensures SkipLine(u) == "" ==> Ended(u) == FirstLine(u) + "\n"
    ensures SkipLine(u) != "" ==> Tail(SkipLine(u), u) && Ended(u) == FirstLine(u) + "\n" + Ended(SkipLine(u))
  {
    hide FirstLine, SkipLine, Ended;
    LineBefore(u, rest);
    EndedLines(u);
  }

  /** One line of it. */
  lemma LineIsCopied(u: string, rest: string, entries: seq<Pair>, written: seq<bool>, out: string)
    requires |written| == |entries| && u != "" && (EndsLine(u) || rest == "")
    requires Assigned(FirstLine(u), entries, written) == |entries| && Rewrite(u + rest, entries, written, out).out.Text?
    ensures |out + FirstLine(u) + "\n"| <= FileMax
    ensures Rewrite(u + rest, entries, written, out) == Rewrite(SkipLine(u) + rest, entries, written, out + FirstLine(u) + "\n")
  {
    hide Assigned, FirstLine, SkipLine, EndsLine;
    LineBefore(u, rest);
  }

  lemma {:induction false} BlockIsCopied(u: string, rest: string, entries: seq<Pair>, written: seq<bool>, out: string)
    requires |written| == |entries| && u != "" && (EndsLine(u) || rest == "") && Untouched(u, entries, written)
    requires Rewrite(u + rest, entries, written, out).out.Text?
    ensures |out + Ended(u)| <= FileMax
    ensures Rewrite(u + rest, entries, written, out) == Rewrite(rest, entries, written, out + Ended(u))
    decreases |u|
  {
    hide Assigned, FirstLine, SkipLine, Ended, EndsLine, Rewrite;
    LineIsCopied(u, rest, entries, written, out);
    EndedLines(u);
    var line, more := FirstLine(u), SkipLine(u);
    if more == "" {
      assert more + rest == rest && out + Ended(u) == out + line + "\n";
    } else {
      assert out + Ended(u) == (out + line + "\n") + Ended(more);
      BlockIsCopied(more, rest, entries, written, out + line + "\n");
    }
  }

  /** The writer sees the name of an assignment that goes over several lines on its first line. */
  lemma NameOfBlock(s: string, u: string, entries: seq<Pair>, written: seq<bool>)
    requires |written| == |entries| && u != "" && u <= s && Spans(s, u, entries, written) && !Closed(FirstLine(s))
    ensures !Exported(SkipBlanks(u)) ==> forall k | 0 <= k < |entries| && entries[k].name == Turns(u).name :: written[k]
  {
    hide Turns, NameOn;
    var line := FirstLine(u);
    FirstOfBlock(s, u);
    LineSplit(u);
    LineTakesAll(line);
    if line != u {
      var x := "\n" + SkipLine(u);
      assert u == line + x;
      TurnsExtend(line, x);
      BlanksExtend(line, x);
      ExportedExtend(SkipBlanks(line), x);
    }
    SameName(line);
  }

  lemma FirstOfBlock(s: string, u: string)
    requires u != "" && u <= s && (EndsLine(u) || u == s)
    ensures FirstLine(u) == FirstLine(s)
  {
    var rest := s[|u|..];
    assert s == u + rest;
    LineOfBlock(u, rest);
  }

  lemma ReplaceKeeps(entries: seq<Pair>, written: seq<bool>, qs: seq<Pair>, xs: seq<Item>, line: string)
    requires |written| == |entries| && Agrees(entries, written, qs, xs) && OnlyMet(entries, written, xs) && Distinct(entries)
    requires !Turns(line).Refused? && Assigned(line, entries, written) < |entries|
    ensures var k := Assigned(line, entries, written);
            && Agrees(entries, written[k := true], qs + [entries[k]], xs + ItemsOn(line))
            && OnlyMet(entries, written[k := true], xs + ItemsOn(line))
  {
    hide Turns, NameOn, First, FirstItem, Exported, SkipBlanks;
    SameName(line);
    var k := Assigned(line, entries, written);
    var item := ItemsOn(line);
    assert item[0].name == entries[k].name && !item[0].exported && item == [item[0]];
    forall n: string
      ensures First(qs + [entries[k]], n) == if First(qs, n).Some? then First(qs, n) else First([entries[k]], n)
      ensures First([entries[k]], n) == if entries[k].name == n then Some(entries[k].value) else None
      ensures FirstItem(xs + item, n) == if FirstItem(xs, n).Some? then FirstItem(xs, n) else FirstItem(item, n)
      ensures FirstItem(item, n) == if item[0].name == n then Some(item[0]) else None
    {
      FirstConcat(qs, [entries[k]], n);
      FirstOf(entries[k], n);
      FirstItemConcat(xs, item, n);
      FirstOn(line, n);
    }
  }

  predicate ValidEntries(entries: seq<Pair>) {
    Distinct(entries) && forall k | 0 <= k < |entries| :: ValidEntry(entries[k])
  }

  lemma {:induction false} RewriteKeeps(s: string, entries: seq<Pair>, written: seq<bool>, out: string, qs: seq<Pair>, xs: seq<Item>)
    returns (rs: seq<Pair>)
    requires |written| == |entries| && ValidEntries(entries) && |out| <= FileMax
    requires Parse(s).status.Fine? && Orderly(s, entries, written)
    requires Segment(out, qs) && Agrees(entries, written, qs, xs) && OnlyMet(entries, written, xs)
    requires Rewrite(s, entries, written, out).out.Text?
    ensures var r := Rewrite(s, entries, written, out);
            |r.out.text| <= FileMax && Segment(r.out.text, rs) && Agrees(entries, r.written, rs, xs + Items(s))
    decreases |s|, 1
  {
    hide Parse, Turns, FirstLine, SkipLine, Assigned, Segment, Agrees, OnlyMet, FormFor, Closed, PairsOn, ItemsOn, Block, Whole, Untouched;
    if s == "" {
      assert xs + Items(s) == xs;
      return qs;
    }
    if !Closed(FirstLine(s)) {
      rs := RewriteKeepsBlock(s, entries, written, out, qs, xs);
      return;
    }
    var line, rest := FirstLine(s), SkipLine(s);
    ParseLine(s);
    var xs1 := xs + ItemsOn(line);
    assert xs1 + Items(rest) == xs + Items(s);
    var k := Assigned(line, entries, written);
    if k < |entries| {
      ReplaceKeeps(entries, written, qs, xs, line);
      SegmentAssignment(entries[k]);
      SegmentConcat(out, qs, AssignmentText(entries[k]), [entries[k]]);
      rs := RewriteKeeps(rest, entries, written[k := true], out + AssignmentText(entries[k]), qs + [entries[k]], xs1);
    } else {
      CopyLineKeeps(entries, written, qs, xs, line);
      SegmentLine(line);
      SegmentConcat(out, qs, line + "\n", PairsOn(line));
      assert out + line + "\n" == out + (line + "\n");
      rs := RewriteKeeps(rest, entries, written, out + line + "\n", qs + PairsOn(line), xs1);
    }
  }

  lemma {:induction false} RewriteKeepsBlock(s: string, entries: seq<Pair>, written: seq<bool>, out: string, qs: seq<Pair>, xs: seq<Item>)
    returns (rs: seq<Pair>)
    requires |written| == |entries| && ValidEntries(entries) && s != "" && !Closed(FirstLine(s))
    requires Parse(s).status.Fine? && Orderly(s, entries, written)
    requires Segment(out, qs) && Agrees(entries, written, qs, xs) && OnlyMet(entries, written, xs)
    requires Rewrite(s, entries, written, out).out.Text?
    ensures var r := Rewrite(s, entries, written, out);
            |r.out.text| <= FileMax && Segment(r.out.text, rs) && Agrees(entries, r.written, rs, xs + Items(s))
    decreases |s|, 0
  {
    hide Parse, Turns, Rewrite, FirstLine, SkipLine, Segment, Agrees, OnlyMet, Closed, PairsOn, ItemsOn, Block, Whole, Untouched, Exported, SkipBlanks, Assigned;
    var u := Block(s);
    var rest := s[|u|..];
    assert s == u + rest;
    ParseBlock(s, u, entries, written);
    NameOfBlock(s, u, entries, written);
    BlockIsCopied(u, rest, entries, written, out);
    SegmentBlock(u);
    SegmentConcat(out, qs, Ended(u), PairsOn(u));
    CopyKeeps(entries, written, qs, xs, u);
    var xs1 := xs + ItemsOn(u);
    assert xs1 + Items(rest) == xs + Items(s);
    rs := RewriteKeeps(rest, entries, written, out + Ended(u), qs + PairsOn(u), xs1);
  }

  lemma NothingParsed()
    ensures Parse("") == Contents(Fine, [])
  {
  }

  // ----- the answers that no line had -----

  lemma {:induction false} RestKeeps(entries: seq<Pair>, written: seq<bool>, i: nat, heading: bool, out: string, qs: seq<Pair>, xs: seq<Item>)
    returns (rs: seq<Pair>)
    requires |written| == |entries| && i <= |entries| && ValidEntries(entries) && |out| <= FileMax
    requires Segment(out, qs) && Agrees(entries, written, qs, xs)
    requires forall k | 0 <= k < i :: written[k]
    requires AppendRest(entries, written, i, heading, out).Text?
    ensures var t := AppendRest(entries, written, i, heading, out).text; |t| <= FileMax && Segment(t, rs)
    ensures Agrees(entries, seq(|entries|, _ => true), rs, xs)
    decreases |entries| - i
  {
    hide Segment, Agrees, FormFor, Heading, AssignmentText;
    if i == |entries| {
      assert written == seq(|entries|, _ => true);
      return qs;
    }
    if written[i] {
      rs := RestKeeps(entries, written, i + 1, heading, out, qs, xs);
      return;
    }
    var head := if heading then out else out + Heading(out);
    if !heading {
      SegmentHeading(out);
      SegmentConcat(out, qs, Heading(out), []);
      assert qs + [] == qs;
    }
    SegmentAssignment(entries[i]);
    SegmentConcat(head, qs, AssignmentText(entries[i]), [entries[i]]);
    AnswerKeeps(entries, written, qs, xs, i);
    RestSteps(entries, written, i, heading, out);
    rs := RestKeeps(entries, written[i := true], i + 1, true, head + AssignmentText(entries[i]), qs + [entries[i]], xs);
  }

  lemma AnswerKeeps(entries: seq<Pair>, written: seq<bool>, qs: seq<Pair>, xs: seq<Item>, k: nat)
    requires |written| == |entries| && Agrees(entries, written, qs, xs) && Distinct(entries)
    requires k < |entries| && !written[k]
    ensures Agrees(entries, written[k := true], qs + [entries[k]], xs)
  {
    hide First, FirstItem;
    forall n: string
      ensures First(qs + [entries[k]], n) == if First(qs, n).Some? then First(qs, n) else First([entries[k]], n)
      ensures First([entries[k]], n) == if entries[k].name == n then Some(entries[k].value) else None
    {
      FirstConcat(qs, [entries[k]], n);
      FirstOf(entries[k], n);
    }
  }

  /** Marking an entry once it has been appended changes nothing about the entries behind it. */
  lemma {:induction false} MarkedBehind(entries: seq<Pair>, written: seq<bool>, k: nat, i: nat, heading: bool, out: string)
    requires |written| == |entries| && k < i <= |entries|
    ensures AppendRest(entries, written[k := true], i, heading, out) == AppendRest(entries, written, i, heading, out)
    decreases |entries| - i
  {
    hide FormFor, Heading, AssignmentText;
    if i < |entries| {
      if written[i] {
        MarkedBehind(entries, written, k, i + 1, heading, out);
      } else if AppendAssignment(if heading then out else out + Heading(out), entries[i]).Text? {
        MarkedBehind(entries, written, k, i + 1, true, AppendAssignment(if heading then out else out + Heading(out), entries[i]).text);
      }
    }
  }

  lemma RestSteps(entries: seq<Pair>, written: seq<bool>, i: nat, heading: bool, out: string)
    requires |written| == |entries| && i < |entries| && !written[i]
    requires AppendRest(entries, written, i, heading, out).Text?
    ensures var head := if heading then out else out + Heading(out);
            && !FormFor(entries[i].value).NoForm? && |head + AssignmentText(entries[i])| <= FileMax
            && AppendRest(entries, written, i, heading, out) ==
               AppendRest(entries, written[i := true], i + 1, true, head + AssignmentText(entries[i]))
  {
    hide FormFor, Heading, AssignmentText;
    var head := if heading then out else out + Heading(out);
    MarkedBehind(entries, written, i, i + 1, true, head + AssignmentText(entries[i]));
  }

  // ----- the round trip -----

  lemma WrittenPairs(existing: string, entries: seq<Pair>) returns (rs: seq<Pair>)
    requires ValidEntries(entries) && Parse(existing).status.Fine? && OrderlyFor(existing, entries)
    requires Write(existing, entries).Text?
    ensures |Write(existing, entries).text| <= FileMax && Parse(Write(existing, entries).text) == Contents(Fine, rs)
    ensures Agrees(entries, seq(|entries|, _ => true), rs, Items(existing))
  {
    hide Parse, Rewrite, AppendRest, Segment, Orderly, Items, Agrees;
    var unwritten := seq(|entries|, _ => false);
    SegmentNothing();
    NothingYet(entries);
    var r := Rewrite(existing, entries, unwritten, "");
    var qs := RewriteKeeps(existing, entries, unwritten, "", [], []);
    assert [] + Items(existing) == Items(existing);
    rs := RestKeeps(entries, r.written, 0, false, r.out.text, qs, Items(existing));
    SegmentWhole(Write(existing, entries).text, rs);
  }

  lemma SegmentNothing()
    ensures Segment("", [])
  {
    hide Parse;
    forall rest: string
      ensures Parse("" + rest) == Contents(Parse(rest).status, [] + Parse(rest).pairs)
    {
      assert "" + rest == rest;
    }
  }

  lemma NothingYet(entries: seq<Pair>)
    ensures Agrees(entries, seq(|entries|, _ => false), [], []) && OnlyMet(entries, seq(|entries|, _ => false), [])
  {
  }

  /**
   * Loading a written file: what the environment had stays; every other name is what the file gave it
   * before; and an entry has the value it was written with, byte for byte, unless the file's first
   * assignment of its name is behind `export`, which the writer does not see: then it keeps that value.
   */
  lemma WriteThenLoad(existing: string, entries: seq<Pair>, env: Env)
    requires ValidEntries(entries) && Write(existing, entries).Text?
    requires Load(existing, env).0.Fine? && OrderlyFor(existing, entries)
    ensures var (status, after) := Load(Write(existing, entries).text, env);
            && status.Fine?
            && (forall n: string | n in env :: Get(after, n) == Some(env[n]))
            && (forall n: string | !Names(entries, n) :: Get(after, n) == Get(Load(existing, env).1, n))
            && (forall k | 0 <= k < |entries| && entries[k].name !in env ::
                  Get(after, entries[k].name) ==
                    if Hidden(Items(existing), entries[k].name) then Get(Load(existing, env).1, entries[k].name)
                    else Some(entries[k].value))
  {
    hide Parse, Write, First, FirstItem, SetAll, Orderly, Items, ValidEntry;
    var rs := WrittenPairs(existing, entries);
    var ps := Parse(existing).pairs;
    forall n: string
      ensures Get(SetAll(env, rs), n) == if n in env then Some(env[n]) else First(rs, n)
      ensures Get(SetAll(env, ps), n) == if n in env then Some(env[n]) else ValueOf(FirstItem(Items(existing), n))
    {
      SetAllGets(env, rs, n);
      SetAllGets(env, ps, n);
      ParseIsItems(existing, entries, seq(|entries|, _ => false), n);
    }
  }

  /** So every entry is read back if and only if no other value of its name stands first behind `export`. */
  lemma ReadBackIff(existing: string, entries: seq<Pair>, env: Env)
    requires ValidEntries(entries) && Write(existing, entries).Text?
    requires Load(existing, env).0.Fine? && OrderlyFor(existing, entries)
    ensures (forall k | 0 <= k < |entries| && entries[k].name !in env ::
               Get(Load(Write(existing, entries).text, env).1, entries[k].name) == Some(entries[k].value)) <==>
            (forall k | 0 <= k < |entries| && entries[k].name !in env && Hidden(Items(existing), entries[k].name) ::
               FirstItem(Items(existing), entries[k].name).value.value == entries[k].value)
  {
    hide Write, FirstItem, Orderly, Items, ValidEntries, Parse, SetAll;
    WriteThenLoad(existing, entries, env);
    forall k | 0 <= k < |entries| && entries[k].name !in env && Hidden(Items(existing), entries[k].name)
      ensures Get(Load(existing, env).1, entries[k].name) == ValueOf(FirstItem(Items(existing), entries[k].name))
    {
      var n := entries[k].name;
      SetAllGets(env, Parse(existing).pairs, n);
      ParseIsItems(existing, entries, seq(|entries|, _ => false), n);
    }
  }
}
