/**
 * Files that the writer, which goes by lines, and the loader, which goes by assignments, see
 * differently: what becomes of an entry that is written into one.
 */
module EnvCases {
  import opened Options
  import opened EnvFile
  import opened EnvRoundTrip

  // ----- reading the files below -----

  predicate PlainValue(v: string) {
    AllPlain(v) && |v| <= ValueMax
  }

  lemma PlainHas(v: string)
    requires AllPlain(v)
    ensures '\n' !in v && '\'' !in v && '"' !in v && NoNul(v)
    ensures FormFor(v) == Bare
  {
    forall i | 0 <= i < |v|
      ensures v[i] != '\n' && v[i] != '\'' && v[i] != '"' && v[i] != '\0'
    {
      PlainChars(v[i]);
    }
  }

  lemma NameHas(n: string)
    requires ValidName(n)
    ensures '\n' !in n && '\'' !in n && !Blank(n[0])
  {
    assert forall i | 0 <= i < |n| :: NameChar(n[i]);
  }

  lemma {:induction false} LineThen(line: string, rest: string)
    requires '\n' !in line
    ensures FirstLine(line + ("\n" + rest)) == line && SkipLine(line + ("\n" + rest)) == rest
    decreases |line|
  {
    var x := "\n" + rest;
    if line == "" {
      assert line + x == x && x[1..] == rest;
    } else {
      LineThen(line[1..], rest);
      assert (line + x)[0] == line[0] && (line + x)[1..] == line[1..] + x;
    }
  }

  lemma {:induction false} LineAlone(line: string)
    requires '\n' !in line
    ensures FirstLine(line) == line && SkipLine(line) == ""
    decreases |line|
  {
    if line != "" {
      LineAlone(line[1..]);
    }
  }

  lemma NameOnAssignment(name: string, x: string)
    requires ValidName(name)
    ensures NameOn(name + ("=" + x)) == Some(name)
  {
    hide NameLen;
    NameHas(name);
    var y := "=" + x;
    var a := name + y;
    assert a[0] == name[0] && SkipBlanks(a) == a && SkipBlanks(y) == y;
    NameLenIs(name, y);
    assert a[..|name|] == name && a[|name|..] == y;
  }

  /** A bare assignment at the end of a text. */
  lemma BareTurn(name: string, value: string)
    requires ValidName(name) && PlainValue(value)
    ensures Assignment(name, "=" + value) == Assign(name, value, "", true)
  {
    hide BareLen, SkipLine, CString, Plain;
    var y := "=" + value;
    assert y[1..] == value;
    PlainHas(value);
    CStringWhole(value);
    forall i | 0 <= i < |value|
      ensures !EndsBare(value[i]) && !Blank(value[i])
    {
      PlainChars(value[i]);
    }
    assert SkipBlanks(value) == value;
    assert BareLen(value) == |value|;
    assert value[..|value|] == value && value[|value|..] == "";
    LastLine("");
  }

  // ----- rewriting a line for a single entry -----

  lemma CopyStep(e: Pair, written: bool, line: string, rest: string, out: string)
    requires '\n' !in line && |out| + |line| <= 16384
    requires NameOn(line) == None || NameOn(line).value != e.name || written
    ensures Rewrite(line + ("\n" + rest), [e], [written], out) == Rewrite(rest, [e], [written], out + line + "\n")
  {
    hide NameOn, FirstLine, SkipLine;
    LineThen(line, rest);
    assert Assigned(line, [e], [written]) == 1;
  }

  lemma ReplaceStep(e: Pair, line: string, rest: string, out: string)
    requires '\n' !in line && NameOn(line) == Some(e.name) && |out| <= 16384 && ValidName(e.name) && PlainValue(e.value)
    ensures Rewrite(line + ("\n" + rest), [e], [false], out) == Rewrite(rest, [e], [true], out + AssignmentText(e))
  {
    hide NameOn, FirstLine, SkipLine, FormFor, AssignmentText;
    LineThen(line, rest);
    PlainHas(e.value);
    AssignmentLength(e);
    assert Assigned(line, [e], [false]) == 0;
    assert [false][0 := true] == [true];
  }

  lemma RewriteEnds(e: Pair, written: bool, out: string)
    ensures Rewrite("", [e], [written], out) == Rewriting(Text(out), [written])
  {
  }

  // ----- behind `export` -----

  function ExportLine(name: string, value: string): string {
    "export " + (name + ("=" + value))
  }

  /** What stands behind `export` and a blank. */
  lemma ExportSkips(b: string)
    requires b != "" && !Blank(b[0])
    ensures var a := "export " + b; SkipBlanks(a) == a && Exported(a) && SkipBlanks(a[6..]) == b
  {
    var a := "export " + b;
    assert a[0] == 'e' && SkipBlanks(a) == a;
    assert a[..6] == "export" && a[6] == ' ';
    assert a[6..] == " " + b && (" " + b)[1..] == b;
    assert SkipBlanks(b) == b;
  }

  lemma BareStatement(name: string, value: string)
    requires ValidName(name) && PlainValue(value)
    ensures Statement(name + ("=" + value)) == Assign(name, value, "", true)
  {
    hide NameLen, Assignment;
    NameHas(name);
    var b := name + ("=" + value);
    NameLenIs(name, "=" + value);
    assert b[0] == name[0] && b[..|name|] == name && b[|name|..] == "=" + value && SkipBlanks("=" + value) == "=" + value;
    BareTurn(name, value);
  }

  lemma ExportTurn(name: string, value: string)
    requires ValidName(name) && PlainValue(value)
    ensures Turns(ExportLine(name, value)) == Assign(name, value, "", true)
    ensures Exported(SkipBlanks(ExportLine(name, value))) && '\n' !in ExportLine(name, value)
  {
    hide SkipBlanks, Statement;
    NameHas(name);
    PlainHas(value);
    var b := name + ("=" + value);
    assert b[0] == name[0];
    ExportSkips(b);
    BareStatement(name, value);
  }

  lemma HeadingLength(out: string)
    ensures |Heading(out)| <= 32
  {
    assert |HeadingText| == 29;
  }

  lemma AssignmentLength(e: Pair)
    requires ValidName(e.name) && PlainValue(e.value)
    ensures |AssignmentText(e)| <= NameMax + ValueMax + 2
  {
    hide FormFor;
    PlainHas(e.value);
  }

  /** A single entry goes below a file that does not have it. */
  lemma Appended(out: string, e: Pair)
    requires ValidName(e.name) && PlainValue(e.value) && |out| < 32768
    ensures AppendRest([e], [false], 0, false, out) == Text(out + Heading(out) + AssignmentText(e))
  {
    hide FormFor, AssignmentText, Heading;
    PlainHas(e.value);
    HeadingLength(out);
    AssignmentLength(e);
    var t := out + Heading(out) + AssignmentText(e);
    assert AppendAssignment(out + Heading(out), e) == Text(t);
    assert AppendRest([e], [false], 1, true, t) == Text(t);
  }

  lemma ExportFile(name: string, before: string)
    requires ValidName(name) && PlainValue(before)
    ensures var existing := ExportLine(name, before) + "\n";
            && Parse(existing) == Contents(Fine, [Pair(name, before)]) && |existing| < 32768
            && FirstLine(existing) == ExportLine(name, before) && SkipLine(existing) == ""
            && NameOn(ExportLine(name, before)) == None
  {
    hide Turns, Exported, SkipBlanks, NameOn, Parse;
    var line := ExportLine(name, before);
    ExportTurn(name, before);
    SegmentLine(line);
    SegmentWhole(line + "\n", [Pair(name, before)]);
    LineThen(line, "");
    assert line + ("\n" + "") == line + "\n";
    SameName(line);
  }

  lemma ExportWritten(name: string, before: string, answer: string)
    requires ValidName(name) && PlainValue(before) && PlainValue(answer)
    ensures var existing, e := ExportLine(name, before) + "\n", Pair(name, answer);
            && OrderlyFor(existing, [e]) && Items(existing) == [Item(before, name, true)]
            && Write(existing, [e]) == Text(existing + Heading(existing) + AssignmentText(e))
  {
    hide Turns, Exported, SkipBlanks, NameOn, Parse, FirstLine, SkipLine, ExportLine, Heading, AssignmentText, AppendRest;
    var line, e := ExportLine(name, before), Pair(name, answer);
    var existing := line + "\n";
    ExportFile(name, before);
    ExportTurn(name, before);
    assert seq(1, _ => false) == [false];
    assert Assigned(line, [e], [false]) == 1;
    assert "" + line + "\n" == existing;
    assert Rewrite(existing, [e], [false], "") == Rewrite("", [e], [false], existing);
    Appended(existing, e);
    assert Orderly("", [e], [false]);
    assert Items("") == [];
  }

  /** An `export` line for a name stays and comes first, so it is its value that is loaded and not the entry's. */
  lemma ExportWins(name: string, before: string, answer: string)
    requires ValidName(name) && PlainValue(before) && PlainValue(answer)
    ensures var existing, entries := ExportLine(name, before) + "\n", [Pair(name, answer)];
            && ValidEntries(entries) && OrderlyFor(existing, entries)
            && Write(existing, entries).Text? && Load(existing, map[]).0.Fine?
            && Get(Load(Write(existing, entries).text, map[]).1, name) == Some(before)
  {
    hide Turns, Parse, Write, Orderly, Items, ExportLine, FirstItem, SetAll;
    var existing, entries := ExportLine(name, before) + "\n", [Pair(name, answer)];
    PlainHas(answer);
    ExportFile(name, before);
    ExportWritten(name, before, answer);
    OneItem(Item(before, name, true));
    var none: Env := map[];
    WriteThenLoad(existing, entries, none);
    assert entries[0].name !in none;
    SetAllGets(map[], [Pair(name, before)], name);
    FirstOf(Pair(name, before), name);
  }

  lemma OneItem(x: Item)
    ensures FirstItem([x], x.name) == Some(x)
  {
  }

  /** Writing A=2 into a file that exports A=1 leaves A=1. */
  lemma ExportedA()
    ensures var existing, entries := "export A=1\n", [Pair("A", "2")];
            Write(existing, entries).Text? && Get(Load(Write(existing, entries).text, map[]).1, "A") == Some("1")
  {
    hide Write, Load, OrderlyFor, ValidEntries;
    assert NameStart('A') && NameChar('A') && Plain('1') && Plain('2');
    assert ExportLine("A", "1") + "\n" == "export A=1\n";
    ExportWins("A", "1", "2");
  }

  // ----- a line inside a value -----

  /** A value of three lines, the second of which looks like an assignment. */
  function Lookalike(name: string, value: string): string {
    "\n" + (name + ("=" + value)) + "\n"
  }

  lemma LookalikeForm(name: string, value: string)
    requires ValidName(name) && PlainValue(value)
    ensures FormFor(Lookalike(name, value)) == Quoted('\'') && NoNul(Lookalike(name, value))
    ensures '\n' !in name + ("=" + value)
  {
    var v := Lookalike(name, value);
    NameHas(name);
    PlainHas(value);
    assert v[0] == '\n' && !Plain('\n');
    forall i | 0 <= i < |name|
      ensures name[i] != '\0'
    {
      assert NameChar(name[i]);
    }
  }

  /** The lines of an assignment of such a value. */
  lemma LookalikeLines(a: string, name: string, value: string)
    requires ValidName(name) && PlainValue(value)
    ensures var rest := "'" + ("\n" + "");
            AssignmentText(Pair(a, Lookalike(name, value))) ==
              (a + ("=" + "'")) + ("\n" + ((name + ("=" + value)) + ("\n" + rest)))
  {
    hide FormFor;
    LookalikeForm(name, value);
    var l2 := name + ("=" + value);
    var v := Lookalike(name, value);
    assert ValueText(v) == "'" + v + "'";
    assert ("'" + v + "'") + "\n" == "'" + ("\n" + (l2 + ("\n" + ("'" + ("\n" + "")))));
    Reassociate(a, "'", "\n" + (l2 + ("\n" + ("'" + ("\n" + "")))));
  }

  lemma Reassociate(a: string, b: string, c: string)
    ensures a + ("=" + (b + c)) == (a + ("=" + b)) + c
  {
  }

  lemma QuoteIsNoName()
    ensures NameOn("'") == None
  {
    assert SkipBlanks("'") == "'";
  }

  lemma TouchedRewrite(a: string, e: Pair, before: string)
    requires ValidName(a) && ValidName(e.name) && a != e.name && PlainValue(before) && PlainValue(e.value)
    ensures Rewrite(AssignmentText(Pair(a, Lookalike(e.name, before))), [e], [false], "") ==
            Rewriting(Text(AssignmentText(Pair(a, Lookalike(e.name, e.value)))), [true])
  {
    hide FormFor, NameOn, AssignmentText, Lookalike, Rewrite;
    var l1, l2, l3 := a + ("=" + "'"), e.name + ("=" + before), "'";
    var s3 := l3 + ("\n" + "");
    LookalikeLines(a, e.name, before);
    LookalikeLines(a, e.name, e.value);
    LookalikeForm(e.name, before);
    NameHas(a);
    NameOnAssignment(a, "'");
    NameOnAssignment(e.name, before);
    QuoteIsNoName();
    AssignmentLength(e);
    var o1 := "" + l1 + "\n";
    CopyStep(e, false, l1, l2 + ("\n" + s3), "");
    ReplaceStep(e, l2, s3, o1);
    CopyStep(e, true, l3, "", o1 + AssignmentText(e));
    RewriteEnds(e, true, o1 + AssignmentText(e) + l3 + "\n");
    BareText(e);
    TouchedShape(l1, e.name, e.value);
  }

  lemma TouchedShape(l1: string, n: string, v: string)
    ensures ("" + l1 + "\n") + (n + ("=" + (v + "\n"))) + "'" + "\n" == l1 + ("\n" + ((n + ("=" + v)) + ("\n" + ("'" + ("\n" + "")))))
  {
  }

  lemma BareText(e: Pair)
    requires PlainValue(e.value)
    ensures AssignmentText(e) == e.name + ("=" + (e.value + "\n"))
  {
    PlainHas(e.value);
  }

  lemma LoadsOne(e: Pair)
    requires ValidEntry(e) && !FormFor(e.value).NoForm?
    ensures |AssignmentText(e)| <= FileMax && Load(AssignmentText(e), map[]) == (Fine, map[e.name := e.value])
  {
    hide FormFor, Parse;
    SegmentAssignment(e);
    SegmentWhole(AssignmentText(e), [e]);
    assert [e][1..] == [];
    assert SetAll(map[], [e]) == SetAll(SetIfAbsent(map[], e), []);
  }

  /**
   * A line inside another name's value that looks like an assignment of the entry is taken for one: the
   * value is altered and the entry is not set, as long as what is written differs from what stood there.
   */
  lemma TouchedValue(a: string, e: Pair, before: string)
    requires ValidName(a) && ValidName(e.name) && a != e.name && PlainValue(before) && PlainValue(e.value)
    requires |e.name| + |before| + 3 <= ValueMax && |e.name| + |e.value| + 3 <= ValueMax
    ensures var existing := AssignmentText(Pair(a, Lookalike(e.name, before)));
            && Load(existing, map[]) == (Fine, map[a := Lookalike(e.name, before)])
            && Write(existing, [e]).Text?
            && Load(Write(existing, [e]).text, map[]) == (Fine, map[a := Lookalike(e.name, e.value)])
  {
    hide FormFor, AssignmentText, Rewrite, Load, NoNul;
    LookalikeForm(e.name, before);
    LookalikeForm(e.name, e.value);
    LoadsOne(Pair(a, Lookalike(e.name, before)));
    LoadsOne(Pair(a, Lookalike(e.name, e.value)));
    TouchedRewrite(a, e, before);
    assert seq(1, _ => false) == [false];
    var out := AssignmentText(Pair(a, Lookalike(e.name, e.value)));
    assert AppendRest([e], [true], 1, false, out) == Text(out);
  }

  /** B=2 written into a file whose value of A has a line B=1: A is altered and B is not set. */
  lemma TouchedA()
    ensures var existing, entries := "A='\nB=1\n'\n", [Pair("B", "2")];
            && Load(existing, map[]) == (Fine, map["A" := "\nB=1\n"])
            && Write(existing, entries).Text?
            && Load(Write(existing, entries).text, map[]) == (Fine, map["A" := "\nB=2\n"])
  {
    hide Load, Write, FormFor, ValueText;
    assert NameStart('A') && NameStart('B') && Plain('1') && Plain('2');
    assert Lookalike("B", "1") == "\nB=1\n" && Lookalike("B", "2") == "\nB=2\n";
    LookalikeLines("A", "B", "1");
    assert AssignmentText(Pair("A", "\nB=1\n")) == "A='\nB=1\n'\n";
    TouchedValue("A", Pair("B", "2"), "1");
  }

  // ----- a quote that is not closed -----

  lemma {:induction false} NeverClosed(s: string)
    requires '\'' !in s
    ensures ReadQuoted('\'', s) == Value(s, |s|, "", false)
    decreases |s|
  {
    if s != "" {
      NeverClosed(s[1..]);
      assert s == [s[0]] + s[1..];
    }
  }

  /** What stands behind an opening quote up to the end of the text is the value. */
  lemma OpenTurn(a: string, t: string)
    requires ValidName(a) && '\'' !in t && NoNul(t) && |t| <= ValueMax
    ensures Parse(a + ("=" + ("'" + t))) == Contents(Fine, [Pair(a, t)])
  {
    hide SkipLine, CString, Turns, SkipBlanks;
    var x := "'" + t;
    TurnsOnAssignment(a, x);
    assert ("=" + x)[1..] == x && x[1..] == t;
    assert SkipBlanks(x) == x by {
      QuoteFirst(t);
    }
    NeverClosed(t);
    CStringWhole(t);
    LastLine("");
    NothingParsed();
  }

  lemma QuoteFirst(t: string)
    ensures SkipBlanks("'" + t) == "'" + t
  {
  }

  lemma HeadingHas(out: string)
    ensures '\'' !in Heading(out) && NoNul(Heading(out))
  {
    assert '\'' !in HeadingText && '\0' !in HeadingText;
  }

  lemma OpenWrites(a: string, t: string, e: Pair)
    requires ValidName(a) && ValidName(e.name) && a != e.name && PlainValue(e.value) && '\n' !in t && |t| <= ValueMax
    ensures var existing := a + ("=" + ("'" + t));
            && |existing| <= FileMax
            && Write(existing, [e]) == Text(existing + "\n" + Heading(existing + "\n") + AssignmentText(e))
  {
    hide FormFor, NameOn, FirstLine, SkipLine, Heading, AppendRest, AssignmentText;
    var existing := a + ("=" + ("'" + t));
    NameHas(a);
    LineAlone(existing);
    NameOnAssignment(a, "'" + t);
    OpenRewrites(existing, a, e);
    Appended(existing + "\n", e);
    assert seq(1, _ => false) == [false];
  }

  lemma OpenRewrites(line: string, a: string, e: Pair)
    requires line != "" && FirstLine(line) == line && SkipLine(line) == "" && NameOn(line) == Some(a) && a != e.name && |line| <= 4096
    ensures Rewrite(line, [e], [false], "") == Rewriting(Text(line + "\n"), [false])
  {
    hide NameOn, FirstLine, SkipLine;
    assert Assigned(line, [e], [false]) == 1;
    assert "" + line + "\n" == line + "\n";
    assert Rewrite("", [e], [false], line + "\n") == Rewriting(Text(line + "\n"), [false]);
  }

  lemma OpenShape(a: string, t: string, h: string, w: string)
    ensures (a + ("=" + ("'" + t))) + "\n" + h + w == a + ("=" + ("'" + (t + ("\n" + h + w))))
    ensures (a + ("=" + ("'" + t))) + "\n" + h + w == (a + ("=" + ("'" + t))) + ("\n" + h + w)
  {
  }

  /** An entry written below a value whose quote is never closed becomes part of that value and is not set. */
  lemma OpenQuoteSwallows(a: string, t: string, e: Pair)
    requires ValidName(a) && ValidName(e.name) && a != e.name && PlainValue(e.value)
    requires '\'' !in t && '\n' !in t && NoNul(t) && |t| + |e.name| + |e.value| <= 900
    ensures var existing := a + ("=" + ("'" + t));
            var more := "\n" + Heading(existing + "\n") + AssignmentText(e);
            && Load(existing, map[]) == (Fine, map[a := t])
            && Write(existing, [e]) == Text(existing + more)
            && Load(existing + more, map[]) == (Fine, map[a := t + more])
  {
    hide Write, Parse, SetAll, AssignmentText, Heading, NoNul, PlainValue;
    var existing := a + ("=" + ("'" + t));
    var h, w := Heading(existing + "\n"), AssignmentText(e);
    var more := "\n" + h + w;
    OpenWrites(a, t, e);
    OpenShape(a, t, h, w);
    SwallowedHas(t, existing + "\n", e);
    OpenTurn(a, t);
    OpenTurn(a, t + more);
    OneSet(Pair(a, t));
    OneSet(Pair(a, t + more));
  }

  lemma OneSet(e: Pair)
    ensures SetAll(map[], [e]) == map[e.name := e.value]
  {
    assert [e][1..] == [];
    assert SetAll(map[], [e]) == SetAll(SetIfAbsent(map[], e), []);
  }

  lemma SwallowedHas(t: string, out: string, e: Pair)
    requires ValidName(e.name) && PlainValue(e.value) && '\'' !in t && NoNul(t) && |t| + |e.name| + |e.value| <= 900
    ensures var more := "\n" + Heading(out) + AssignmentText(e);
            '\'' !in t + more && NoNul(t + more) && |t + more| <= ValueMax
  {
    hide Heading, FormFor;
    HeadingHas(out);
    HeadingLength(out);
    NameHas(e.name);
    PlainHas(e.value);
    BareText(e);
    forall i | 0 <= i < |e.name|
      ensures e.name[i] != '\0'
    {
      assert NameChar(e.name[i]);
    }
  }

  // ----- a value of its own over several lines -----

  /** The text that the writer itself gives a value of two lines. */
  lemma OwnText(a: string, v: string, w: string)
    requires ValidName(w) && PlainValue(v)
    ensures FormFor(v + ("\n" + w)) == Quoted('\'') && NoNul(v + ("\n" + w))
    ensures AssignmentText(Pair(a, v + ("\n" + w))) == (a + ("=" + ("'" + v))) + ("\n" + ((w + "'") + ("\n" + "")))
  {
    var both := v + ("\n" + w);
    PlainHas(v);
    NameHas(w);
    NameHasNoNul(w);
    assert both[|v|] == '\n' && !Plain('\n');
    hide FormFor;
    assert ("'" + both + "'") + "\n" == ("'" + v) + ("\n" + ((w + "'") + ("\n" + "")));
    Reassociate(a, "'" + v, "\n" + ((w + "'") + ("\n" + "")));
  }

  lemma NameHasNoNul(n: string)
    requires ValidName(n)
    ensures NoNul(n)
  {
    forall i | 0 <= i < |n|
      ensures n[i] != '\0'
    {
      assert NameChar(n[i]);
    }
  }

  /** The line it leaves behind is no assignment to the writer and none to the loader. */
  lemma LeftBehind(w: string)
    requires ValidName(w)
    ensures NameOn(w + "'") == None && Turns((w + "'") + "\n") == Refused(Malformed) && '\n' !in w + "'"
  {
    hide NameLen;
    NameHas(w);
    var y, z := "'", "'" + "\n";
    var a, b := w + y, (w + "'") + "\n";
    assert a[0] == b[0] == w[0] && b == w + z;
    assert SkipBlanks(a) == a && SkipBlanks(b) == b && SkipBlanks(y) == y && SkipBlanks(z) == z;
    NameLenIs(w, y);
    NameLenIs(w, z);
    assert a[|w|..] == y && b[|w|..] == z;
    assert !Exported(b) by {
      QuoteIsNotExport(w);
    }
  }

  lemma QuoteIsNotExport(w: string)
    requires ValidName(w)
    ensures !Exported((w + "'") + "\n")
  {
    var b := (w + "'") + "\n";
    if |b| > 6 {
      if |w| < 6 {
        assert b[..6][|w|] == '\'';
        assert forall i | 0 <= i < 6 :: "export"[i] != '\'';
      } else if |w| > 6 {
        assert b[6] == w[6] && NameChar(w[6]);
      }
    }
  }

  lemma OwnRewrite(e: Pair, v: string, w: string)
    requires ValidName(e.name) && ValidName(w) && PlainValue(v) && PlainValue(e.value)
    ensures Rewrite(AssignmentText(Pair(e.name, v + ("\n" + w))), [e], [false], "") ==
            Rewriting(Text(AssignmentText(e) + (w + "'" + "\n")), [true])
  {
    hide FormFor, NameOn, AssignmentText, Rewrite;
    var l1, l2 := e.name + ("=" + ("'" + v)), w + "'";
    OwnText(e.name, v, w);
    NameHas(e.name);
    PlainHas(v);
    AssignmentLength(e);
    LeftBehind(w);
    NameOnAssignment(e.name, "'" + v);
    ReplaceStep(e, l1, l2 + ("\n" + ""), "");
    assert "" + AssignmentText(e) == AssignmentText(e);
    CopyStep(e, true, l2, "", AssignmentText(e));
    assert AssignmentText(e) + l2 + "\n" == AssignmentText(e) + (w + "'" + "\n");
    RewriteEnds(e, true, AssignmentText(e) + (w + "'" + "\n"));
  }

  lemma OwnWrite(e: Pair, v: string, w: string)
    requires ValidName(e.name) && ValidName(w) && PlainValue(v) && PlainValue(e.value)
    ensures var existing := AssignmentText(Pair(e.name, v + ("\n" + w)));
            |existing| <= FileMax && Write(existing, [e]) == Text(AssignmentText(e) + (w + "'" + "\n"))
  {
    hide FormFor, AssignmentText, Rewrite;
    OwnText(e.name, v, w);
    OwnRewrite(e, v, w);
    assert seq(1, _ => false) == [false];
    var out := AssignmentText(e) + (w + "'" + "\n");
    assert AppendRest([e], [true], 1, false, out) == Text(out);
  }

  /**
   * An entry whose old value is of two lines, in the writer's own hand: only the first line is replaced,
   * and for the one left behind the whole file is refused.
   */
  lemma OwnValueBreaks(e: Pair, v: string, w: string)
    requires ValidName(e.name) && ValidName(w) && PlainValue(v) && PlainValue(e.value) && |v| + |w| + 1 <= ValueMax
    ensures var existing := AssignmentText(Pair(e.name, v + ("\n" + w)));
            && Load(existing, map[]) == (Fine, map[e.name := v + ("\n" + w)])
            && Write(existing, [e]) == Text(AssignmentText(e) + (w + "'" + "\n"))
            && Load(AssignmentText(e) + (w + "'" + "\n"), map[]) == (Malformed, map[e.name := e.value])
  {
    hide FormFor, AssignmentText, Write, Parse, SetAll, NoNul;
    OwnText(e.name, v, w);
    LoadsOne(Pair(e.name, v + ("\n" + w)));
    OwnWrite(e, v, w);
    PlainHas(e.value);
    AssignmentLength(e);
    SegmentAssignment(e);
    var tail := w + "'" + "\n";
    SegmentAt(AssignmentText(e), [e], tail);
    LeftBehind(w);
    RefusedAtOnce(tail, Malformed);
    assert [e] + [] == [e];
    OneSet(e);
  }

  lemma RefusedAtOnce(s: string, status: Status)
    requires s != "" && Turns(s) == Refused(status)
    ensures Parse(s) == Contents(status, [])
  {
  }

  // ----- a value whose first line is replaced, to no harm -----

  /** The text of an assignment over two lines, the second of which is an assignment to `b` for a reader who starts there. */
  function TwoLines(a: string, b: string): string {
    (a + ("=" + "'")) + ("\n" + ((b + ("=" + "'")) + ("\n" + "")))
  }

  lemma TwoLinesText(a: string, b: string)
    requires ValidName(b)
    ensures AssignmentText(Pair(a, "\n" + (b + "="))) == TwoLines(a, b)
    ensures FormFor("\n" + (b + "=")) == Quoted('\'') && NoNul("\n" + (b + "="))
  {
    var v := "\n" + (b + "=");
    NameHas(b);
    assert v[0] == '\n' && !Plain('\n');
    forall i | 0 <= i < |b|
      ensures b[i] != '\0'
    {
      assert NameChar(b[i]);
    }
    hide FormFor;
    assert ("'" + v + "'") + "\n" == "'" + ("\n" + ((b + ("=" + "'")) + ("\n" + "")));
    Reassociate(a, "'", "\n" + ((b + ("=" + "'")) + ("\n" + "")));
  }

  lemma OpenLine(a: string)
    requires ValidName(a)
    ensures !Closed(a + ("=" + "'")) && '\n' !in a + ("=" + "'")
  {
    hide Turns, SkipLine, CString;
    NameHas(a);
    TurnsOnAssignment(a, "'");
    assert ("=" + "'")[1..] == "'" && "'"[1..] == "";
    assert SkipBlanks("'") == "'";
    NeverClosed("");
  }

  lemma TwoLinesRewrite(e: Pair, b: string, out: string)
    requires ValidName(e.name) && ValidName(b) && b != e.name && PlainValue(e.value) && |out| < 8192
    ensures Rewrite(TwoLines(e.name, b), [e], [false], out) ==
            Rewriting(Text(out + AssignmentText(e) + (b + ("=" + ("'" + "\n")))), [true])
  {
    hide FormFor, NameOn, AssignmentText, Rewrite, Closed;
    var l1, l2 := e.name + ("=" + "'"), b + ("=" + "'");
    OpenLine(e.name);
    OpenLine(b);
    NameOnAssignment(e.name, "'");
    NameOnAssignment(b, "'");
    AssignmentLength(e);
    var o1 := out + AssignmentText(e);
    ReplaceStep(e, l1, l2 + ("\n" + ""), out);
    CopyStep(e, true, l2, "", o1);
    assert o1 + l2 + "\n" == o1 + (b + ("=" + ("'" + "\n")));
    RewriteEnds(e, true, o1 + l2 + "\n");
  }

  lemma TwoLinesNotOrderly(e: Pair, b: string)
    requires ValidName(e.name) && ValidName(b)
    ensures !Orderly(TwoLines(e.name, b), [e], [false])
  {
    hide NameOn, FirstLine, SkipLine, Closed, Block, Whole;
    var l1, s2 := e.name + ("=" + "'"), (b + ("=" + "'")) + ("\n" + "");
    var s1 := TwoLines(e.name, b);
    OpenLine(e.name);
    LineThen(l1, s2);
    NameOnAssignment(e.name, "'");
    assert Assigned(l1, [e], [false]) == 0;
    if Spans(s1, Block(s1), [e], [false]) {
      FirstOfBlock(s1, Block(s1));
    }
  }

  lemma TwoLinesTouched(e: Pair, b: string, x: string)
    requires ValidName(e.name) && ValidName(b) && b != e.name && PlainValue(e.value) && PlainValue(x)
    ensures var existing := AssignmentText(Pair(b, x)) + TwoLines(e.name, b);
            && !OrderlyFor(existing, [e])
            && Write(existing, [e]) == Text(AssignmentText(Pair(b, x)) + AssignmentText(e) + (b + ("=" + ("'" + "\n"))))
  {
    hide FormFor, NameOn, FirstLine, SkipLine, TwoLines, Closed, Rewrite;
    var l0, s1 := b + ("=" + x), TwoLines(e.name, b);
    BareText(Pair(b, x));
    AssignmentLength(Pair(b, x));
    var out := AssignmentText(Pair(b, x));
    var existing := out + s1;
    assert existing == l0 + ("\n" + s1) && "" + l0 + "\n" == out;
    NameHas(b);
    PlainHas(x);
    LineThen(l0, s1);
    NameOnAssignment(b, x);
    PlainLineClosed(b, x);
    assert Assigned(l0, [e], [false]) == 1;
    assert seq(1, _ => false) == [false];
    TwoLinesNotOrderly(e, b);
    CopyStep(e, false, l0, s1, "");
    TwoLinesRewrite(e, b, out);
    AssignmentLength(e);
    TwoLinesLength(e.name, b);
    var all := out + AssignmentText(e) + (b + ("=" + ("'" + "\n")));
    assert AppendRest([e], [true], 1, false, all) == Text(all);
  }

  lemma TwoLinesLength(a: string, b: string)
    ensures |TwoLines(a, b)| == |a| + |b| + 6
  {
  }

  lemma PlainLineClosed(b: string, x: string)
    requires ValidName(b) && PlainValue(x)
    ensures Closed(b + ("=" + x))
  {
    hide Turns, Assignment;
    TurnsOnAssignment(b, x);
    BareTurn(b, x);
  }

  /**
   * So the condition on lines cannot be turned round: here the first line of a value over two lines is
   * replaced, the second is left behind as an assignment of its own, and still everything is read back,
   * because the name it assigns has a value from further up.
   */
  lemma TouchedYetReadBack(e: Pair, b: string, x: string)
    requires ValidName(e.name) && ValidName(b) && b != e.name && PlainValue(e.value) && PlainValue(x)
    ensures var existing := AssignmentText(Pair(b, x)) + AssignmentText(Pair(e.name, "\n" + (b + "=")));
            && !OrderlyFor(existing, [e]) && Write(existing, [e]).Text?
            && Load(existing, map[]) == (Fine, map[b := x, e.name := "\n" + (b + "=")])
            && Load(Write(existing, [e]).text, map[]) == (Fine, map[b := x, e.name := e.value])
  {
    hide FormFor, AssignmentText, Parse, Write, OrderlyFor, NoNul, TwoLines;
    var p, q, last := Pair(b, x), Pair(e.name, "\n" + (b + "=")), Pair(b, "\n");
    TwoLinesText(e.name, b);
    TwoLinesTouched(e, b, x);
    PlainHas(x);
    PlainHas(e.value);
    SegmentAssignment(p);
    SegmentAssignment(q);
    SegmentAssignment(e);
    SegmentConcat(AssignmentText(p), [p], AssignmentText(q), [q]);
    SegmentWhole(AssignmentText(p) + AssignmentText(q), [p] + [q]);
    SegmentConcat(AssignmentText(p), [p], AssignmentText(e), [e]);
    var tail := b + ("=" + ("'" + "\n"));
    assert NoNul("\n") by {
      NewlineIsNoNul();
    }
    OpenTurn(b, "\n");
    SegmentAt(AssignmentText(p) + AssignmentText(e), [p] + [e], tail);
    SetTwo(p, q);
    SetTwo(p, e);
    SetThree(p, e, last);
    Sizes(p, q, e, tail);
  }

  lemma NewlineIsNoNul()
    ensures NoNul("\n")
  {
  }

  lemma Sizes(p: Pair, q: Pair, e: Pair, tail: string)
    requires ValidEntry(p) && ValidEntry(q) && ValidEntry(e) && |tail| <= 200
    ensures |AssignmentText(p) + AssignmentText(q)| <= FileMax && |AssignmentText(p) + AssignmentText(e) + tail| <= FileMax
  {
    hide FormFor;
  }

  lemma SetTwo(p: Pair, q: Pair)
    requires p.name != q.name
    ensures SetAll(map[], [p] + [q]) == map[p.name := p.value, q.name := q.value]
  {
    assert ([p] + [q])[1..] == [q] && [q][1..] == [];
    var m: Env := SetIfAbsent(map[], p);
    assert SetAll(m, [q]) == SetAll(SetIfAbsent(m, q), []);
  }

  lemma SetThree(p: Pair, q: Pair, r: Pair)
    requires p.name == r.name
    ensures SetAll(map[], ([p] + [q]) + [r]) == SetAll(map[], [p] + [q])
  {
    assert (([p] + [q]) + [r])[1..] == [q] + [r] && ([q] + [r])[1..] == [r] && [r][1..] == [];
    assert ([p] + [q])[1..] == [q] && [q][1..] == [];
    var m: Env := SetIfAbsent(map[], p);
    var m1 := SetIfAbsent(m, q);
    assert SetAll(m, [q] + [r]) == SetAll(m1, [r]) == SetAll(SetIfAbsent(m1, r), []);
    assert SetAll(m, [q]) == SetAll(m1, []);
  }
}
