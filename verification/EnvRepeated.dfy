/** Writing again and again: what a write must keep for the next one to be safe. */
module EnvRepeated {
  import opened Options
  import opened EnvFile
  import opened EnvRoundTrip
  import opened EnvCases

  /** Every value ends on the line it starts on. */
  predicate ClosedLines(s: string)
    decreases |s|
  {
    s == "" || (Closed(FirstLine(s)) && ClosedLines(SkipLine(s)))
  }

  /** Then the writer may be given any entries. */
  lemma {:induction false} ClosedIsOrderly(s: string, entries: seq<Pair>, written: seq<bool>)
    requires ClosedLines(s) && |written| == |entries|
    ensures Orderly(s, entries, written)
    decreases |s|
  {
    hide Closed, FirstLine, SkipLine, Marked;
    if s != "" {
      ClosedIsOrderly(SkipLine(s), entries, Marked(FirstLine(s), entries, written));
    }
  }

  predicate WholeLines(s: string) {
    s == "" || EndsLine(s)
  }

  lemma WholeConcat(a: string, b: string)
    requires WholeLines(a) && WholeLines(b)
    ensures WholeLines(a + b)
  {
    if b != "" {
      assert (a + b)[|a + b| - 1] == b[|b| - 1];
    } else {
      assert a + b == a;
    }
  }

  lemma {:induction false} ClosedLinesConcat(a: string, b: string)
    requires WholeLines(a)
    ensures ClosedLines(a + b) <==> ClosedLines(a) && ClosedLines(b)
    decreases |a|
  {
    hide Closed, FirstLine, SkipLine, EndsLine, Ended;
    if a == "" {
      assert a + b == b;
    } else {
      LineBefore(a, b);
      EndedLines(a);
      assert a + b != "";
      ClosedLinesConcat(SkipLine(a), b);
    }
  }

  lemma ClosedConcat(a: string, b: string)
    requires WholeLines(a)
    ensures ClosedLines(a + b) <==> ClosedLines(a) && ClosedLines(b)
    ensures WholeLines(b) ==> WholeLines(a + b)
  {
    hide ClosedLines, WholeLines;
    ClosedLinesConcat(a, b);
    if WholeLines(b) {
      WholeConcat(a, b);
    }
  }

  lemma ClosedOne(line: string)
    requires '\n' !in line
    ensures ClosedLines(line + "\n") <==> Closed(line)
    ensures WholeLines(line + "\n")
  {
    hide Closed;
    LineThen(line, "");
    assert line + ("\n" + "") == line + "\n";
  }

  lemma {:induction false} OpenWithout(quote: char, s: string)
    requires quote !in s
    ensures !ReadQuoted(quote, s).closed && ReadQuoted(quote, s).raw <= |s|
    decreases |s|
  {
    if s != "" {
      if quote == '"' && Escaped(s) {
        OpenWithout(quote, s[2..]);
      } else {
        OpenWithout(quote, s[1..]);
      }
    }
  }

  /** The line a quoted value starts on, when the value goes on after it. */
  lemma OpenStart(name: string, q: char, p: string)
    requires ValidName(name) && (q == '\'' || q == '"') && q !in p && |p| <= ValueMax
    ensures !Closed(name + ("=" + ([q] + p)))
  {
    hide Turns, SkipLine, CString;
    var x := [q] + p;
    TurnsOnAssignment(name, x);
    assert ("=" + x)[1..] == x && x[1..] == p && x[0] == q;
    assert SkipBlanks(x) == x;
    OpenWithout(q, p);
  }

  lemma CloseOnLine(name: string, value: string)
    requires ValidName(name) && |value| <= ValueMax && !FormFor(value).NoForm?
    ensures Closed(name + ("=" + ValueText(value)))
  {
    hide Turns, SkipLine, CString, HasEscape, AllPlain, BareLen;
    var x := ValueText(value);
    TurnsOnAssignment(name, x);
    assert ("=" + x)[1..] == x;
    match FormFor(value)
    case Bare =>
      NoQuoteInside(value);
    case Quoted(q) =>
      QuotedReadsBackIff(q, value, "");
      assert x[0] == q && x[1..] == value + ([q] + "");
      assert SkipBlanks(x) == x;
  }

  lemma NoQuoteInside(value: string)
    requires AllPlain(value)
    ensures ReadValue(SkipBlanks(value)).closed
  {
    if value != "" {
      PlainChars(value[0]);
    }
  }

  /** Where the first newline of a text is. */
  lemma FirstNewline(v: string) returns (k: nat)
    requires '\n' in v
    ensures k < |v| && v == v[..k] + ("\n" + v[k + 1..]) && '\n' !in v[..k]
  {
    k := |FirstLine(v)|;
    LineSplit(v);
  }

  /** What is written for an entry is a single line exactly if its value has no newline. */
  lemma AssignmentClosedIff(e: Pair)
    requires ValidEntry(e) && !FormFor(e.value).NoForm?
    ensures ClosedLines(AssignmentText(e)) <==> '\n' !in e.value
    ensures WholeLines(AssignmentText(e))
  {
    hide ClosedLines, Closed, ValueText;
    var line := e.name + ("=" + ValueText(e.value));
    assert AssignmentText(e) == line + "\n";
    if '\n' in e.value {
      SpreadOpen(e);
    } else {
      NameHas(e.name);
      ValueTextHas(e.value);
      CloseOnLine(e.name, e.value);
      ClosedOne(line);
    }
  }

  lemma ValueTextHas(value: string)
    requires '\n' !in value
    ensures '\n' !in ValueText(value)
  {
  }

  lemma SpreadOpen(e: Pair)
    requires ValidEntry(e) && !FormFor(e.value).NoForm? && '\n' in e.value
    ensures !ClosedLines(AssignmentText(e))
  {
    hide Closed, FirstLine, SkipLine, HasEscape;
    var k := FirstNewline(e.value);
    assert !Plain('\n') && FormFor(e.value).Quoted?;
    var q, p, r := FormFor(e.value).quote, e.value[..k], e.value[k + 1..];
    var line := e.name + ("=" + ([q] + p));
    SpreadShape(e.name, q, p, r);
    assert AssignmentText(e) == line + ("\n" + (r + [q] + "\n"));
    NameHas(e.name);
    LineThen(line, r + [q] + "\n");
    OpenStart(e.name, q, p);
  }

  lemma SpreadShape(n: string, q: char, p: string, r: string)
    ensures n + ("=" + (([q] + (p + ("\n" + r)) + [q]) + "\n")) == (n + ("=" + ([q] + p))) + ("\n" + (r + [q] + "\n"))
  {
  }

  lemma HeadingClosed(out: string)
    ensures ClosedLines(Heading(out)) && WholeLines(Heading(out))
  {
    hide ClosedLines, Closed;
    var line := "#" + HeadingText;
    HeadingIsOneLine();
    assert Closed(line) by {
      CommentClosed(HeadingText);
    }
    ClosedOne(line);
    assert Closed("") by {
      EmptyTurn();
      BlankClosed();
    }
    ClosedOne("");
    assert "" + "\n" == "\n";
    ClosedConcat("\n", line + "\n");
  }

  lemma CommentClosed(text: string)
    ensures Closed("#" + text)
  {
    var line := "#" + text;
    assert SkipBlanks(line) == line;
  }

  lemma BlankClosed()
    ensures Closed("")
  {
  }

  /** No entry that was written from `before` to `after` has a newline in its value. */
  ghost predicate NoNewlines(entries: seq<Pair>, before: seq<bool>, after: seq<bool>)
    requires |before| == |after| == |entries|
  {
    forall k | 0 <= k < |entries| && after[k] && !before[k] :: '\n' !in entries[k].value
  }

  ghost predicate Grows(before: seq<bool>, after: seq<bool>)
    requires |before| == |after|
  {
    forall k | 0 <= k < |before| && before[k] :: after[k]
  }

  lemma {:induction false} RewriteClosedIff(s: string, entries: seq<Pair>, written: seq<bool>, out: string)
    requires |written| == |entries| && ValidEntries(entries) && ClosedLines(s) && WholeLines(out)
    requires Rewrite(s, entries, written, out).out.Text?
    ensures var r := Rewrite(s, entries, written, out);
            && WholeLines(r.out.text) && Grows(written, r.written)
            && (ClosedLines(r.out.text) <==> ClosedLines(out) && NoNewlines(entries, written, r.written))
    decreases |s|
  {
    hide Closed, FirstLine, SkipLine, Assigned, FormFor, AssignmentText, WholeLines;
    if s != "" {
      var line, rest := FirstLine(s), SkipLine(s);
      var k := Assigned(line, entries, written);
      if k < |entries| {
        var e := entries[k];
        AssignmentClosedIff(e);
        ClosedConcat(out, AssignmentText(e));
        AssignedUnwritten(line, entries, written);
        RewriteClosedIff(rest, entries, written[k := true], out + AssignmentText(e));
      } else {
        ClosedOne(line);
        ClosedConcat(out, line + "\n");
        assert out + line + "\n" == out + (line + "\n");
        RewriteClosedIff(rest, entries, written, out + line + "\n");
      }
    }
  }

  lemma AssignedUnwritten(line: string, entries: seq<Pair>, written: seq<bool>)
    requires |written| == |entries| && Assigned(line, entries, written) < |entries|
    ensures !written[Assigned(line, entries, written)]
  {
  }

  lemma {:induction false} RestClosedIff(entries: seq<Pair>, written: seq<bool>, i: nat, heading: bool, out: string)
    requires |written| == |entries| && i <= |entries| && ValidEntries(entries) && WholeLines(out)
    requires AppendRest(entries, written, i, heading, out).Text?
    ensures var t := AppendRest(entries, written, i, heading, out).text;
            ClosedLines(t) <==> ClosedLines(out) && forall k | i <= k < |entries| && !written[k] :: '\n' !in entries[k].value
    decreases |entries| - i
  {
    hide ClosedLines, FormFor, Heading, AssignmentText, WholeLines;
    if i < |entries| {
      if written[i] {
        RestClosedIff(entries, written, i + 1, heading, out);
      } else {
        var head := if heading then out else out + Heading(out);
        if !heading {
          HeadingClosed(out);
          ClosedConcat(out, Heading(out));
        }
        AssignmentClosedIff(entries[i]);
        ClosedConcat(head, AssignmentText(entries[i]));
        RestClosedIff(entries, written, i + 1, true, head + AssignmentText(entries[i]));
      }
    }
  }

  /** A write keeps every value on its own line if and only if no value that is written has a newline. */
  lemma WriteKeepsLinesIff(existing: string, entries: seq<Pair>)
    requires ValidEntries(entries) && ClosedLines(existing) && Write(existing, entries).Text?
    ensures ClosedLines(Write(existing, entries).text) <==> forall k | 0 <= k < |entries| :: '\n' !in entries[k].value
  {
    hide Rewrite, AppendRest, ClosedLines, ValidEntries;
    var none := seq(|entries|, _ => false);
    var r := Rewrite(existing, entries, none, "");
    NothingClosed();
    RewriteClosedIff(existing, entries, none, "");
    RestClosedIff(entries, r.written, 0, false, r.out.text);
  }

  lemma NothingClosed()
    ensures ClosedLines("")
  {
  }

  // ----- any number of writes -----

  /** One write after the other, as long as none fails. */
  function WriteEach(existing: string, batches: seq<seq<Pair>>): Output
    decreases |batches|
  {
    if batches == [] then Text(existing)
    else
      match Write(existing, batches[0])
      case Failed(st) => Failed(st)
      case Text(t) => WriteEach(t, batches[1..])
  }

  predicate OnOneLine(entries: seq<Pair>) {
    forall k | 0 <= k < |entries| :: '\n' !in entries[k].value
  }

  lemma SafeWrite(existing: string, entries: seq<Pair>)
    requires ValidEntries(entries) && OnOneLine(entries) && ClosedLines(existing) && Load(existing, map[]).0.Fine?
    requires Write(existing, entries).Text?
    ensures OrderlyFor(existing, entries)
    ensures var t := Write(existing, entries).text; ClosedLines(t) && Load(t, map[]).0.Fine?
  {
    hide Write, ClosedLines, Orderly, Parse, SetAll, ValidEntry;
    ClosedIsOrderly(existing, entries, seq(|entries|, _ => false));
    WriteThenLoad(existing, entries, map[]);
    WriteKeepsLinesIff(existing, entries);
  }

  /** Written over and over with values of one line, a file stays loadable and fit for the next write, whatever its entries. */
  lemma {:induction false} ManyWrites(existing: string, batches: seq<seq<Pair>>, more: seq<Pair>)
    requires forall i | 0 <= i < |batches| :: ValidEntries(batches[i]) && OnOneLine(batches[i])
    requires ClosedLines(existing) && Load(existing, map[]).0.Fine? && WriteEach(existing, batches).Text?
    ensures var t := WriteEach(existing, batches).text;
            ClosedLines(t) && Load(t, map[]).0.Fine? && OrderlyFor(t, more)
    decreases |batches|
  {
    hide Write, ClosedLines, Orderly, Load, ValidEntries, OnOneLine;
    if batches == [] {
      ClosedIsOrderly(existing, more, seq(|more|, _ => false));
    } else {
      SafeWrite(existing, batches[0]);
      ManyWrites(Write(existing, batches[0]).text, batches[1..], more);
    }
  }
}
