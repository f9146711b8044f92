/** The forms of a `.env` file against their description: what each reads as, and that a form is found whenever one would do. */
module EnvForms {
  import opened Options
  import opened EnvFile
  import opened EnvRoundTrip
  import opened EnvCases

  // ----- values -----

  /** No quote and no backslash: read as it stands between quotes of either kind. */
  predicate Smooth(s: string) {
    '"' !in s && '\'' !in s && '\\' !in s
  }

  ghost function Onto(s: string, v: Value): Value {
    v.(text := s + v.text, raw := |s| + v.raw)
  }

  lemma CharRead(quote: char, c: char, x: string)
    requires c != quote && c != '\\'
    ensures ReadQuoted(quote, [c] + x) == Copied(c, ReadQuoted(quote, x))
  {
    var s := [c] + x;
    assert s[0] == c && s[1..] == x;
  }

  lemma CopiedOnto(s: string, v: Value)
    requires s != ""
    ensures Copied(s[0], Onto(s[1..], v)) == Onto(s, v)
  {
    assert [s[0]] + (s[1..] + v.text) == s + v.text;
  }

  lemma {:induction false} SmoothRead(quote: char, s: string, x: string)
    requires Smooth(s) && (quote == '"' || quote == '\'')
    ensures ReadQuoted(quote, s + x) == Onto(s, ReadQuoted(quote, x))
    decreases |s|
  {
    hide ReadQuoted, Copied;
    if s == "" {
      assert s + x == x && "" + ReadQuoted(quote, x).text == ReadQuoted(quote, x).text;
    } else {
      var c, t := s[0], s[1..];
      assert s + x == [c] + (t + x);
      assert Smooth(t);
      CharRead(quote, c, t + x);
      SmoothRead(quote, t, x);
      CopiedOnto(s, ReadQuoted(quote, x));
    }
  }

  /** What a backslash and a letter stand for between double quotes. */
  function Meaning(c: char): string {
    if c == 'n' then "\n" else if c == 'r' then "\r" else ['\\', c]
  }

  lemma EscapeRead(c: char, x: string)
    requires c != '"' && c != '\\'
    ensures ReadQuoted('"', ['\\', c] + x) == Onto(Meaning(c), ReadQuoted('"', x)).(raw := |Meaning(c)| + ReadQuoted('"', x).raw)
  {
    hide ReadQuoted;
    if c == 'n' || c == 'r' {
      LetterRead(c, x);
    } else {
      BackslashRead(c, x);
      CharRead('"', c, x);
      assert ['\\'] + ([c] + ReadQuoted('"', x).text) == ['\\', c] + ReadQuoted('"', x).text;
    }
  }

  lemma LetterRead(c: char, x: string)
    requires c == 'n' || c == 'r'
    ensures ReadQuoted('"', ['\\', c] + x) == Copied(if c == 'n' then '\n' else '\r', ReadQuoted('"', x))
  {
    var s := ['\\', c] + x;
    assert s[0] == '\\' && s[1] == c && s[2..] == x;
  }

  lemma BackslashRead(c: char, x: string)
    requires c != 'n' && c != 'r'
    ensures ReadQuoted('"', ['\\', c] + x) == Copied('\\', ReadQuoted('"', [c] + x))
  {
    var s := ['\\', c] + x;
    assert s[0] == '\\' && s[1] == c && s[1..] == [c] + x;
  }

  lemma EscapeLiteral(c: char, x: string)
    requires c != '\''
    ensures ReadQuoted('\'', ['\\', c] + x) == Onto(['\\', c], ReadQuoted('\'', x))
  {
    var s := ['\\', c] + x;
    assert s[0] == '\\' && s[1..] == [c] + x && s[1..][0] == c && s[1..][1..] == x;
    assert ReadQuoted('\'', s[1..]) == Copied(c, ReadQuoted('\'', x));
    assert ['\\'] + ([c] + ReadQuoted('\'', x).text) == ['\\', c] + ReadQuoted('\'', x).text;
  }

  /** Between double quotes \n is a newline and \r a carriage return, and a backslash before anything else is itself. */
  lemma DoubleQuotedIs(p: string, c: char, q: string, rest: string)
    requires Smooth(p) && Smooth(q) && c != '"' && c != '\\'
    ensures ReadQuoted('"', p + (['\\', c] + (q + ("\"" + rest)))).text == p + (Meaning(c) + q)
    ensures ReadQuoted('"', p + (['\\', c] + (q + ("\"" + rest)))).rest == rest
  {
    hide ReadQuoted;
    SmoothRead('"', p, ['\\', c] + (q + ("\"" + rest)));
    EscapeRead(c, q + ("\"" + rest));
    SmoothRead('"', q, "\"" + rest);
    CloseRead('"', rest);
    assert q + "" == q;
  }

  lemma CloseRead(quote: char, rest: string)
    ensures ReadQuoted(quote, [quote] + rest) == Value("", 0, rest, true)
  {
    assert ([quote] + rest)[1..] == rest;
  }

  /** Between single quotes nothing is anything but itself. */
  lemma SingleQuotedIs(p: string, c: char, q: string, rest: string)
    requires Smooth(p) && Smooth(q) && c != '\''
    ensures ReadQuoted('\'', p + (['\\', c] + (q + ("'" + rest)))).text == p + (['\\', c] + q)
    ensures ReadQuoted('\'', p + (['\\', c] + (q + ("'" + rest)))).rest == rest
  {
    hide ReadQuoted;
    SmoothRead('\'', p, ['\\', c] + (q + ("'" + rest)));
    EscapeLiteral(c, q + ("'" + rest));
    SmoothRead('\'', q, "'" + rest);
    CloseRead('\'', rest);
    assert q + "" == q;
  }

  /** A word with blanks behind it: up to a comment, the end of the line or of the text, and without the blanks. */
  lemma BareIs(v: string, blanks: string, x: string)
    requires v != "" && v[0] != '\'' && v[0] != '"' && v[|v| - 1] != ' ' && v[|v| - 1] != '\t'
    requires forall i | 0 <= i < |v| :: v[i] != '#' && v[i] != '\n' && v[i] != '\r'
    requires forall i | 0 <= i < |blanks| :: blanks[i] == ' ' || blanks[i] == '\t'
    requires x == "" || x[0] == '#' || x[0] == '\n' || x[0] == '\r'
    ensures ReadValue(v + blanks + x) == Value(v, |v| + |blanks|, x, true)
  {
    var s := v + blanks;
    assert (s + x)[0] == v[0];
    assert forall i | 0 <= i < |s| :: !EndsBare(s[i]);
    if x == "" {
      assert s + x == s;
      assert BareLen(s) == |s|;
    } else {
      BareLenIs(s, x);
    }
    assert (s + x)[..|s|] == s && (s + x)[|s|..] == x;
    TrimsTo(v, blanks);
  }

  lemma {:induction false} TrimsTo(v: string, blanks: string)
    requires v != "" && !Blank(v[|v| - 1]) && forall i | 0 <= i < |blanks| :: Blank(blanks[i])
    ensures Trimmed(v + blanks) == v
    decreases |blanks|
  {
    var s := v + blanks;
    if blanks == "" {
      assert s == v;
    } else {
      var n := |blanks| - 1;
      assert s[|s| - 1] == blanks[n] && s[..|s| - 1] == v + blanks[..n];
      TrimsTo(v, blanks[..n]);
    }
  }

  // ----- lines -----

  lemma {:induction false} BlanksSkipped(blanks: string, x: string)
    requires (forall i | 0 <= i < |blanks| :: blanks[i] == ' ' || blanks[i] == '\t') && (x != "" ==> x[0] != ' ' && x[0] != '\t')
    ensures SkipBlanks(blanks + x) == x
    decreases |blanks|
  {
    if blanks == "" {
      assert blanks + x == x;
    } else {
      assert (blanks + x)[0] == blanks[0] && (blanks + x)[1..] == blanks[1..] + x;
      BlanksSkipped(blanks[1..], x);
    }
  }

  /** A comment, and a line of blanks, say nothing. */
  lemma CommentIs(blanks: string, text: string, rest: string)
    requires (forall i | 0 <= i < |blanks| :: blanks[i] == ' ' || blanks[i] == '\t') && '\n' !in text
    ensures Turns(blanks + (("#" + text) + ("\n" + rest))) == Skipped(rest)
    ensures Turns(blanks + ("\n" + rest)) == Skipped(rest)
  {
    hide SkipBlanks, SkipLine;
    var a, b := ("#" + text) + ("\n" + rest), "\n" + rest;
    BlanksSkipped(blanks, a);
    BlanksSkipped(blanks, b);
    LineThen("#" + text, rest);
    LineThen("", rest);
    assert "" + b == b;
  }

  /** A name with nothing assigned is refused, and so is a line that starts with no name. */
  lemma NoAssignmentIs(name: string, x: string)
    requires ValidName(name) && (x == "" || x[0] == '\n')
    ensures Turns(name + x) == Refused(Malformed)
    ensures Turns("=" + x) == Refused(Malformed) && Turns("1" + x) == Refused(Malformed)
  {
    hide NameLen;
    NameHas(name);
    var a := name + x;
    assert a[0] == name[0] && SkipBlanks(a) == a && SkipBlanks(x) == x;
    NameLenIs(name, x);
    assert a[|name|..] == x;
    assert !Exported(a) by {
      if |a| > 6 && |name| < 6 {
        assert a[..6][|name|] == '\n';
        assert forall i | 0 <= i < 6 :: "export"[i] != '\n';
      } else if |a| > 6 && |name| > 6 {
        assert a[6] == name[6] && NameChar(name[6]);
      }
    }
    assert ("=" + x)[0] == '=' && SkipBlanks("=" + x) == "=" + x && ("1" + x)[0] == '1' && SkipBlanks("1" + x) == "1" + x;
    assert !Exported("=" + x) by {
      assert |"=" + x| > 6 ==> ("=" + x)[..6][0] == '=';
    }
    assert !Exported("1" + x) by {
      assert |"1" + x| > 6 ==> ("1" + x)[..6][0] == '1';
    }
  }

  /** A value of more than 1023 characters is refused, not cut. */
  lemma LongValueIs(name: string, value: string)
    requires ValidName(name) && AllPlain(value)
    ensures Turns(name + ("=" + value)) == if |value| > 1023 then Refused(TooLong) else Assign(name, value, "", true)
  {
    hide Turns, Assignment;
    TurnsOnAssignment(name, value);
    if |value| <= 1023 {
      BareTurn(name, value);
    } else {
      LongBare(name, value);
    }
  }

  lemma LongBare(name: string, value: string)
    requires AllPlain(value) && |value| > 1023
    ensures Assignment(name, "=" + value) == Refused(TooLong)
  {
    hide BareLen, Plain;
    assert ("=" + value)[1..] == value;
    forall i | 0 <= i < |value|
      ensures !EndsBare(value[i]) && !Blank(value[i]) && value[i] != '\'' && value[i] != '"'
    {
      PlainChars(value[i]);
    }
    assert SkipBlanks(value) == value && BareLen(value) == |value|;
  }

  // ----- the writer's choice -----

  /** The characters that need no quotes. */
  lemma PlainIs(c: char)
    ensures Plain(c) <==> 'A' <= c <= 'Z' || 'a' <= c <= 'z' || '0' <= c <= '9' || c == '_' || c == '@' || c == '%' || c == '+' ||
                          c == ':' || c == ',' || c == '.' || c == '/' || c == '=' || c == '-'
  {
  }

  ghost predicate ReadsBackIn(quote: char, value: string) {
    ReadQuoted(quote, value + ([quote] + "")) == Value(value, |value|, "", true)
  }

  /** A form is found whenever the value is plain or one of the quotes would read it back; and the one found does. */
  lemma FormIsFound(value: string)
    ensures !FormFor(value).NoForm? <==> AllPlain(value) || ReadsBackIn('\'', value) || ReadsBackIn('"', value)
    ensures FormFor(value).Quoted? ==> ReadsBackIn(FormFor(value).quote, value)
  {
    hide AllPlain, HasEscape;
    QuotedReadsBackIff('\'', value, "");
    QuotedReadsBackIff('"', value, "");
  }

  function Total(entries: seq<Pair>, i: nat): nat
    requires i <= |entries|
    decreases |entries| - i
  {
    if i == |entries| then 0 else |AssignmentText(entries[i])| + Total(entries, i + 1)
  }

  predicate AllFormed(entries: seq<Pair>) {
    forall k | 0 <= k < |entries| :: !FormFor(entries[k].value).NoForm?
  }

  /** What is still to be written. */
  function Pending(entries: seq<Pair>, written: seq<bool>, i: nat): nat
    requires |written| == |entries| && i <= |entries|
    decreases |entries| - i
  {
    if i == |entries| then 0 else (if written[i] then 0 else |AssignmentText(entries[i])|) + Pending(entries, written, i + 1)
  }

  lemma {:induction false} PendingMarked(entries: seq<Pair>, written: seq<bool>, k: nat, i: nat)
    requires |written| == |entries| && k < |entries| && !written[k] && i <= |entries|
    ensures Pending(entries, written, i) == Pending(entries, written[k := true], i) + if i <= k then |AssignmentText(entries[k])| else 0
    decreases |entries| - i
  {
    hide AssignmentText;
    if i < |entries| {
      PendingMarked(entries, written, k, i + 1);
    }
  }

  lemma {:induction false} RewriteSucceeds(s: string, entries: seq<Pair>, written: seq<bool>, out: string)
    requires |written| == |entries| && AllFormed(entries)
    requires |out| + |s| + 1 + Pending(entries, written, 0) + 32 < FileMax
    ensures var r := Rewrite(s, entries, written, out);
            r.out.Text? && |r.out.text| + Pending(entries, r.written, 0) <= |out| + |s| + 1 + Pending(entries, written, 0)
    decreases |s|
  {
    hide FormFor, AssignmentText, FirstLine, SkipLine, Assigned;
    if s != "" {
      var line := FirstLine(s);
      LineLength(s);
      var k := Assigned(line, entries, written);
      if k < |entries| {
        Unwritten(line, entries, written);
        PendingMarked(entries, written, k, 0);
        RewriteSucceeds(SkipLine(s), entries, written[k := true], out + AssignmentText(entries[k]));
      } else {
        RewriteSucceedsLine(s, entries, written, out);
      }
    }
  }

  /** A copied line is no longer than what it takes from the text, but for the newline of the last. */
  lemma {:induction false} RewriteSucceedsLine(s: string, entries: seq<Pair>, written: seq<bool>, out: string)
    requires |written| == |entries| && AllFormed(entries) && s != "" && Assigned(FirstLine(s), entries, written) == |entries|
    requires |out| + |s| + 1 + Pending(entries, written, 0) + 32 < FileMax
    ensures var r := Rewrite(s, entries, written, out);
            r.out.Text? && |r.out.text| + Pending(entries, r.written, 0) <= |out| + |s| + 1 + Pending(entries, written, 0)
    decreases |s|, 0
  {
    hide FormFor, AssignmentText, FirstLine, SkipLine, Assigned;
    var line, rest := FirstLine(s), SkipLine(s);
    LineLength(s);
    if rest == "" {
      assert Rewrite(s, entries, written, out) == Rewrite("", entries, written, out + line + "\n");
    } else {
      RewriteSucceeds(rest, entries, written, out + line + "\n");
    }
  }

  lemma LineLength(s: string)
    requires s != ""
    ensures |FirstLine(s)| + |SkipLine(s)| <= |s| && (SkipLine(s) != "" ==> |FirstLine(s)| + 1 + |SkipLine(s)| == |s|)
  {
    hide FirstLine, SkipLine;
    LineSplit(s);
  }

  lemma Unwritten(line: string, entries: seq<Pair>, written: seq<bool>)
    requires |written| == |entries| && Assigned(line, entries, written) < |entries|
    ensures !written[Assigned(line, entries, written)]
  {
  }

  lemma {:induction false} RestSucceeds(entries: seq<Pair>, written: seq<bool>, i: nat, heading: bool, out: string)
    requires |written| == |entries| && i <= |entries| && AllFormed(entries)
    requires |out| + Pending(entries, written, i) + (if heading then 0 else 32) < FileMax
    ensures AppendRest(entries, written, i, heading, out).Text?
    decreases |entries| - i
  {
    hide FormFor, AssignmentText, Heading;
    if i < |entries| {
      HeadingLength(out);
      if written[i] {
        RestSucceeds(entries, written, i + 1, heading, out);
      } else {
        var head := if heading then out else out + Heading(out);
        RestSucceeds(entries, written, i + 1, true, head + AssignmentText(entries[i]));
      }
    }
  }

  lemma {:induction false} PendingAll(entries: seq<Pair>, i: nat)
    requires i <= |entries|
    ensures Pending(entries, seq(|entries|, _ => false), i) == Total(entries, i)
    decreases |entries| - i
  {
    hide AssignmentText;
    if i < |entries| {
      PendingAll(entries, i + 1);
    }
  }

  /** A write succeeds whenever every value has a form and the file, the entries and a heading fit. */
  lemma WriteSucceeds(existing: string, entries: seq<Pair>)
    requires |entries| <= 64 && AllFormed(entries) && |existing| + Total(entries, 0) + 33 < 65536
    ensures Write(existing, entries).Text?
  {
    hide Rewrite, AppendRest, FormFor, AssignmentText;
    var none := seq(|entries|, _ => false);
    PendingAll(entries, 0);
    RewriteSucceeds(existing, entries, none, "");
    var r := Rewrite(existing, entries, none, "");
    RestSucceeds(entries, r.written, 0, false, r.out.text);
  }
}
