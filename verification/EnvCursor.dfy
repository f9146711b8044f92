/** The loader and the writer as cursor loops over the text, with their fixed buffers. */
module EnvCursor {
  import opened Options
  import opened EnvFile

  method BlanksFrom(text: string, at: nat) returns (p: nat)
    requires at <= |text|
    ensures at <= p <= |text| && text[p..] == SkipBlanks(text[at..])
  {
    p := at;
    while p < |text| && Blank(text[p])
      invariant at <= p <= |text| && SkipBlanks(text[p..]) == SkipBlanks(text[at..])
    {
      assert text[p..][1..] == text[p + 1..];
      p := p + 1;
    }
  }

  method LineFrom(text: string, at: nat) returns (p: nat)
    requires at <= |text|
    ensures at <= p <= |text| && text[p..] == SkipLine(text[at..])
  {
    p := at;
    while p < |text| && text[p] != '\n'
      invariant at <= p <= |text| && SkipLine(text[p..]) == SkipLine(text[at..])
    {
      assert text[p..][1..] == text[p + 1..];
      p := p + 1;
    }
    if p < |text| {
      assert text[p..][1..] == text[p + 1..];
      p := p + 1;
    }
  }

  /** The value `v` behind what has been copied already. */
  ghost function Behind(s: string, v: Value): Value {
    v.(text := s + v.text, raw := |s| + v.raw)
  }

  lemma BehindOne(s: string, c: char, v: Value)
    ensures Behind(s, Copied(c, v)) == Behind(s + [c], v)
  {
    assert s + ([c] + v.text) == (s + [c]) + v.text;
  }

  /** The character a quoted value has at `at`, and where the next one is. */
  method QuotedChar(quote: char, text: string, at: nat) returns (c: char, p: nat)
    requires at < |text| && text[at] != quote
    ensures at < p <= |text| && ReadQuoted(quote, text[at..]) == Copied(c, ReadQuoted(quote, text[p..]))
  {
    ghost var s := text[at..];
    assert s[1..] == text[at + 1..] && (|s| > 1 ==> s[1] == text[at + 1] && s[2..] == text[at + 2..]);
    c, p := text[at], at;
    if quote == '"' && c == '\\' && p + 1 < |text| && (text[p + 1] == 'n' || text[p + 1] == 'r') {
      c := if text[p + 1] == 'n' then '\n' else '\r';
      p := p + 1;
    }
    p := p + 1;
  }

  /** The loop inside quotes; without a closing one it runs to the end of the text. */
  method QuotedFrom(quote: char, text: string, at: nat, out: array<char>) returns (p: nat, written: nat, tooLong: bool)
    requires at <= |text| && out.Length > 0
    modifies out
    ensures var v := ReadQuoted(quote, text[at..]);
            && (tooLong <==> v.raw >= out.Length)
            && (!tooLong ==> at <= p <= |text| && written < out.Length && v == Value(out[..written], written, text[p..], v.closed))
  {
    hide Behind, ReadQuoted;
    ghost var whole, done := ReadQuoted(quote, text[at..]), "";
    BehindNone(whole);
    p, written, tooLong := at, 0, false;
    while p < |text| && text[p] != quote
      invariant at <= p <= |text| && written == |done| < out.Length
      invariant forall i | 0 <= i < written :: out[i] == done[i]
      invariant whole == Behind(done, ReadQuoted(quote, text[p..]))
    {
      var c;
      c, p := QuotedChar(quote, text, p);
      ghost var v := ReadQuoted(quote, text[p..]);
      BehindOne(done, c, v);
      done := done + [c];
      RawBehind(done, whole, v);
      if written + 1 >= out.Length {
        return p, written, true;
      }
      out[written] := c;
      written := written + 1;
    }
    assert out[..written] == done;
    QuotedEnds(done, whole, quote, text[p..]);
    if p < |text| {
      assert text[p..][1..] == text[p + 1..];
      p := p + 1;
    }
  }

  lemma BehindNone(v: Value)
    ensures Behind("", v) == v
  {
    assert "" + v.text == v.text;
  }

  lemma QuotedEnds(done: string, whole: Value, quote: char, s: string)
    requires (s == "" || s[0] == quote) && whole == Behind(done, ReadQuoted(quote, s))
    ensures whole == Value(done, |done|, if s == "" then "" else s[1..], s != "")
  {
    assert done + "" == done;
  }

  lemma RawBehind(done: string, whole: Value, v: Value)
    requires whole == Behind(done, v)
    ensures whole.raw >= |done|
  {
  }

  /** An unquoted value: up to the line's end or a comment, without the blanks before it. */
  method BareFrom(text: string, at: nat, out: array<char>) returns (p: nat, written: nat, tooLong: bool)
    requires at <= |text| && out.Length > 0
    modifies out
    ensures tooLong <==> BareLen(text[at..]) >= out.Length
    ensures !tooLong ==> p == at + BareLen(text[at..]) <= |text| && written < out.Length
    ensures !tooLong ==> out[..written] == Trimmed(text[at..p])
  {
    p, written, tooLong := at, 0, false;
    while p < |text| && !EndsBare(text[p])
      invariant at <= p <= |text| && written == p - at < out.Length
      invariant BareLen(text[at..]) == written + BareLen(text[p..])
      invariant forall i | 0 <= i < written :: out[i] == text[at + i]
    {
      assert text[p..][1..] == text[p + 1..];
      if written + 1 >= out.Length {
        tooLong := true;
        return;
      }
      out[written] := text[p];
      written := written + 1;
      p := p + 1;
    }
    assert out[..written] == text[at..p];
    written := TrimmedLen(out[..written]);
  }

  /** The length of a value without its trailing blanks. */
  method TrimmedLen(s: string) returns (n: nat)
    ensures n <= |s| && s[..n] == Trimmed(s)
  {
    n := |s|;
    assert s[..n] == s;
    while n != 0 && Blank(s[n - 1])
      invariant n <= |s| && Trimmed(s[..n]) == Trimmed(s)
    {
      assert s[..n][..n - 1] == s[..n - 1];
      n := n - 1;
    }
  }

  /** Reads the value at `at` into a buffer that keeps room for a terminator. */
  method ValueFrom(text: string, at: nat, out: array<char>) returns (p: nat, written: nat, tooLong: bool)
    requires at <= |text| && out.Length > 0
    modifies out
    ensures var v := ReadValue(text[at..]);
            && (tooLong <==> v.raw >= out.Length)
            && (!tooLong ==> p <= |text| && written < out.Length && out[..written] == v.text && text[p..] == v.rest && out[written] == '\0')
  {
    hide ReadQuoted, BareLen, Trimmed;
    ghost var s := text[at..];
    if at < |text| && (text[at] == '\'' || text[at] == '"') {
      assert s[1..] == text[at + 1..];
      p, written, tooLong := QuotedFrom(text[at], text, at + 1, out);
    } else {
      p, written, tooLong := BareFrom(text, at, out);
      if !tooLong {
        assert s[..p - at] == text[at..p] && s[p - at..] == text[p..];
      }
    }
    if !tooLong {
      ghost var done := out[..written];
      out[written] := '\0';
      assert out[..written] == done;
    }
  }

  /** The characters before the terminator that a call sees. */
  method CStringOf(buf: seq<char>) returns (s: string)
    ensures s == CString(buf)
  {
    var i := 0;
    assert buf[0..] == buf;
    while i < |buf| && buf[i] != '\0'
      invariant 0 <= i <= |buf| && CString(buf) == buf[..i] + CString(buf[i..])
    {
      assert buf[i..][1..] == buf[i + 1..];
      assert buf[..i + 1] == buf[..i] + [buf[i]];
      i := i + 1;
    }
    return buf[..i];
  }

  method NameFrom(text: string, at: nat) returns (p: nat, tooLong: bool)
    requires at <= |text|
    ensures tooLong <==> NameLen(text[at..]) > NameMax
    ensures !tooLong ==> p == at + NameLen(text[at..]) <= |text|
  {
    p, tooLong := at, false;
    while p < |text| && NameChar(text[p])
      invariant at <= p <= |text| && p - at <= NameMax
      invariant NameLen(text[at..]) == p - at + NameLen(text[p..])
    {
      assert text[p..][1..] == text[p + 1..];
      if p - at + 1 >= NameMax + 1 {
        return p, true;
      }
      p := p + 1;
    }
  }

  datatype Read = Nothing | Got(pair: Pair) | Bad(status: Status)

  /** One assignment, from its name on. */
  method StatementFrom(text: string, at: nat, value: array<char>) returns (r: Read, p: nat)
    requires at <= |text| && value.Length == ValueMax + 1
    modifies value
    ensures match Statement(text[at..])
            case Refused(status) => r == Bad(status)
            case Assign(name, v, rest, _) => r == Got(Pair(name, v)) && p <= |text| && text[p..] == rest
  {
    hide NameLen, SkipBlanks, SkipLine, ReadValue, CString;
    ghost var b := text[at..];
    p := at;
    if at == |text| || !NameStart(text[at]) {
      return Bad(Malformed), p;
    }
    var tooLong;
    p, tooLong := NameFrom(text, at);
    if tooLong {
      return Bad(TooLong), p;
    }
    var name := text[at..p];
    assert name == b[..NameLen(b)] && text[p..] == b[NameLen(b)..];
    p := BlanksFrom(text, p);
    if p == |text| || text[p] != '=' {
      return Bad(Malformed), p;
    }
    assert text[p..][1..] == text[p + 1..];
    p := BlanksFrom(text, p + 1);
    var written;
    p, written, tooLong := ValueFrom(text, p, value);
    if tooLong {
      return Bad(TooLong), p;
    }
    var v := CStringOf(value[..written]);
    p := LineFrom(text, p);
    return Got(Pair(name, v)), p;
  }

  /** What has been read, followed by what the rest of the text holds. */
  ghost function Onto(done: seq<Pair>, c: Contents): Contents {
    Contents(c.status, done + c.pairs)
  }

  ghost function PairsOf(r: Read): seq<Pair> {
    if r.Got? then [r.pair] else []
  }

  lemma ParseTurn(s: string)
    requires s != ""
    ensures match Turns(s)
            case AtEnd => Parse(s) == Parse("")
            case Skipped(rest) => Parse(s) == Parse(rest)
            case Assign(name, value, rest, _) => Parse(s) == Onto([Pair(name, value)], Parse(rest))
            case Refused(status) => Parse(s) == Contents(status, [])
  {
    hide Turns;
  }

  /** One turn of the loader's loop. */
  method TurnFrom(text: string, at: nat, value: array<char>) returns (r: Read, p: nat)
    requires at < |text| && value.Length == ValueMax + 1
    modifies value
    ensures r.Bad? ==> !r.status.Fine? && Parse(text[at..]) == Contents(r.status, [])
    ensures !r.Bad? ==> at < p <= |text| && Parse(text[at..]) == Onto(PairsOf(r), Parse(text[p..]))
  {
    hide Parse, SkipBlanks, SkipLine, Statement;
    ghost var s := text[at..];
    ParseTurn(s);
    p := BlanksFrom(text, at);
    ghost var a := text[p..];
    if p == |text| {
      assert a == "" && [] + Parse("").pairs == Parse("").pairs;
      return Nothing, p;
    }
    if EndsBare(text[p]) {
      p := LineFrom(text, p);
      assert [] + Parse(text[p..]).pairs == Parse(text[p..]).pairs;
      return Nothing, p;
    }
    if p + 6 < |text| && text[p..p + 6] == "export" && Blank(text[p + 6]) {
      assert a[..6] == text[p..p + 6] && a[6..] == text[p + 6..];
      p := BlanksFrom(text, p + 6);
    } else {
      assert !Exported(a) by {
        assert |a| > 6 ==> a[..6] == text[p..p + 6];
      }
    }
    r, p := StatementFrom(text, p, value);
  }

  lemma {:induction false} SetAllSnoc(env: Env, ps: seq<Pair>, p: Pair)
    ensures SetAll(env, ps + [p]) == SetIfAbsent(SetAll(env, ps), p)
    decreases |ps|
  {
    if ps == [] {
      assert ps + [p] == [p] && [p][1..] == [];
    } else {
      SetAllSnoc(SetIfAbsent(env, ps[0]), ps[1..], p);
      assert (ps + [p])[1..] == ps[1..] + [p];
    }
  }

  /** The variables of the process. */
  class Environment {
    var vars: Env

    constructor (initial: Env)
      ensures vars == initial
    {
      vars := initial;
    }

    /** getenv, then setenv if there is nothing. */
    method SetUnlessSet(p: Pair)
      modifies this
      ensures vars == SetIfAbsent(old(vars), p)
    {
      if p.name !in vars {
        vars := vars[p.name := p.value];
      }
    }

    /** Loads a file; one that is not there is loaded like an empty one. */
    method LoadFile(text: string) returns (status: Status)
      modifies this
      ensures (status, vars) == Load(text, old(vars))
    {
      if |text| > FileMax {
        return TooLong;
      }
      var value := new char[ValueMax + 1];
      var at := 0;
      status := Fine;
      ghost var whole, done := Parse(text), [];
      assert text[0..] == text && Onto([], whole) == whole;
      while at < |text|
        invariant at <= |text| && vars == SetAll(old(vars), done)
        invariant whole == Onto(done, Parse(text[at..]))
      {
        hide Parse, SetAll, SetIfAbsent, Onto;
        var r, p := TurnFrom(text, at, value);
        if r.Bad? {
          OntoNothing(done, r.status);
          return r.status;
        }
        OntoOnto(done, PairsOf(r), Parse(text[p..]));
        if r.Got? {
          SetUnlessSet(r.pair);
          SetAllSnoc(old(vars), done, r.pair);
        } else {
          assert done + [] == done;
        }
        done := done + PairsOf(r);
        at := p;
      }
      assert text[at..] == "" && done + [] == done;
    }
  }

  lemma OntoNothing(ps: seq<Pair>, status: Status)
    ensures Onto(ps, Contents(status, [])) == Contents(status, ps)
  {
    assert ps + [] == ps;
  }

  lemma OntoOnto(ps: seq<Pair>, qs: seq<Pair>, c: Contents)
    ensures Onto(ps, Onto(qs, c)) == Onto(ps + qs, c)
  {
    assert ps + (qs + c.pairs) == (ps + qs) + c.pairs;
  }

  // ----- the writer -----

  /** The form a value has to be written in. */
  method ChooseForm(value: string) returns (f: Form)
    ensures f == FormFor(value)
  {
    var i, bare := 0, true;
    while i < |value| && bare
      invariant 0 <= i <= |value|
      invariant bare ==> forall j | 0 <= j < i :: Plain(value[j])
      invariant !bare ==> !AllPlain(value)
      decreases |value| - i, bare
    {
      if !Plain(value[i]) {
        bare := false;
      } else {
        i := i + 1;
      }
    }
    if bare {
      return Bare;
    }
    if '\'' !in value {
      return Quoted('\'');
    }
    var escape := FindEscape(value);
    return if '"' !in value && !escape then Quoted('"') else NoForm;
  }

  /** strstr for either escape. */
  method FindEscape(value: string) returns (found: bool)
    ensures found <==> HasEscape(value)
  {
    for i := 0 to |value|
      invariant forall j | 0 <= j < i :: !Escaped(value[j..])
    {
      if Escaped(value[i..]) {
        return true;
      }
    }
    return false;
  }

  method Append(out: string, e: Pair) returns (r: Output)
    ensures r == AppendAssignment(out, e)
  {
    hide FormFor;
    var f := ChooseForm(e.value);
    match f {
      case NoForm =>
        return Failed(Malformed);
      case Bare =>
        var text := e.name + ("=" + (e.value + "\n"));
        return if |out| + |text| > FileMax then Failed(Malformed) else Text(out + text);
      case Quoted(q) =>
        var text := e.name + ("=" + ([q] + e.value + [q] + "\n"));
        return if |out| + |text| > FileMax then Failed(Malformed) else Text(out + text);
    }
  }

  /** Which of the entries is to take this line; their number if none is. */
  method EntryOn(line: string, entries: seq<Pair>, written: array<bool>) returns (k: nat)
    requires written.Length == |entries|
    ensures k == Assigned(line, entries, written[..])
  {
    hide SkipBlanks, NameLen;
    var at := BlanksFrom(line, 0);
    assert line[0..] == line;
    if at == |line| || !NameStart(line[at]) {
      return |entries|;
    }
    var begin := at;
    ghost var a := line[begin..];
    at := NameEnd(line, at);
    var after := BlanksFrom(line, at);
    assert a[..at - begin] == line[begin..at] && a[at - begin..] == line[at..];
    if after == |line| || line[after] != '=' {
      return |entries|;
    }
    k := FindUnwritten(line[begin..at], entries, written);
  }

  method NameEnd(line: string, at: nat) returns (p: nat)
    requires at <= |line|
    ensures p == at + NameLen(line[at..]) <= |line|
  {
    p := at;
    while p < |line| && NameChar(line[p])
      invariant at <= p <= |line| && NameLen(line[at..]) == p - at + NameLen(line[p..])
    {
      assert line[p..][1..] == line[p + 1..];
      p := p + 1;
    }
  }

  method FindUnwritten(name: string, entries: seq<Pair>, written: array<bool>) returns (k: nat)
    requires written.Length == |entries|
    ensures k == Find(name, entries, written[..], 0)
  {
    k := 0;
    while k != |entries| && (written[k] || entries[k].name != name)
      invariant k <= |entries| && Find(name, entries, written[..], 0) == Find(name, entries, written[..], k)
    {
      k := k + 1;
    }
  }

  /** A line is its first character and the rest of it, or ends here. */
  lemma LineAt(text: string, at: nat)
    requires at <= |text|
    ensures at < |text| && text[at] != '\n' ==>
              FirstLine(text[at..]) == [text[at]] + FirstLine(text[at + 1..]) && SkipLine(text[at..]) == SkipLine(text[at + 1..])
    ensures at == |text| ==> FirstLine(text[at..]) == "" && SkipLine(text[at..]) == text[at..]
    ensures at < |text| && text[at] == '\n' ==> FirstLine(text[at..]) == "" && SkipLine(text[at..]) == text[at + 1..]
  {
    if at < |text| {
      assert text[at..][1..] == text[at + 1..];
    }
  }

  method LineEnd(text: string, at: nat) returns (end: nat)
    requires at <= |text|
    ensures at <= end <= |text| && text[at..end] == FirstLine(text[at..])
    ensures text[if end < |text| then end + 1 else end..] == SkipLine(text[at..])
  {
    hide FirstLine, SkipLine;
    end := at;
    ghost var done, line := "", FirstLine(text[at..]);
    while end < |text| && text[end] != '\n'
      invariant at <= end <= |text| && |done| == end - at && forall i | at <= i < end :: done[i - at] == text[i]
      invariant line == done + FirstLine(text[end..])
      invariant SkipLine(text[at..]) == SkipLine(text[end..])
    {
      LineAt(text, end);
      Snoc(done, text[end], FirstLine(text[end + 1..]));
      done := done + [text[end]];
      end := end + 1;
    }
    LineAt(text, end);
    assert text[at..end] == done;
  }

  lemma Snoc(a: string, c: char, b: string)
    ensures a + ([c] + b) == (a + [c]) + b
  {
  }

  /** The lines of the existing file, with the answers in place. */
  method RewriteLines(existing: string, entries: seq<Pair>, written: array<bool>) returns (r: Output)
    requires written.Length == |entries| && forall k | 0 <= k < |entries| :: !written[k]
    modifies written
    ensures Rewrite(existing, entries, seq(|entries|, _ => false), "") == Rewriting(r, written[..])
  {
    hide FirstLine, SkipLine, Assigned, AppendAssignment, AppendLine;
    ghost var none := seq(|entries|, _ => false);
    assert written[..] == none && existing[0..] == existing;
    var at, out := 0, "";
    while at < |existing|
      invariant at <= |existing|
      invariant Rewrite(existing, entries, none, "") == Rewrite(existing[at..], entries, written[..], out)
    {
      var end := LineEnd(existing, at);
      var line := existing[at..end];
      var k := EntryOn(line, entries, written);
      if k < |entries| {
        r := Append(out, entries[k]);
        if r.Failed? {
          return;
        }
        ghost var before := written[..];
        written[k] := true;
        assert written[..] == before[k := true];
      } else {
        r := CopyLine(out, line);
        if r.Failed? {
          return;
        }
      }
      out := r.text;
      at := if end < |existing| then end + 1 else end;
    }
    r := Text(out);
  }

  method CopyLine(out: string, line: string) returns (r: Output)
    ensures r == AppendLine(out, line)
  {
    if |out| + |line| + 1 >= FileMax {
      return Failed(TooLong);
    }
    return Text(out + line + "\n");
  }

  method AppendUnwritten(entries: seq<Pair>, written: array<bool>, start: string) returns (r: Output)
    requires written.Length == |entries|
    ensures r == AppendRest(entries, written[..], 0, false, start)
  {
    hide AppendAssignment, Heading;
    var out, heading := start, false;
    for i := 0 to |entries|
      invariant AppendRest(entries, written[..], 0, false, start) == AppendRest(entries, written[..], i, heading, out)
    {
      if written[i] {
        continue;
      }
      if !heading {
        var head := Heading(out);
        if |out| + |head| >= FileMax {
          return Failed(TooLong);
        }
        out := out + head;
      }
      r := Append(out, entries[i]);
      if r.Failed? {
        return;
      }
      out := r.text;
      heading := true;
    }
    r := Text(out);
  }

  /** The new contents of the file, or why it stays as it is. */
  method WriteFile(existing: string, entries: seq<Pair>) returns (r: Output)
    ensures r == Write(existing, entries)
  {
    hide Rewrite, AppendRest;
    if |entries| > EntriesMax {
      return Failed(InvalidArgument);
    }
    if |existing| > FileMax {
      return Failed(TooLong);
    }
    var written := new bool[|entries|](_ => false);
    r := RewriteLines(existing, entries, written);
    if r.Text? {
      r := AppendUnwritten(entries, written, r.text);
    }
  }
}
