/**
 * The `.env` file: what the loader reads from a text, and what the writer makes of an existing file.
 * `EnvRoundTrip` proves that the two agree; `EnvCursor` has the loops over the text.
 */
module EnvFile {
  import opened Options

  const NameMax: nat := 127
  const ValueMax: nat := 1023
  const FileMax: nat := 64 * 1024
  const EntriesMax: nat := 64

  datatype Status = Fine | InvalidArgument | Malformed | TooLong

  // ----- reading -----

  predicate NameStart(c: char) {
    'A' <= c <= 'Z' || 'a' <= c <= 'z' || c == '_'
  }

  predicate NameChar(c: char) {
    NameStart(c) || '0' <= c <= '9'
  }

  predicate Blank(c: char) {
    c == ' ' || c == '\t'
  }

  function SkipBlanks(s: string): (r: string)
    ensures |r| <= |s| && ('\n' !in s ==> '\n' !in r) && (r != "" ==> !Blank(r[0]))
    decreases |s|
  {
    if s != "" && Blank(s[0]) then SkipBlanks(s[1..]) else s
  }

  /** What follows the line that `s` starts in. */
  function SkipLine(s: string): (r: string)
    ensures |r| <= |s| && (s != "" ==> |r| < |s|)
    decreases |s|
  {
    if s == "" then "" else if s[0] == '\n' then s[1..] else SkipLine(s[1..])
  }

  function NameLen(s: string): (k: nat)
    ensures k <= |s| && (s != "" && NameChar(s[0]) ==> k > 0)
    ensures forall i | 0 <= i < k :: NameChar(s[i])
    ensures k < |s| ==> !NameChar(s[k])
    decreases |s|
  {
    if s != "" && NameChar(s[0]) then 1 + NameLen(s[1..]) else 0
  }

  /** A value as read: its text, how many characters were copied, what follows, and whether a quote was closed. */
  datatype Value = Value(text: string, raw: nat, rest: string, closed: bool)

  predicate Escaped(s: string) {
    |s| > 1 && s[0] == '\\' && (s[1] == 'n' || s[1] == 'r')
  }

  function ReadQuoted(quote: char, s: string): (v: Value)
    ensures |v.rest| <= |s| && ('\n' !in s ==> '\n' !in v.rest)
    decreases |s|
  {
    if s == "" then Value("", 0, "", false)
    else if s[0] == quote then Value("", 0, s[1..], true)
    else if quote == '"' && Escaped(s) then
      Copied(if s[1] == 'n' then '\n' else '\r', ReadQuoted(quote, s[2..]))
    else Copied(s[0], ReadQuoted(quote, s[1..]))
  }

  function Copied(c: char, v: Value): Value {
    v.(text := [c] + v.text, raw := v.raw + 1)
  }

  predicate EndsBare(c: char) {
    c == '\n' || c == '\r' || c == '#'
  }

  function BareLen(s: string): (k: nat)
    ensures k <= |s| && (forall i | 0 <= i < k :: !EndsBare(s[i])) && (k < |s| ==> EndsBare(s[k]))
    decreases |s|
  {
    if s == "" || EndsBare(s[0]) then 0 else 1 + BareLen(s[1..])
  }

  function Trimmed(s: string): (r: string)
    ensures |r| <= |s| && r == s[..|r|] && (r != "" ==> !Blank(r[|r| - 1]))
    decreases |s|
  {
    if s != "" && Blank(s[|s| - 1]) then Trimmed(s[..|s| - 1]) else s
  }

  /** The form of a value is told by its first character. */
  function ReadValue(s: string): (v: Value)
    ensures |v.rest| <= |s| && ('\n' !in s ==> '\n' !in v.rest)
  {
    if s != "" && (s[0] == '\'' || s[0] == '"') then ReadQuoted(s[0], s[1..])
    else var k := BareLen(s); Value(Trimmed(s[..k]), k, s[k..], true)
  }

  /** A C string ends at its first NUL. */
  function CString(s: string): string
    decreases |s|
  {
    if s == "" || s[0] == '\0' then "" else [s[0]] + CString(s[1..])
  }

  /** What one turn of the loader's loop comes to. */
  datatype Turn =
    | AtEnd
    | Skipped(rest: string)
    | Assign(name: string, value: string, rest: string, closed: bool)
    | Refused(status: Status)

  function Turns(s: string): (t: Turn)
    ensures ((t.Assign? || t.Skipped?) ==> |t.rest| < |s|) && (t.Refused? ==> !t.status.Fine?)
  {
    var a := SkipBlanks(s);
    if a == "" then AtEnd
    else if EndsBare(a[0]) then Skipped(SkipLine(a))
    else Statement(if Exported(a) then SkipBlanks(a[6..]) else a)
  }

  predicate Exported(a: string) {
    |a| > 6 && a[..6] == "export" && Blank(a[6])
  }

  function Statement(b: string): (t: Turn)
    ensures if t.Refused? then !t.status.Fine? else t.Assign? && |t.rest| < |b|
  {
    if b == "" || !NameStart(b[0]) then Refused(Malformed)
    else if NameLen(b) > NameMax then Refused(TooLong)
    else Assignment(b[..NameLen(b)], SkipBlanks(b[NameLen(b)..]))
  }

  function Assignment(name: string, c: string): (t: Turn)
    ensures if t.Refused? then !t.status.Fine? else t.Assign? && |t.rest| < |c|
  {
    if c == "" || c[0] != '=' then Refused(Malformed)
    else
      var v := ReadValue(SkipBlanks(c[1..]));
      if v.raw > ValueMax then Refused(TooLong)
      else Assign(name, CString(v.text), SkipLine(v.rest), v.closed)
  }

  datatype Pair = Pair(name: string, value: string)

  datatype Contents = Contents(status: Status, pairs: seq<Pair>)

  /** The assignments of a text, up to where it is refused if it is. */
  function Parse(s: string): Contents
    decreases |s|
  {
    if s == "" then Contents(Fine, [])
    else
      match Turns(s)
      case AtEnd => Contents(Fine, [])
      case Skipped(rest) => Parse(rest)
      case Assign(name, value, rest, _) =>
        var c := Parse(rest);
        Contents(c.status, [Pair(name, value)] + c.pairs)
      case Refused(status) => Contents(status, [])
  }

  type Env = map<string, string>

  /** The environment wins. */
  function SetIfAbsent(env: Env, p: Pair): Env {
    if p.name in env then env else env[p.name := p.value]
  }

  function SetAll(env: Env, ps: seq<Pair>): Env
    decreases |ps|
  {
    if ps == [] then env else SetAll(SetIfAbsent(env, ps[0]), ps[1..])
  }

  /** Loading a file: what was set before a refusal stays set. */
  function Load(text: string, env: Env): (Status, Env) {
    if |text| > FileMax then (TooLong, env)
    else (Parse(text).status, SetAll(env, Parse(text).pairs))
  }

  // ----- writing -----

  predicate Plain(c: char) {
    'A' <= c <= 'Z' || 'a' <= c <= 'z' || '0' <= c <= '9' || c in "_@%+:,./=-"
  }

  predicate AllPlain(s: string) {
    forall i | 0 <= i < |s| :: Plain(s[i])
  }

  predicate HasEscape(s: string) {
    exists i | 0 <= i < |s| :: Escaped(s[i..])
  }

  datatype Form = Bare | Quoted(quote: char) | NoForm

  function FormFor(value: string): Form {
    if AllPlain(value) then Bare
    else if '\'' !in value then Quoted('\'')
    else if '"' !in value && !HasEscape(value) then Quoted('"')
    else NoForm
  }

  /** The text behind the equals sign, for a value that some form carries. */
  function ValueText(value: string): string {
    match FormFor(value)
    case Bare => value
    case Quoted(q) => [q] + value + [q]
    case NoForm => ""
  }

  function AssignmentText(e: Pair): string {
    e.name + ("=" + (ValueText(e.value) + "\n"))
  }

  /** What has been written, or why writing stopped. */
  datatype Output = Text(text: string) | Failed(status: Status)

  function AppendAssignment(out: string, e: Pair): Output {
    if FormFor(e.value).NoForm? || |out| + |AssignmentText(e)| > FileMax then Failed(Malformed)
    else Text(out + AssignmentText(e))
  }

  function AppendLine(out: string, line: string): Output {
    if |out| + |line| + 1 >= FileMax then Failed(TooLong) else Text(out + line + "\n")
  }

  /** The line that `s` starts with, without its newline. */
  function FirstLine(s: string): (l: string)
    ensures |l| <= |s| && l == s[..|l|] && '\n' !in l
    decreases |s|
  {
    if s == "" || s[0] == '\n' then "" else [s[0]] + FirstLine(s[1..])
  }

  /** The name the writer sees a line assign to. */
  function NameOn(line: string): Option<string> {
    var a := SkipBlanks(line);
    if a == "" || !NameStart(a[0]) then None
    else
      var c := SkipBlanks(a[NameLen(a)..]);
      if c == "" || c[0] != '=' then None else Some(a[..NameLen(a)])
  }

  /** The first entry of that name that has not been written, or the number of entries. */
  function Find(name: string, entries: seq<Pair>, written: seq<bool>, i: nat): (k: nat)
    requires |written| == |entries| && i <= |entries|
    ensures i <= k <= |entries| && (k < |entries| ==> !written[k] && entries[k].name == name)
    ensures forall j | i <= j < k :: written[j] || entries[j].name != name
    decreases |entries| - i
  {
    if i == |entries| || (!written[i] && entries[i].name == name) then i else Find(name, entries, written, i + 1)
  }

  function Assigned(line: string, entries: seq<Pair>, written: seq<bool>): (k: nat)
    requires |written| == |entries|
    ensures k <= |entries|
  {
    match NameOn(line)
    case None => |entries|
    case Some(name) => Find(name, entries, written, 0)
  }

  datatype Rewriting = Rewriting(out: Output, written: seq<bool>)

  /** The existing lines, each as it stands or replaced by an answer. */
  function Rewrite(s: string, entries: seq<Pair>, written: seq<bool>, out: string): (r: Rewriting)
    requires |written| == |entries|
    ensures |r.written| == |entries|
    decreases |s|
  {
    if s == "" then Rewriting(Text(out), written)
    else
      var line := FirstLine(s);
      var k := Assigned(line, entries, written);
      if k < |entries| then
        match AppendAssignment(out, entries[k])
        case Failed(st) => Rewriting(Failed(st), written)
        case Text(t) => Rewrite(SkipLine(s), entries, written[k := true], t)
      else
        match AppendLine(out, line)
        case Failed(st) => Rewriting(Failed(st), written)
        case Text(t) => Rewrite(SkipLine(s), entries, written, t)
  }

  const HeadingText: string := " written by the setup command"

  function Heading(out: string): string {
    var line := "#" + HeadingText + "\n";
    if out == "" then line else "\n" + line
  }

  function AppendRest(entries: seq<Pair>, written: seq<bool>, i: nat, heading: bool, out: string): Output
    requires |written| == |entries| && i <= |entries|
    decreases |entries| - i
  {
    if i == |entries| then Text(out)
    else if written[i] then AppendRest(entries, written, i + 1, heading, out)
    else if !heading && |out| + |Heading(out)| >= FileMax then Failed(TooLong)
    else
      var head := if heading then out else out + Heading(out);
      match AppendAssignment(head, entries[i])
      case Failed(st) => Failed(st)
      case Text(t) => AppendRest(entries, written, i + 1, true, t)
  }

  /** The new file, or why there is none; a file that is not there counts as empty. */
  function Write(existing: string, entries: seq<Pair>): Output {
    if |entries| > EntriesMax then Failed(InvalidArgument)
    else if |existing| > FileMax then Failed(TooLong)
    else
      var r := Rewrite(existing, entries, seq(|entries|, _ => false), "");
      match r.out
      case Failed(st) => Failed(st)
      case Text(out) => AppendRest(entries, r.written, 0, false, out)
  }
}
