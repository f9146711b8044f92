/**
 * The chunked request body (section 7.1 of RFC 9112) as a resumable decoder. `Run` says what decoding
 * does to the bytes received so far; reads may end anywhere, so the questions are whether the answer
 * depends on where they end, and whether every legal encoding is undone. `ChunkedBuffer` has the
 * decoder that works in place.
 */
module Chunked {

  datatype Mode = Size | Data | DataCrlf | Trailer | End

  datatype Verdict = NeedMore | Finished | Bad | TooLarge

  /** Where decoding stands: the next wire byte, what is left of a chunk, and the body so far. */
  datatype Dec = Dec(mode: Mode, pos: nat, remaining: nat, body: string)

  datatype Limits = Limits(body: nat, line: nat, trailer: nat)

  datatype Outcome = Goes(d: Dec) | Stops(v: Verdict, d: Dec)

  /** The first newline at or after `from`, or the length when there is none. */
  function Newline(w: string, from: nat): (k: nat)
    requires from <= |w|
    ensures from <= k <= |w|
    ensures k < |w| ==> w[k] == '\n'
    ensures forall j | from <= j < k :: w[j] != '\n'
    decreases |w| - from
  {
    if from == |w| || w[from] == '\n' then from else Newline(w, from + 1)
  }

  function HexDigit(ch: char): (d: int)
    ensures -1 <= d < 16
  {
    if '0' <= ch <= '9' then ch as int - '0' as int
    else if 'a' <= ch <= 'f' then ch as int - 'a' as int + 10
    else if 'A' <= ch <= 'F' then ch as int - 'A' as int + 10
    else -1
  }

  datatype Parsed = Parsed(size: nat, digits: nat) | Over

  /** The size on a line: hexadecimal digits up to the first other character. */
  function ParseSize(max: nat, line: string, i: nat, size: nat): Parsed
    requires i <= |line|
    decreases |line| - i
  {
    if i == |line| || HexDigit(line[i]) < 0 then Parsed(size, i)
    else
      var next := size * 16 + HexDigit(line[i]);
      if next > max then Over else ParseSize(max, line, i + 1, next)
  }

  function Min(a: nat, b: nat): nat {
    if a < b then a else b
  }

  function SizeStep(l: Limits, w: string, d: Dec): Outcome
    requires d.pos <= |w|
  {
    var nl := Newline(w, d.pos);
    if nl == |w| then Stops(if |w| - d.pos > l.line then Bad else NeedMore, d)
    else if nl - d.pos + 1 > l.line then Stops(Bad, d)
    else SizeRead(l, d, nl + 1, ParseSize(l.body, w[d.pos..nl + 1], 0, 0))
  }

  function SizeRead(l: Limits, d: Dec, past: nat, p: Parsed): Outcome {
    match p
    case Over => Stops(TooLarge, d)
    case Parsed(size, digits) =>
      if digits == 0 then Stops(Bad, d)
      else if size == 0 then Goes(d.(pos := past, mode := Trailer))
      else if |d.body| + size > l.body then Stops(TooLarge, d.(pos := past))
      else Goes(d.(pos := past, remaining := size, mode := Data))
  }

  function DataStep(w: string, d: Dec): Outcome
    requires d.pos <= |w|
  {
    var n := Min(|w| - d.pos, d.remaining);
    var d1 := d.(body := d.body + w[d.pos..d.pos + n], pos := d.pos + n, remaining := d.remaining - n);
    if d1.remaining != 0 then Stops(NeedMore, d1) else Goes(d1.(mode := DataCrlf))
  }

  function CrlfStep(w: string, d: Dec): Outcome
    requires d.pos <= |w|
  {
    if |w| - d.pos < 2 then Stops(NeedMore, d)
    else if w[d.pos] != '\r' || w[d.pos + 1] != '\n' then Stops(Bad, d)
    else Goes(d.(pos := d.pos + 2, mode := Size))
  }

  function TrailerStep(l: Limits, w: string, d: Dec): Outcome
    requires d.pos <= |w|
  {
    var nl := Newline(w, d.pos);
    if nl == |w| then Stops(if |w| - d.pos > l.trailer then Bad else NeedMore, d)
    else if nl - d.pos + 1 <= 2 then Stops(Finished, d.(pos := nl + 1, mode := End))
    else Goes(d.(pos := nl + 1))
  }

  /** One turn of the decoder's loop over the bytes `w` received so far. */
  function Step(l: Limits, w: string, d: Dec): Outcome
    requires d.pos <= |w|
  {
    match d.mode
    case Size => SizeStep(l, w, d)
    case Data => DataStep(w, d)
    case DataCrlf => CrlfStep(w, d)
    case Trailer => TrailerStep(l, w, d)
    case End => Stops(Finished, d)
  }

  lemma StepAdvances(l: Limits, w: string, d: Dec)
    requires d.pos <= |w|
    ensures Step(l, w, d).d.pos <= |w| && Step(l, w, d).d.pos >= d.pos
    ensures Step(l, w, d).Goes? ==> Step(l, w, d).d.pos > d.pos || (d.mode.Data? && Step(l, w, d).d.mode.DataCrlf?)
  {
  }

  function Run(l: Limits, w: string, d: Dec): (Verdict, Dec)
    requires d.pos <= |w|
    decreases |w| - d.pos, if d.mode.Data? then 1 else 0
  {
    StepAdvances(l, w, d);
    match Step(l, w, d)
    case Goes(d1) => Run(l, w, d1)
    case Stops(v, d1) => (v, d1)
  }

  // ----- where the reads end does not matter -----

  /** Every complete trailer line the run comes to is at most one byte over the limit, newline included. */
  predicate ShortTrailers(l: Limits, w: string, d: Dec)
    requires d.pos <= |w|
    decreases |w| - d.pos, if d.mode.Data? then 1 else 0
  {
    StepAdvances(l, w, d);
    && (d.mode.Trailer? && Newline(w, d.pos) < |w| ==> Newline(w, d.pos) - d.pos <= l.trailer)
    && (Step(l, w, d).Goes? ==> ShortTrailers(l, w, Step(l, w, d).d))
  }

  lemma NewlineIn(w: string, x: string, from: nat)
    requires from <= |w|
    ensures Newline(w, from) < |w| ==> Newline(w + x, from) == Newline(w, from)
    ensures Newline(w, from) == |w| ==> Newline(w + x, from) >= |w|
  {
    var k, m := Newline(w, from), Newline(w + x, from);
    if m < |w| {
      assert (w + x)[m] == w[m];
    }
    if k < |w| {
      assert (w + x)[k] == w[k];
    }
  }

  /** More bytes do not change a turn that did not have to wait. */
  lemma StepExtends(l: Limits, w: string, x: string, d: Dec)
    requires d.pos <= |w|
    ensures Step(l, w, d).Goes? ==> Step(l, w + x, d) == Step(l, w, d)
    ensures Step(l, w, d).Stops? && !Step(l, w, d).v.NeedMore? && ShortTrailers(l, w + x, d) ==> Step(l, w + x, d) == Step(l, w, d)
    ensures Step(l, w, d).Stops? && Step(l, w, d).v.Finished? ==> Step(l, w + x, d) == Step(l, w, d)
  {
    NewlineIn(w, x, d.pos);
    if d.mode.Size? && Newline(w, d.pos) < |w| {
      assert (w + x)[d.pos..Newline(w, d.pos) + 1] == w[d.pos..Newline(w, d.pos) + 1];
    }
    if d.mode.Data? {
      var n := Min(|w| - d.pos, d.remaining);
      assert (w + x)[d.pos..d.pos + n] == w[d.pos..d.pos + n];
    }
  }

  lemma Splices(body: string, y: string, i: nat, j: nat, k: nat)
    requires i <= j <= k <= |y|
    ensures body + y[i..k] == (body + y[i..j]) + y[j..k]
  {
  }

  lemma DataWaits(w: string, x: string, d: Dec)
    requires d.pos <= |w| && DataStep(w, d).Stops?
    ensures DataStep(w + x, d) == DataStep(w + x, DataStep(w, d).d)
  {
    var y := w + x;
    var n := Min(|y| - d.pos, d.remaining);
    assert y[d.pos..|w|] == w[d.pos..|w|];
    Splices(d.body, y, d.pos, |w|, d.pos + n);
  }

  /** A turn that waited left a state from which the longer input is read as from the start of the turn. */
  lemma WaitedStep(l: Limits, w: string, x: string, d: Dec)
    requires d.pos <= |w| && Step(l, w, d).Stops? && Step(l, w, d).v.NeedMore?
    ensures Step(l, w, d).d.pos <= |w + x| && Step(l, w + x, d) == Step(l, w + x, Step(l, w, d).d)
    ensures d.mode == Step(l, w, d).d.mode && (!d.mode.Data? ==> Step(l, w, d).d == d)
  {
    if d.mode.Data? {
      DataWaits(w, x, d);
    }
  }

  lemma {:induction false} RunExtends(l: Limits, w: string, x: string, d: Dec)
    requires d.pos <= |w| && ShortTrailers(l, w + x, d)
    ensures Run(l, w, d).1.pos <= |w|
    ensures var (v, d1) := Run(l, w, d);
            if v.NeedMore? then Run(l, w + x, d) == Run(l, w + x, d1) && ShortTrailers(l, w + x, d1)
            else Run(l, w + x, d) == (v, d1)
    decreases |w| - d.pos, if d.mode.Data? then 1 else 0
  {
    StepAdvances(l, w, d);
    StepAdvances(l, w + x, d);
    StepExtends(l, w, x, d);
    var o := Step(l, w, d);
    if o.Goes? {
      RunExtends(l, w, x, o.d);
    } else if o.v.NeedMore? {
      WaitedStep(l, w, x, d);
    }
  }

  function Join(parts: seq<string>): string {
    if parts == [] then "" else parts[0] + Join(parts[1..])
  }

  /** Decoding read by read: the next read is only taken while the answer is that more is needed. */
  function Feed(l: Limits, w: string, d: Dec, parts: seq<string>): (Verdict, Dec)
    requires d.pos <= |w|
    decreases |parts|
  {
    if parts == [] then (NeedMore, d)
    else
      var w1 := w + parts[0];
      var (v, d1) := Run(l, w1, d);
      if v.NeedMore? && |parts| > 1 && d1.pos <= |w1| then Feed(l, w1, d1, parts[1..]) else (v, d1)
  }

  /** Verdict, body and consumed length are those of decoding everything at once, however it is split. */
  lemma {:induction false} SplitDoesNotMatter(l: Limits, w: string, d: Dec, parts: seq<string>)
    requires d.pos <= |w| && parts != [] && ShortTrailers(l, w + Join(parts), d)
    ensures Feed(l, w, d, parts) == Run(l, w + Join(parts), d)
    decreases |parts|
  {
    var w1, rest := w + parts[0], Join(parts[1..]);
    assert w + Join(parts) == w1 + rest;
    RunExtends(l, w1, rest, d);
    var (v, d1) := Run(l, w1, d);
    if |parts| == 1 {
      assert w1 + rest == w1;
    } else if v.NeedMore? {
      SplitDoesNotMatter(l, w1, d1, parts[1..]);
    }
  }

  lemma StepOfPrefix(l: Limits, w: string, cut: nat, d: Dec)
    requires d.pos <= |w| && Step(l, w, d).Goes? && Step(l, w, d).d.pos <= cut <= |w|
    ensures d.pos <= cut && Step(l, w[..cut], d) == Step(l, w, d)
  {
    hide Newline, ParseSize;
    StepAdvances(l, w, d);
    var p := w[..cut];
    assert p + w[cut..] == w;
    NewlineIn(p, w[cut..], d.pos);
    if d.mode.Size? {
      assert p[d.pos..Newline(w, d.pos) + 1] == w[d.pos..Newline(w, d.pos) + 1];
    }
    if d.mode.Data? {
      assert p[d.pos..d.pos + d.remaining] == w[d.pos..d.pos + d.remaining];
    }
  }

  lemma {:induction false} RunOnward(l: Limits, w: string, d: Dec)
    requires d.pos <= |w|
    ensures d.pos <= Run(l, w, d).1.pos <= |w|
    decreases |w| - d.pos, if d.mode.Data? then 1 else 0
  {
    StepAdvances(l, w, d);
    if Step(l, w, d).Goes? {
      RunOnward(l, w, Step(l, w, d).d);
    }
  }

  /**
   * And only then: an input with a longer trailer line has a place to end a read at which the decoder
   * refuses it, short of what decoding it at once consumes.
   */
  lemma {:induction false} LongTrailerSplits(l: Limits, w: string, d: Dec) returns (cut: nat)
    requires d.pos <= |w| && !ShortTrailers(l, w, d)
    ensures d.pos <= cut < |w| && Run(l, w[..cut], d).0.Bad? && Run(l, w[..cut], d).1.pos < Run(l, w, d).1.pos
    decreases |w| - d.pos, if d.mode.Data? then 1 else 0
  {
    StepAdvances(l, w, d);
    var nl := Newline(w, d.pos);
    if d.mode.Trailer? && nl < |w| && nl - d.pos > l.trailer {
      cut := d.pos + l.trailer + 1;
      var p := w[..cut];
      assert p + w[cut..] == w;
      NewlineIn(p, w[cut..], d.pos);
      if Step(l, w, d).Goes? {
        RunOnward(l, w, Step(l, w, d).d);
      }
    } else {
      var d1 := Step(l, w, d).d;
      cut := LongTrailerSplits(l, w, d1);
      StepOfPrefix(l, w, cut, d);
      StepAdvances(l, w[..cut], d);
    }
  }

  lemma FeedStops(l: Limits, h: string, d: Dec, a: string, b: string)
    requires d.pos <= |h| && !Run(l, h + a, d).0.NeedMore?
    ensures Feed(l, h, d, [a, b]) == Run(l, h + a, d) && Join([a, b]) == a + b
  {
    hide Run;
    assert [a, b][1..] == [b] && [b][1..] == [];
    assert Join([b]) == b + Join([]) == b;
  }

  /** Decoding is independent of the split exactly when no trailer line is longer than that. */
  lemma SplitIndependentIff(l: Limits, w: string, d: Dec)
    requires d.pos <= |w|
    ensures (forall parts: seq<string> | parts != [] && w == w[..d.pos] + Join(parts) ::
               Feed(l, w[..d.pos], d, parts) == Run(l, w, d)) <==> ShortTrailers(l, w, d)
  {
    hide Run, Feed, ShortTrailers, Join;
    var h := w[..d.pos];
    if ShortTrailers(l, w, d) {
      forall parts: seq<string> | parts != [] && w == h + Join(parts)
        ensures Feed(l, h, d, parts) == Run(l, w, d)
      {
        SplitDoesNotMatter(l, h, d, parts);
      }
    } else {
      var cut := LongTrailerSplits(l, w, d);
      var a, b := w[d.pos..cut], w[cut..];
      assert h + a == w[..cut] && h + (a + b) == w;
      FeedStops(l, h, d, a, b);
      var parts := [a, b];
      assert parts != [] && w == h + Join(parts) && Feed(l, h, d, parts) != Run(l, w, d);
    }
  }

  // ----- every chunking is undone -----

  /** A chunk as it stands on the wire: size digits, extensions, data. */
  datatype Chunk = Chunk(digits: string, ext: string, data: string)

  const CRLF := "\r\n"

  function HexValue(digits: string): nat
    requires forall i | 0 <= i < |digits| :: HexDigit(digits[i]) >= 0
  {
    if digits == "" then 0 else HexValue(digits[..|digits| - 1]) * 16 + HexDigit(digits[|digits| - 1])
  }

  predicate SizeLine(l: Limits, digits: string, ext: string) {
    && digits != "" && (forall i | 0 <= i < |digits| :: HexDigit(digits[i]) >= 0)
    && (ext != "" ==> HexDigit(ext[0]) < 0) && '\n' !in ext
    && |digits| + |ext| + 2 <= l.line
  }

  predicate LegalChunk(l: Limits, c: Chunk) {
    SizeLine(l, c.digits, c.ext) && HexValue(c.digits) == |c.data| > 0
  }

  function ChunkText(c: Chunk): string {
    c.digits + c.ext + CRLF + c.data + CRLF
  }

  function ChunksText(cs: seq<Chunk>): string {
    if cs == [] then "" else ChunkText(cs[0]) + ChunksText(cs[1..])
  }

  function BodyOf(cs: seq<Chunk>): string {
    if cs == [] then "" else cs[0].data + BodyOf(cs[1..])
  }

  predicate LegalTrailer(line: string) {
    line != "" && '\n' !in line
  }

  function TrailersText(ts: seq<string>): string {
    if ts == [] then CRLF else ts[0] + CRLF + TrailersText(ts[1..])
  }

  /** A whole body: its chunks, the last chunk of size zero, the trailer section. */
  function BodyText(cs: seq<Chunk>, last: Chunk, ts: seq<string>): string {
    ChunksText(cs) + (last.digits + last.ext + CRLF + TrailersText(ts))
  }

  predicate LegalBody(l: Limits, cs: seq<Chunk>, last: Chunk, ts: seq<string>) {
    && (forall i | 0 <= i < |cs| :: LegalChunk(l, cs[i]))
    && SizeLine(l, last.digits, last.ext) && HexValue(last.digits) == 0
    && (forall i | 0 <= i < |ts| :: LegalTrailer(ts[i]))
    && |BodyOf(cs)| <= l.body
  }

  lemma {:induction false} HexPrefix(digits: string, i: nat)
    requires i <= |digits| && forall k | 0 <= k < |digits| :: HexDigit(digits[k]) >= 0
    ensures HexValue(digits[..i]) <= HexValue(digits)
    decreases |digits|
  {
    if i < |digits| {
      assert digits[..|digits| - 1][..i] == digits[..i];
      HexPrefix(digits[..|digits| - 1], i);
    } else {
      assert digits[..i] == digits;
    }
  }

  lemma {:induction false} ParseReads(max: nat, digits: string, after: string, i: nat)
    requires i <= |digits| && forall k | 0 <= k < |digits| :: HexDigit(digits[k]) >= 0
    requires after != "" ==> HexDigit(after[0]) < 0
    requires HexValue(digits) <= max
    ensures ParseSize(max, digits + after, i, HexValue(digits[..i])) == Parsed(HexValue(digits), |digits|)
    decreases |digits| - i
  {
    if i < |digits| {
      assert digits[..i + 1][..i] == digits[..i];
      HexPrefix(digits, i + 1);
      ParseReads(max, digits, after, i + 1);
    } else {
      assert digits[..i] == digits;
    }
  }

  lemma NewlineAt(w: string, from: nat, k: nat)
    requires from <= k < |w| && w[k] == '\n' && forall j | from <= j < k :: w[j] != '\n'
    ensures Newline(w, from) == k
  {
  }

  /** `s` stands in `w` at `p`. */
  predicate At(w: string, p: nat, s: string) {
    p + |s| <= |w| && w[p..p + |s|] == s
  }

  lemma AtSplit(w: string, p: nat, a: string, b: string)
    requires At(w, p, a + b)
    ensures At(w, p, a) && At(w, p + |a|, b)
  {
    var s := w[p..p + |a + b|];
    assert w[p..p + |a|] == s[..|a|] == a;
    assert w[p + |a|..p + |a| + |b|] == s[|a|..] == b;
  }

  lemma AtBound(w: string, p: nat, s: string)
    requires At(w, p, s)
    ensures p + |s| <= |w|
  {
  }

  /** A line without a newline of its own, and the end of the line behind it. */
  lemma LineAt(w: string, p: nat, line: string)
    requires At(w, p, line + CRLF) && '\n' !in line
    ensures Newline(w, p) == p + |line| + 1 && w[p..p + |line| + 2] == line + CRLF
  {
    var s := line + CRLF;
    forall j | 0 <= j < |s|
      ensures w[p + j] == s[j]
    {
      assert w[p..p + |s|][j] == s[j];
    }
    NewlineAt(w, p, p + |line| + 1);
  }

  lemma SizeLineParses(l: Limits, digits: string, ext: string)
    requires SizeLine(l, digits, ext) && HexValue(digits) <= l.body
    ensures '\n' !in digits + ext
    ensures ParseSize(l.body, digits + ext + CRLF, 0, 0) == Parsed(HexValue(digits), |digits|)
  {
    forall j | 0 <= j < |digits|
      ensures digits[j] != '\n'
    {
      assert HexDigit(digits[j]) >= 0;
    }
    hide HexDigit, ParseSize;
    assert (ext + CRLF)[0] == if ext == "" then '\r' else ext[0];
    assert digits + ext + CRLF == digits + (ext + CRLF);
    assert digits[..0] == "" && HexValue("") == 0;
    assert HexDigit('\r') == -1 by {
      NotHex();
    }
    ParseReads(l.body, digits, ext + CRLF, 0);
  }

  lemma NotHex()
    ensures HexDigit('\r') == -1
  {
  }

  lemma AtLine(l: Limits, w: string, d: Dec, line: string, p: Parsed)
    requires d.mode.Size? && At(w, d.pos, line + CRLF) && '\n' !in line && |line| + 2 <= l.line
    requires ParseSize(l.body, line + CRLF, 0, 0) == p
    ensures Step(l, w, d) == SizeRead(l, d, d.pos + |line| + 2, p)
  {
    hide ParseSize, Newline, At, DataStep, CrlfStep, TrailerStep, SizeRead;
    AtBound(w, d.pos, line + CRLF);
    LineAt(w, d.pos, line);
  }

  /** The decoder at a size line reads the size and moves past the line. */
  lemma AtSizeLine(l: Limits, w: string, d: Dec, digits: string, ext: string)
    requires d.mode.Size? && At(w, d.pos, digits + ext + CRLF)
    requires SizeLine(l, digits, ext) && HexValue(digits) <= l.body
    ensures digits != "" && Step(l, w, d) == SizeRead(l, d, d.pos + |digits| + |ext| + 2, Parsed(HexValue(digits), |digits|))
  {
    hide HexDigit, HexValue, ParseSize, At, Step;
    SizeLineParses(l, digits, ext);
    AtLine(l, w, d, digits + ext, Parsed(HexValue(digits), |digits|));
  }

  lemma AtData(w: string, d: Dec, data: string)
    requires d.mode.Data? && d.remaining == |data| && At(w, d.pos, data)
    ensures DataStep(w, d) == Goes(Dec(DataCrlf, d.pos + |data|, 0, d.body + data))
  {
  }

  lemma AtCrlf(w: string, d: Dec)
    requires d.mode.DataCrlf? && At(w, d.pos, CRLF)
    ensures CrlfStep(w, d) == Goes(d.(pos := d.pos + 2, mode := Size))
  {
    assert w[d.pos..d.pos + 2][0] == '\r' && w[d.pos..d.pos + 2][1] == '\n';
  }

  lemma Turns(l: Limits, w: string, d: Dec)
    requires d.pos <= |w| && Step(l, w, d).Goes?
    ensures Step(l, w, d).d.pos <= |w| && Run(l, w, d) == Run(l, w, Step(l, w, d).d)
    ensures !d.mode.Trailer? ==> (ShortTrailers(l, w, d) <==> ShortTrailers(l, w, Step(l, w, d).d))
  {
    StepAdvances(l, w, d);
  }

  /** From a size line over a whole chunk to the next size line. */
  lemma ChunkRun(l: Limits, w: string, d: Dec, c: Chunk)
    requires d.mode.Size? && d.remaining == 0 && At(w, d.pos, ChunkText(c))
    requires LegalChunk(l, c) && |d.body| + |c.data| <= l.body
    ensures var d1 := Dec(Size, d.pos + |ChunkText(c)|, 0, d.body + c.data);
            d1.pos <= |w| && Run(l, w, d) == Run(l, w, d1) && (ShortTrailers(l, w, d) <==> ShortTrailers(l, w, d1))
  {
    hide HexDigit, HexValue, Run, ShortTrailers, SizeLine, At, SizeStep, DataStep, CrlfStep;
    var line := c.digits + c.ext + CRLF;
    AtSplit(w, d.pos, line + c.data, CRLF);
    AtSplit(w, d.pos, line, c.data);
    AtSizeLine(l, w, d, c.digits, c.ext);
    var p := d.pos + |line|;
    var d2 := Dec(Data, p, |c.data|, d.body);
    AtData(w, d2, c.data);
    var d3 := Dec(DataCrlf, p + |c.data|, 0, d.body + c.data);
    AtCrlf(w, d3);
    AtBound(w, d3.pos, CRLF);
    Turns(l, w, d);
    Turns(l, w, d2);
    Turns(l, w, d3);
  }

  lemma {:induction false} ChunksRun(l: Limits, w: string, d: Dec, cs: seq<Chunk>)
    requires d.mode.Size? && d.remaining == 0 && At(w, d.pos, ChunksText(cs))
    requires forall i | 0 <= i < |cs| :: LegalChunk(l, cs[i])
    requires |d.body| + |BodyOf(cs)| <= l.body
    ensures var d1 := Dec(Size, d.pos + |ChunksText(cs)|, 0, d.body + BodyOf(cs));
            d1.pos <= |w| && Run(l, w, d) == Run(l, w, d1) && (ShortTrailers(l, w, d) <==> ShortTrailers(l, w, d1))
    decreases |cs|
  {
    hide Run, ShortTrailers, ChunkText, At;
    if cs == [] {
      assert d.body + BodyOf(cs) == d.body;
      AtSplit(w, d.pos, "", "");
    } else {
      AtSplit(w, d.pos, ChunkText(cs[0]), ChunksText(cs[1..]));
      ChunkRun(l, w, d, cs[0]);
      var d1 := Dec(Size, d.pos + |ChunkText(cs[0])|, 0, d.body + cs[0].data);
      ChunksRun(l, w, d1, cs[1..]);
      assert d.body + (cs[0].data + BodyOf(cs[1..])) == d1.body + BodyOf(cs[1..]);
    }
  }

  lemma {:induction false} TrailersRun(l: Limits, w: string, d: Dec, ts: seq<string>)
    requires d.mode.Trailer? && At(w, d.pos, TrailersText(ts))
    requires forall i | 0 <= i < |ts| :: LegalTrailer(ts[i])
    ensures Run(l, w, d) == (Finished, d.(mode := End, pos := d.pos + |TrailersText(ts)|))
    decreases |ts|
  {
    if ts == [] {
      assert "" + CRLF == CRLF;
      LineAt(w, d.pos, "");
    } else {
      AtSplit(w, d.pos, ts[0] + CRLF, TrailersText(ts[1..]));
      LineAt(w, d.pos, ts[0]);
      var d1 := d.(pos := d.pos + |ts[0]| + 2);
      assert TrailerStep(l, w, d) == Goes(d1);
      hide TrailerStep, At;
      TrailersRun(l, w, d1, ts[1..]);
    }
  }

  lemma {:induction false} TrailersShort(l: Limits, w: string, d: Dec, ts: seq<string>)
    requires d.mode.Trailer? && At(w, d.pos, TrailersText(ts))
    requires forall i | 0 <= i < |ts| :: LegalTrailer(ts[i])
    ensures d.pos <= |w|
    ensures ShortTrailers(l, w, d) <==> 1 <= l.trailer && forall i | 0 <= i < |ts| :: |ts[i]| + 1 <= l.trailer
    decreases |ts|
  {
    if ts == [] {
      assert "" + CRLF == CRLF;
      LineAt(w, d.pos, "");
    } else {
      AtSplit(w, d.pos, ts[0] + CRLF, TrailersText(ts[1..]));
      LineAt(w, d.pos, ts[0]);
      var d1 := d.(pos := d.pos + |ts[0]| + 2);
      assert TrailerStep(l, w, d) == Goes(d1);
      hide TrailerStep, At;
      TrailersShort(l, w, d1, ts[1..]);
      assert forall i | 0 < i < |ts| :: ts[i] == ts[1..][i - 1];
    }
  }

  /** Where decoding a whole legal body comes to its trailers. */
  lemma ToTrailers(l: Limits, w: string, head: nat, cs: seq<Chunk>, last: Chunk, ts: seq<string>) returns (d: Dec)
    requires LegalBody(l, cs, last, ts) && At(w, head, BodyText(cs, last, ts))
    ensures d.pos <= |w| && d.mode.Trailer? && At(w, d.pos, TrailersText(ts))
    ensures d.pos + |TrailersText(ts)| == head + |BodyText(cs, last, ts)| && d.remaining == 0 && d.body == BodyOf(cs)
    ensures head <= |w| && Run(l, w, Dec(Size, head, 0, "")) == Run(l, w, d)
    ensures ShortTrailers(l, w, Dec(Size, head, 0, "")) <==> ShortTrailers(l, w, d)
  {
    hide Run, ShortTrailers, HexDigit, HexValue, SizeLine, At, ChunksText, TrailersText, BodyOf;
    var line := last.digits + last.ext + CRLF;
    AtSplit(w, head, ChunksText(cs), line + TrailersText(ts));
    ChunksRun(l, w, Dec(Size, head, 0, ""), cs);
    assert "" + BodyOf(cs) == BodyOf(cs);
    var d1 := Dec(Size, head + |ChunksText(cs)|, 0, BodyOf(cs));
    AtSplit(w, d1.pos, line, TrailersText(ts));
    AtSizeLine(l, w, d1, last.digits, last.ext);
    d := Dec(Trailer, d1.pos + |line|, 0, BodyOf(cs));
    AtBound(w, d1.pos, line);
    Turns(l, w, d1);
  }

  /**
   * Decoding any chunking of a body within the limits gives that body and consumes exactly its
   * encoding, whatever stands before and after it -- so what follows is the next request's first byte.
   */
  lemma DecodesEveryChunking(l: Limits, w: string, head: nat, cs: seq<Chunk>, last: Chunk, ts: seq<string>)
    requires LegalBody(l, cs, last, ts) && At(w, head, BodyText(cs, last, ts))
    ensures head <= |w| && Run(l, w, Dec(Size, head, 0, "")) == (Finished, Dec(End, head + |BodyText(cs, last, ts)|, 0, BodyOf(cs)))
  {
    hide Run, ShortTrailers, BodyText, BodyOf, At, TrailersText;
    var d := ToTrailers(l, w, head, cs, last, ts);
    TrailersRun(l, w, d, ts);
  }

  /** What a sender can see of a body: decoding it is independent of the reads exactly if its trailer lines are short. */
  lemma ShortTrailersIff(l: Limits, w: string, head: nat, cs: seq<Chunk>, last: Chunk, ts: seq<string>)
    requires LegalBody(l, cs, last, ts) && At(w, head, BodyText(cs, last, ts))
    ensures head <= |w|
    ensures ShortTrailers(l, w, Dec(Size, head, 0, "")) <==>
            1 <= l.trailer && forall i | 0 <= i < |ts| :: |ts[i]| + 1 <= l.trailer
  {
    hide Run, ShortTrailers, BodyText, BodyOf, At, TrailersText;
    var d := ToTrailers(l, w, head, cs, last, ts);
    TrailersShort(l, w, d, ts);
  }

  // ----- what fits the buffer -----

  lemma {:induction false} FinishedExtends(l: Limits, w: string, x: string, d: Dec)
    requires d.pos <= |w| && Run(l, w, d).0.Finished?
    ensures Run(l, w + x, d) == Run(l, w, d) && Run(l, w, d).1.pos <= |w|
    decreases |w| - d.pos, if d.mode.Data? then 1 else 0
  {
    StepAdvances(l, w, d);
    StepAdvances(l, w + x, d);
    StepExtends(l, w, x, d);
    if Step(l, w, d).Goes? {
      FinishedExtends(l, w, x, Step(l, w, d).d);
    }
  }

  /** In a buffer of that size the body of a request can come to its end. */
  ghost predicate CanFinish(l: Limits, w: string, head: nat, size: nat) {
    exists n | head <= n <= |w| :: n <= size && Run(l, w[..n], Dec(Size, head, 0, "")).0.Finished?
  }

  /**
   * A buffer holds what has arrived from the head on, decoded or not. So a legal body can come to its end
   * in one exactly if the head and the encoding fit, however short the body itself is.
   */
  lemma CanFinishIff(l: Limits, w: string, head: nat, cs: seq<Chunk>, last: Chunk, ts: seq<string>, size: nat)
    requires LegalBody(l, cs, last, ts) && At(w, head, BodyText(cs, last, ts))
    ensures CanFinish(l, w, head, size) <==> head + |BodyText(cs, last, ts)| <= size
  {
    hide Run, LegalBody, BodyText, BodyOf;
    var d, all := Dec(Size, head, 0, ""), head + |BodyText(cs, last, ts)|;
    DecodesEveryChunking(l, w, head, cs, last, ts);
    forall n | head <= n <= |w| && n <= size && Run(l, w[..n], d).0.Finished?
      ensures all <= size
    {
      assert w[..n] + w[n..] == w;
      FinishedExtends(l, w[..n], w[n..], d);
    }
    if all <= size {
      assert w[..all][head..all] == w[head..all];
      DecodesEveryChunking(l, w[..all], head, cs, last, ts);
    }
  }

  /** A body in chunks of one byte each. */
  function OneByteChunks(n: nat): seq<Chunk> {
    if n == 0 then [] else [Chunk("1", "", "x")] + OneByteChunks(n - 1)
  }

  lemma {:induction false} OneByteText(n: nat)
    ensures |ChunksText(OneByteChunks(n))| == 6 * n && |BodyOf(OneByteChunks(n))| == n
    ensures forall i | 0 <= i < |OneByteChunks(n)| :: OneByteChunks(n)[i] == Chunk("1", "", "x")
  {
    if n > 0 {
      OneByteText(n - 1);
      assert OneByteChunks(n)[1..] == OneByteChunks(n - 1);
      assert |ChunkText(Chunk("1", "", "x"))| == 6;
    }
  }

  lemma OneByteLegal(l: Limits)
    requires l.line >= 3
    ensures LegalChunk(l, Chunk("1", "", "x"))
  {
    assert HexDigit('1') == 1;
    assert "1"[..0] == "";
    assert HexValue("1"[..0]) == 0;
  }

  /** 32 KiB in such chunks are a legal body for the server, and no head however short lets it fit its 64 KiB buffer. */
  lemma ServerBufferTooSmall(w: string, head: nat)
    requires At(w, head, BodyText(OneByteChunks(32 * 1024), LastChunk, []))
    ensures var l := Limits(32 * 1024, 64, 2048);
            LegalBody(l, OneByteChunks(32 * 1024), LastChunk, []) && !CanFinish(l, w, head, 64 * 1024)
  {
    hide At, HexValue, HexDigit, SizeLine, Run, ChunksText, BodyOf, OneByteChunks, LegalChunk;
    var l, cs := Limits(32 * 1024, 64, 2048), OneByteChunks(32 * 1024);
    OneByteText(32 * 1024);
    OneByteLegal(l);
    LastChunkIsLegal(l);
    CanFinishIff(l, w, head, cs, LastChunk, [], 64 * 1024);
  }

  // ----- a body that is decoded or refused, as the reads end -----

  /** An empty body with one trailer line. */
  function WithTrailer(t: string): string {
    ("0" + "" + CRLF) + (t + CRLF + CRLF)
  }

  const LastChunk: Chunk := Chunk("0", "", "")

  lemma LastChunkIsLegal(l: Limits)
    requires l.line >= 3
    ensures SizeLine(l, "0", "") && HexValue("0") == 0
  {
    assert HexDigit('0') == 0;
    assert "0"[..0] == "";
    assert HexValue("0"[..0]) == 0;
  }

  lemma WithTrailerLegal(l: Limits, t: string)
    requires LegalTrailer(t) && l.line >= 3
    ensures LegalBody(l, [], LastChunk, [t]) && BodyText([], LastChunk, [t]) == WithTrailer(t)
  {
    hide SizeLine, HexValue, HexDigit;
    LastChunkIsLegal(l);
    assert [t][1..] == [] && TrailersText([t]) == t + CRLF + CRLF;
    assert ChunksText([]) == "" && BodyOf([]) == "";
    var rest := ("0" + "" + CRLF) + (t + CRLF + CRLF);
    assert "" + rest == rest;
  }

  lemma CutTrailer(t: string)
    requires LegalTrailer(t)
    ensures |WithTrailer(t)| == |t| + 7
    ensures var p := WithTrailer(t)[..|t| + 4]; At(p, 0, "0" + "" + CRLF) && forall j | 3 <= j < |p| :: p[j] != '\n'
  {
    var p := WithTrailer(t)[..|t| + 4];
    assert p == ("0" + "" + CRLF) + (t + "\r");
    forall j | 3 <= j < |p|
      ensures p[j] != '\n'
    {
      assert p[j] == (t + "\r")[j - 3];
    }
  }

  /** With a line too long by one byte: decoded when it arrives at once, refused when its newline is still under way. */
  lemma LongTrailerRefused(l: Limits, t: string)
    requires LegalTrailer(t) && |t| + 1 > l.trailer && l.line >= 3
    ensures LegalBody(l, [], LastChunk, [t]) && BodyText([], LastChunk, [t]) == WithTrailer(t)
    ensures var w, d := WithTrailer(t), Dec(Size, 0, 0, "");
            && |w| == |t| + 7
            && Run(l, w, d) == (Finished, Dec(End, |w|, 0, ""))
            && Run(l, w[..|t| + 4], d) == (Bad, Dec(Trailer, 3, 0, ""))
  {
    hide Run, HexValue, HexDigit, SizeLine, BodyText, WithTrailer, LegalBody, ShortTrailers, Newline, ParseSize, TrailerStep;
    var w, d := WithTrailer(t), Dec(Size, 0, 0, "");
    WithTrailerLegal(l, t);
    assert At(w, 0, w);
    DecodesEveryChunking(l, w, 0, [], LastChunk, [t]);
    CutTrailer(t);
    var p := w[..|t| + 4];
    LastChunkIsLegal(l);
    AtSizeLine(l, p, d, "0", "");
    Turns(l, p, d);
    TrailerWaits(l, p, Dec(Trailer, 3, 0, ""));
  }

  lemma TrailerWaits(l: Limits, w: string, d: Dec)
    requires d.mode.Trailer? && d.pos <= |w| && (forall j | d.pos <= j < |w| :: w[j] != '\n') && |w| - d.pos > l.trailer
    ensures Run(l, w, d) == (Bad, d)
  {
    assert Newline(w, d.pos) == |w|;
  }

  /** At the server's own limits: 2048 bytes of trailer, which one more read decodes and one less refuses. */
  lemma ServerRefusesTrailer()
    ensures var l, w, d := Limits(32 * 1024, 64, 2048), WithTrailer(seq(2048, _ => 'x')), Dec(Size, 0, 0, "");
            Run(l, w, d).0.Finished? && Feed(l, "", d, [w[..2052], w[2052..]]).0.Bad?
  {
    hide Run, WithTrailer, LegalBody, BodyText;
    var l, t := Limits(32 * 1024, 64, 2048), seq(2048, _ => 'x');
    var w, d := WithTrailer(t), Dec(Size, 0, 0, "");
    LongTrailerRefused(l, t);
    assert "" + w[..2052] == w[..|t| + 4];
    FeedStops(l, "", d, w[..2052], w[2052..]);
  }
}
