/** Sizes as they are written, and what the decoder refuses. */
module ChunkedSizes {
  import opened Chunked

  const Lower := "0123456789" + "abcdef"
  const Upper := "0123456789" + "ABCDEF"

  /** A digit is worth its place among the sixteen, in either case, and no other character is one. */
  lemma HexDigitIs(ch: char)
    ensures forall d | 0 <= d < 16 :: HexDigit(Lower[d]) == d && HexDigit(Upper[d]) == d
    ensures HexDigit(ch) == -1 <==> ch !in Lower && ch !in Upper
    ensures HexDigit(ch) >= 0 ==> Lower[HexDigit(ch)] == ch || Upper[HexDigit(ch)] == ch
  {
    assert |Lower| == 16 && |Upper| == 16;
    assert forall d | 0 <= d < 10 :: Lower[d] as int == '0' as int + d && Upper[d] as int == '0' as int + d;
    assert forall d | 10 <= d < 16 :: Lower[d] as int == 'a' as int + d - 10 && Upper[d] as int == 'A' as int + d - 10;
    if HexDigit(ch) >= 0 {
      assert Lower[HexDigit(ch)] == ch || Upper[HexDigit(ch)] == ch;
    }
  }

  /** A size, printed by division and remainder. */
  function Hex(n: nat): (s: string)
    ensures s != ""
  {
    if n < 16 then [Lower[n]] else Hex(n / 16) + [Lower[n % 16]]
  }

  predicate AllHex(s: string) {
    forall i | 0 <= i < |s| :: HexDigit(s[i]) >= 0
  }

  /** Reading undoes printing. */
  lemma {:induction false} HexReadsBack(n: nat)
    ensures AllHex(Hex(n)) && HexValue(Hex(n)) == n
    decreases n
  {
    HexDigitIs('0');
    if n < 16 {
      assert Hex(n)[..0] == "";
      assert HexValue("") == 0;
    } else {
      HexReadsBack(n / 16);
      var s := Hex(n);
      assert s[..|s| - 1] == Hex(n / 16) && s[|s| - 1] == Lower[n % 16];
    }
  }

  lemma {:induction false} HexLength(n: nat, k: nat)
    requires k > 0 && n < Sixteens(k)
    ensures |Hex(n)| <= k
    decreases k
  {
    if n >= 16 {
      HexLength(n / 16, k - 1);
    }
  }

  function Sixteens(k: nat): nat {
    if k == 0 then 1 else 16 * Sixteens(k - 1)
  }

  function Printed(data: string): Chunk {
    Chunk(Hex(|data|), "", data)
  }

  function PrintedAll(ds: seq<string>): seq<Chunk> {
    if ds == [] then [] else [Printed(ds[0])] + PrintedAll(ds[1..])
  }

  lemma {:induction false} PrintedLegal(l: Limits, ds: seq<string>)
    requires (forall i | 0 <= i < |ds| :: ds[i] != "") && |Join(ds)| <= l.body < 0x1_0000_0000 && l.line >= 10
    ensures var cs := PrintedAll(ds); (forall i | 0 <= i < |cs| :: LegalChunk(l, cs[i])) && BodyOf(cs) == Join(ds)
    decreases |ds|
  {
    if ds != [] {
      hide HexDigit, Hex, HexValue;
      PrintedLegal(l, ds[1..]);
      HexReadsBack(|ds[0]|);
      assert Sixteens(8) == 0x1_0000_0000;
      HexLength(|ds[0]|, 8);
      assert PrintedAll(ds)[1..] == PrintedAll(ds[1..]);
    }
  }

  /** A body sent in any pieces, with their sizes printed, is what is decoded. */
  lemma DecodesPrinted(l: Limits, w: string, head: nat, ds: seq<string>)
    requires (forall i | 0 <= i < |ds| :: ds[i] != "") && |Join(ds)| <= l.body < 0x1_0000_0000 && l.line >= 10
    requires At(w, head, BodyText(PrintedAll(ds), LastChunk, []))
    ensures head <= |w|
    ensures Run(l, w, Dec(Size, head, 0, "")) ==
            (Finished, Dec(End, head + |BodyText(PrintedAll(ds), LastChunk, [])|, 0, Join(ds)))
  {
    hide Run, At, BodyText, HexDigit, HexValue;
    PrintedLegal(l, ds);
    LastChunkIsLegal(l);
    DecodesEveryChunking(l, w, head, PrintedAll(ds), LastChunk, []);
  }

  // ----- what is refused -----

  lemma {:induction false} ParseOver(max: nat, digits: string, after: string, i: nat)
    requires AllHex(digits) && i <= |digits| && HexValue(digits) > max && HexValue(digits[..i]) <= max
    ensures ParseSize(max, digits + after, i, HexValue(digits[..i])) == Over
    decreases |digits| - i
  {
    hide HexDigit;
    assert digits[..|digits|] == digits;
    if i < |digits| {
      var line := digits + after;
      assert line[i] == digits[i];
      assert digits[..i + 1][..i] == digits[..i] && digits[..i + 1][i] == digits[i];
      if HexValue(digits[..i + 1]) <= max {
        ParseOver(max, digits, after, i + 1);
      }
    }
  }

  /** A chunk that takes the body over the limit is too large, before any of it is copied. */
  lemma OverTheLimit(l: Limits, w: string, d: Dec, digits: string, ext: string)
    requires d.mode.Size? && At(w, d.pos, digits + ext + CRLF) && SizeLine(l, digits, ext)
    requires HexValue(digits) > 0 && |d.body| + HexValue(digits) > l.body
    ensures d.pos <= |w| && Run(l, w, d).0.TooLarge? && Run(l, w, d).1.body == d.body
  {
    hide HexDigit, HexValue, At, ParseSize, Newline;
    AtBound(w, d.pos, digits + ext + CRLF);
    if HexValue(digits) <= l.body {
      AtSizeLine(l, w, d, digits, ext);
    } else {
      OverAtOnce(l, digits, ext);
      AtLine(l, w, d, digits + ext, Over);
    }
  }

  lemma OverAtOnce(l: Limits, digits: string, ext: string)
    requires SizeLine(l, digits, ext) && HexValue(digits) > l.body
    ensures '\n' !in digits + ext && ParseSize(l.body, digits + ext + CRLF, 0, 0) == Over
  {
    forall j | 0 <= j < |digits|
      ensures digits[j] != '\n'
    {
      assert HexDigit(digits[j]) >= 0;
    }
    hide HexDigit, ParseSize;
    assert digits + ext + CRLF == digits + (ext + CRLF);
    assert digits[..0] == "" && HexValue("") == 0;
    ParseOver(l.body, digits, ext + CRLF, 0);
  }

  /** Behind the data of a chunk stands CRLF, and anything else is bad. */
  lemma OnlyCrlf(l: Limits, w: string, d: Dec)
    requires d.mode.DataCrlf? && d.pos + 2 <= |w| && w[d.pos..d.pos + 2] != CRLF
    ensures Run(l, w, d) == (Bad, d)
  {
    assert w[d.pos..d.pos + 2] == [w[d.pos], w[d.pos + 1]];
  }

  /** So a chunk that is longer than its size says is bad. */
  lemma ChunkTooLong(l: Limits, w: string, d: Dec, digits: string, ext: string, data: string)
    requires d.mode.Size? && d.remaining == 0 && SizeLine(l, digits, ext) && HexValue(digits) == |data| > 0
    requires |d.body| + |data| <= l.body && At(w, d.pos, (digits + ext + CRLF) + data)
    requires var p := d.pos + |digits + ext + CRLF| + |data|; p + 2 <= |w| && w[p..p + 2] != CRLF
    ensures d.pos <= |w| && Run(l, w, d).0.Bad?
  {
    hide HexDigit, HexValue, Run, At, SizeStep, DataStep, CrlfStep, SizeLine;
    var line := digits + ext + CRLF;
    AtSplit(w, d.pos, line, data);
    AtSizeLine(l, w, d, digits, ext);
    var p := d.pos + |line|;
    var d2 := Dec(Data, p, |data|, d.body);
    AtData(w, d2, data);
    AtBound(w, d.pos, line);
    Turns(l, w, d);
    Turns(l, w, d2);
    OnlyCrlf(l, w, Dec(DataCrlf, p + |data|, 0, d.body + data));
  }

  /** A size line without a digit is bad, and so is one that is too long or has not ended by then. */
  lemma BadSizeLine(l: Limits, w: string, d: Dec)
    requires d.mode.Size? && d.pos < |w|
    requires (HexDigit(w[d.pos]) < 0 && '\n' in w[d.pos..]) || (|w| - d.pos > l.line && '\n' !in w[d.pos..d.pos + l.line])
    ensures Run(l, w, d) == (Bad, d)
  {
    hide HexDigit;
    var nl := Newline(w, d.pos);
    if |w| - d.pos > l.line && '\n' !in w[d.pos..d.pos + l.line] {
      assert forall j | d.pos <= j < d.pos + l.line :: w[j] == w[d.pos..d.pos + l.line][j - d.pos];
    } else {
      assert nl < |w|;
      assert w[d.pos..nl + 1][0] == w[d.pos];
      assert ParseSize(l.body, w[d.pos..nl + 1], 0, 0) == Parsed(0, 0);
    }
  }
}
