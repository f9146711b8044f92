/**
 * Field lengths and trimming as JavaScript has them, over UTF-8 bytes. Masks and shifts are written
 * as the ranges and products they are.
 */
module Utf8Fields {

  type Byte = x: nat | x < 256 witness 0

  /** A code point and how many bytes it took; a malformed sequence is the one byte it starts with. */
  datatype Decoded = Decoded(code: nat, width: nat)

  predicate Continuation(b: Byte) {
    0x80 <= b < 0xC0
  }

  /** How many bytes follow this one, by its first bits. */
  function Needed(first: Byte): nat {
    if 0xC0 <= first < 0xE0 then 1 else if 0xE0 <= first < 0xF0 then 2 else if 0xF0 <= first < 0xF8 then 3 else 0
  }

  function Payload(first: Byte): nat {
    if 0xC0 <= first < 0xE0 then first - 0xC0 else if 0xE0 <= first < 0xF0 then first - 0xE0 else if 0xF0 <= first < 0xF8 then first - 0xF0 else 0
  }

  /** The value of `n` continuation bytes behind `value`, or nothing if one of them is none. */
  function Gather(text: seq<Byte>, at: nat, n: nat, value: nat): (r: int)
    requires at + n <= |text|
    ensures r >= -1
    decreases n
  {
    if n == 0 then value
    else if !Continuation(text[at]) then -1
    else Gather(text, at + 1, n - 1, value * 64 + (text[at] - 0x80))
  }

  function Decode(text: seq<Byte>, index: nat): (r: Decoded)
    requires index < |text|
    ensures 1 <= r.width <= 4 && index + r.width <= |text|
  {
    var first := text[index];
    var needed := Needed(first);
    if needed == 0 || index + needed >= |text| then Decoded(first, 1)
    else
      var value := Gather(text, index + 1, needed, Payload(first));
      if value < 0 then Decoded(first, 1) else Decoded(value, needed + 1)
  }

  function Units(code: nat): nat {
    if code > 0xFFFF then 2 else 1
  }

  /** UTF-16 units from byte `i` on. */
  function UnitsFrom(text: seq<Byte>, i: nat): nat
    requires i <= |text|
    decreases |text| - i
  {
    if i == |text| then 0 else Units(Decode(text, i).code) + UnitsFrom(text, i + Decode(text, i).width)
  }

  /** What `trim` removes in JavaScript. */
  predicate Space(code: nat) {
    || code in {0x0009, 0x000A, 0x000B, 0x000C, 0x000D, 0x0020, 0x00A0, 0x1680, 0x2028, 0x2029, 0x202F, 0x205F, 0x3000, 0xFEFF}
    || 0x2000 <= code <= 0x200A
  }

  /** Where the first code point that is no space starts. */
  function Front(text: seq<Byte>, start: nat): (r: nat)
    requires start <= |text|
    ensures start <= r <= |text|
    decreases |text| - start
  {
    if start == |text| || !Space(Decode(text, start).code) then start else Front(text, start + Decode(text, start).width)
  }

  /** Backwards over continuation bytes, but not past `start`. */
  function CodeStart(text: seq<Byte>, start: nat, last: nat): (r: nat)
    requires start <= last < |text|
    ensures start <= r <= last
    decreases last
  {
    if last > start && Continuation(text[last]) then CodeStart(text, start, last - 1) else last
  }

  /** Where the last code point that is no space ends. */
  function Back(text: seq<Byte>, start: nat, end: nat): (r: nat)
    requires start <= end <= |text|
    ensures start <= r <= end
    decreases end
  {
    if end == start then end
    else
      var last := CodeStart(text, start, end - 1);
      var c := Decode(text, last);
      if last + c.width != end || !Space(c.code) then end else Back(text, start, last)
  }

  // ----- well-formed UTF-8 -----

  predicate CodePoint(c: nat) {
    c < 0x110000
  }

  predicate CodePoints(cs: seq<nat>) {
    forall i | 0 <= i < |cs| :: CodePoint(cs[i])
  }

  /** UTF-8, section 3 of RFC 3629. */
  function Encode(c: nat): (r: seq<Byte>)
    requires CodePoint(c)
    ensures 1 <= |r| <= 4
  {
    if c < 0x80 then [c]
    else if c < 0x800 then [0xC0 + c / 64, 0x80 + c % 64]
    else if c < 0x10000 then [0xE0 + c / 4096, 0x80 + (c / 64) % 64, 0x80 + c % 64]
    else [0xF0 + c / 262144, 0x80 + (c / 4096) % 64, 0x80 + (c / 64) % 64, 0x80 + c % 64]
  }

  function EncodeAll(cs: seq<nat>): seq<Byte>
    requires CodePoints(cs)
  {
    if cs == [] then [] else Encode(cs[0]) + EncodeAll(cs[1..])
  }

  /** UTF-16, section 2 of RFC 2781. */
  function Utf16(cs: seq<nat>): seq<nat>
    requires CodePoints(cs)
  {
    if cs == [] then []
    else
      (if cs[0] < 0x10000 then [cs[0]]
       else [0xD800 + (cs[0] - 0x10000) / 1024, 0xDC00 + (cs[0] - 0x10000) % 1024]) + Utf16(cs[1..])
  }

  /** Decoding undoes encoding wherever the code point stands. */
  lemma DecodeEncoded(pre: seq<Byte>, c: nat, post: seq<Byte>)
    requires CodePoint(c)
    ensures Decode(pre + Encode(c) + post, |pre|) == Decoded(c, |Encode(c)|)
  {
    var e := Encode(c);
    var text, i := pre + e + post, |pre|;
    forall k | 0 <= k < |e|
      ensures text[i + k] == e[k]
    {
    }
    assert text[i] == e[0];
    Gathers(text, i, c);
  }

  lemma Gathers(text: seq<Byte>, i: nat, c: nat)
    requires CodePoint(c) && i + |Encode(c)| <= |text| && forall k | 0 <= k < |Encode(c)| :: text[i + k] == Encode(c)[k]
    ensures Needed(Encode(c)[0]) == |Encode(c)| - 1
    ensures |Encode(c)| > 1 ==> Gather(text, i + 1, |Encode(c)| - 1, Payload(Encode(c)[0])) == c
  {
    hide Gather;
    var e := Encode(c);
    var n := |e|;
    SixBits(c);
    if n == 2 {
      GatherNext(text, i + 1, 1, e[0] - 0xC0, e[1]);
    } else if n == 3 {
      GatherNext(text, i + 1, 2, e[0] - 0xE0, e[1]);
      GatherNext(text, i + 2, 1, c / 64, e[2]);
    } else if n == 4 {
      GatherNext(text, i + 1, 3, e[0] - 0xF0, e[1]);
      GatherNext(text, i + 2, 2, c / 4096, e[2]);
      GatherNext(text, i + 3, 1, c / 64, e[3]);
    }
  }

  lemma GatherNext(text: seq<Byte>, at: nat, n: nat, value: nat, b: Byte)
    requires 0 < n && at + n <= |text| && text[at] == b && Continuation(b)
    ensures Gather(text, at, n, value) == Gather(text, at + 1, n - 1, value * 64 + (b - 0x80))
    ensures n == 1 ==> Gather(text, at, n, value) == value * 64 + (b - 0x80)
  {
  }

  lemma SixBits(c: nat)
    ensures (c / 64) * 64 + c % 64 == c
    ensures (c / 4096) * 64 + (c / 64) % 64 == c / 64
    ensures (c / 262144) * 64 + (c / 4096) % 64 == c / 4096
  {
    assert c / 4096 == (c / 64) / 64;
    assert c / 262144 == (c / 4096) / 64;
  }

  /** The forms of the two encodings, at a character of every length. */
  lemma EncodingsAre()
    ensures Encode(0x41) == [0x41] && Encode(0xE9) == [0xC3, 0xA9] && Encode(0x20AC) == [0xE2, 0x82, 0xAC]
    ensures Encode(0x1F600) == [0xF0, 0x9F, 0x98, 0x80]
    ensures Utf16([0x20AC]) == [0x20AC] && Utf16([0x1F600]) == [0xD83D, 0xDE00]
  {
    assert [0x20AC][1..] == [] && [0x1F600][1..] == [];
    assert Utf16([]) == [];
  }

  /** What one look at any bytes gives, form by form: two, three or four bytes that belong together, else the one byte. */
  lemma DecodeIs(text: seq<Byte>, i: nat)
    requires i < |text|
    ensures var b := text[i..];
            Decode(text, i) ==
              if |b| >= 2 && 0xC0 <= b[0] <= 0xDF && 0x80 <= b[1] <= 0xBF then
                Decoded((b[0] as int - 0xC0) * 0x40 + (b[1] as int - 0x80), 2)
              else if |b| >= 3 && 0xE0 <= b[0] <= 0xEF && 0x80 <= b[1] <= 0xBF && 0x80 <= b[2] <= 0xBF then
                Decoded((b[0] as int - 0xE0) * 0x1000 + (b[1] as int - 0x80) * 0x40 + (b[2] as int - 0x80), 3)
              else if |b| >= 4 && 0xF0 <= b[0] <= 0xF7 && 0x80 <= b[1] <= 0xBF && 0x80 <= b[2] <= 0xBF && 0x80 <= b[3] <= 0xBF then
                Decoded((b[0] as int - 0xF0) * 0x40000 + (b[1] as int - 0x80) * 0x1000 + (b[2] as int - 0x80) * 0x40 + (b[3] as int - 0x80), 4)
              else Decoded(b[0], 1)
  {
    var n := Needed(text[i]);
    if n > 0 && i + n < |text| {
      GatherIs(text, i + 1, n, Payload(text[i]));
    }
  }

  lemma GatherIs(text: seq<Byte>, at: nat, n: nat, value: nat)
    requires 1 <= n <= 3 && at + n <= |text|
    ensures Gather(text, at, n, value) ==
            if exists k :: at <= k < at + n && !Continuation(text[k]) then -1
            else if n == 1 then value * 0x40 + (text[at] as int - 0x80)
            else if n == 2 then value * 0x1000 + (text[at] as int - 0x80) * 0x40 + (text[at + 1] as int - 0x80)
            else value * 0x40000 + (text[at] as int - 0x80) * 0x1000 + (text[at + 1] as int - 0x80) * 0x40 + (text[at + 2] as int - 0x80)
    decreases n
  {
    if n > 1 && Continuation(text[at]) {
      GatherIs(text, at + 1, n - 1, value * 64 + (text[at] - 0x80));
    }
  }

  /** Tab to carriage return, the space separators of Unicode, the two separators of lines and paragraphs, and the byte order mark. */
  lemma SpaceIs(c: nat)
    ensures Space(c) <==>
            || 0x9 <= c <= 0xD
            || c == 0x20 || c == 0xA0 || c == 0x1680 || 0x2000 <= c <= 0x200A || c == 0x202F || c == 0x205F || c == 0x3000
            || 0x2028 <= c <= 0x2029
            || c == 0xFEFF
  {
  }

  // ----- where the code points stand -----

  /** Where code point `k` starts in the encoding. */
  function Offset(cs: seq<nat>, k: nat): nat
    requires CodePoints(cs) && k <= |cs|
  {
    |EncodeAll(cs[..k])|
  }

  lemma {:induction false} EncodeConcat(front: seq<nat>, rest: seq<nat>)
    requires CodePoints(front) && CodePoints(rest)
    ensures CodePoints(front + rest) && EncodeAll(front + rest) == EncodeAll(front) + EncodeAll(rest)
    decreases |front|
  {
    hide Encode;
    if front == [] {
      assert front + rest == rest;
    } else {
      EncodeConcat(front[1..], rest);
      assert (front + rest)[1..] == front[1..] + rest && (front + rest)[0] == front[0];
    }
  }

  lemma EncodeOne(c: nat)
    requires CodePoint(c)
    ensures EncodeAll([c]) == Encode(c)
  {
    hide Encode;
    assert [c][1..] == [];
    assert EncodeAll([c][1..]) == [];
  }

  lemma EncodeSnoc(front: seq<nat>, c: nat)
    requires CodePoints(front) && CodePoint(c)
    ensures CodePoints(front + [c]) && EncodeAll(front + [c]) == EncodeAll(front) + Encode(c)
  {
    hide Encode, EncodeAll, CodePoint;
    EncodeConcat(front, [c]);
    EncodeOne(c);
  }

  lemma EncodeParts(front: seq<nat>, c: nat, rest: seq<nat>)
    requires CodePoints(front) && CodePoint(c) && CodePoints(rest)
    ensures CodePoints(front + [c]) && EncodeAll(front + [c]) == EncodeAll(front) + Encode(c)
    ensures CodePoints(front + [c] + rest) && EncodeAll(front + [c] + rest) == EncodeAll(front) + Encode(c) + EncodeAll(rest)
  {
    hide Encode, EncodeAll, CodePoint, CodePoints;
    EncodeSnoc(front, c);
    EncodeConcat(front + [c], rest);
  }

  lemma PartsOf(cs: seq<nat>, k: nat)
    requires k < |cs|
    ensures cs[..k + 1] == cs[..k] + [cs[k]] && cs == cs[..k] + [cs[k]] + cs[k + 1..]
  {
  }

  lemma PartsAreCodePoints(cs: seq<nat>, k: nat)
    requires CodePoints(cs) && k < |cs|
    ensures CodePoints(cs[..k]) && CodePoint(cs[k]) && CodePoints(cs[k + 1..]) && CodePoints(cs[..k + 1])
  {
    hide CodePoint;
  }

  /** The encoding up to, of and after code point `k`. */
  lemma Apart(cs: seq<nat>, k: nat)
    requires CodePoints(cs) && k < |cs|
    ensures CodePoints(cs[..k]) && CodePoint(cs[k]) && CodePoints(cs[k + 1..]) && CodePoints(cs[..k + 1])
    ensures EncodeAll(cs[..k + 1]) == EncodeAll(cs[..k]) + Encode(cs[k])
    ensures EncodeAll(cs) == EncodeAll(cs[..k]) + Encode(cs[k]) + EncodeAll(cs[k + 1..])
  {
    hide Encode, EncodeAll, CodePoint, CodePoints;
    PartsAreCodePoints(cs, k);
    EncodeParts(cs[..k], cs[k], cs[k + 1..]);
    PartsOf(cs, k);
  }

  lemma AtOffset(cs: seq<nat>, k: nat)
    requires CodePoints(cs) && k < |cs|
    ensures Offset(cs, k + 1) == Offset(cs, k) + |Encode(cs[k])| <= |EncodeAll(cs)|
    ensures Decode(EncodeAll(cs), Offset(cs, k)) == Decoded(cs[k], |Encode(cs[k])|)
  {
    hide Encode, Decode, EncodeAll, CodePoint;
    Apart(cs, k);
    DecodeEncoded(EncodeAll(cs[..k]), cs[k], EncodeAll(cs[k + 1..]));
  }

  lemma Ends(cs: seq<nat>)
    requires CodePoints(cs)
    ensures Offset(cs, |cs|) == |EncodeAll(cs)| && Offset(cs, 0) == 0
  {
    assert cs[..|cs|] == cs && cs[..0] == [];
  }

  lemma EncodedSlice(cs: seq<nat>, a: nat, b: nat)
    requires CodePoints(cs) && a <= b <= |cs|
    ensures Offset(cs, a) <= Offset(cs, b) <= |EncodeAll(cs)|
    ensures EncodeAll(cs)[Offset(cs, a)..Offset(cs, b)] == EncodeAll(cs[a..b])
  {
    hide Encode, EncodeAll;
    EncodeConcat(cs[..a], cs[a..b]);
    assert cs[..a] + cs[a..b] == cs[..b];
    EncodeConcat(cs[..b], cs[b..]);
    assert cs[..b] + cs[b..] == cs;
  }

  lemma OffsetMono(cs: seq<nat>, a: nat, b: nat)
    requires CodePoints(cs) && a <= b <= |cs|
    ensures Offset(cs, a) <= Offset(cs, b) <= |EncodeAll(cs)|
  {
    hide EncodeAll;
    EncodedSlice(cs, a, b);
  }

  // ----- lengths -----

  lemma {:induction false} UnitsAre16(cs: seq<nat>, k: nat)
    requires CodePoints(cs) && k <= |cs|
    ensures Offset(cs, k) <= |EncodeAll(cs)|
    ensures UnitsFrom(EncodeAll(cs), Offset(cs, k)) == |Utf16(cs[k..])|
    ensures |EncodeAll(cs)| - Offset(cs, k) <= 3 * |Utf16(cs[k..])|
    decreases |cs| - k
  {
    hide Decode, EncodeAll, Offset;
    Ends(cs);
    if k < |cs| {
      AtOffset(cs, k);
      UnitsAre16(cs, k + 1);
      assert cs[k..][1..] == cs[k + 1..] && cs[k..][0] == cs[k];
    } else {
      assert cs[k..] == [];
    }
  }

  /** The length counted is that of the UTF-16 form, and three bytes for each unit are enough. */
  lemma LengthIsUtf16(cs: seq<nat>)
    requires CodePoints(cs)
    ensures UnitsFrom(EncodeAll(cs), 0) == |Utf16(cs)|
    ensures |EncodeAll(cs)| <= 3 * |Utf16(cs)|
  {
    hide UnitsFrom, EncodeAll, Utf16, Offset;
    Ends(cs);
    UnitsAre16(cs, 0);
    assert cs[0..] == cs;
  }

  /** A code point of the basic plane in the form of four bytes. */
  predicate Overlong(text: seq<Byte>, i: nat) {
    && i + 3 < |text|
    && text[i] == 0xF0 && 0x80 <= text[i + 1] < 0x90 && Continuation(text[i + 2]) && Continuation(text[i + 3])
  }

  lemma GatherThree(text: seq<Byte>, at: nat, value: nat)
    requires at + 3 <= |text|
    ensures Gather(text, at, 3, value) ==
            if Continuation(text[at]) && Continuation(text[at + 1]) && Continuation(text[at + 2])
            then ((value * 64 + (text[at] - 0x80)) * 64 + (text[at + 1] - 0x80)) * 64 + (text[at + 2] - 0x80)
            else -1
  {
    if Continuation(text[at]) {
      var v := value * 64 + (text[at] - 0x80);
      assert Gather(text, at, 3, value) == Gather(text, at + 1, 2, v);
      if Continuation(text[at + 1]) {
        assert Gather(text, at + 1, 2, v) == Gather(text, at + 2, 1, v * 64 + (text[at + 1] - 0x80));
      }
    }
  }

  /** Three bytes for each unit are enough for what is decoded at a place exactly unless it is overlong. */
  lemma EnoughIff(text: seq<Byte>, i: nat)
    requires i < |text|
    ensures Decode(text, i).width <= 3 * Units(Decode(text, i).code) <==> !Overlong(text, i)
  {
    if i + 3 < |text| && Needed(text[i]) == 3 {
      hide Gather;
      GatherThree(text, i + 1, text[i] - 0xF0);
    }
  }

  /** Decoding from `i` on meets no overlong form. */
  predicate NoneOverlong(text: seq<Byte>, i: nat)
    requires i <= |text|
    decreases |text| - i
  {
    i == |text| || (!Overlong(text, i) && NoneOverlong(text, i + Decode(text, i).width))
  }

  /** So three bytes for each unit are enough for any bytes, malformed ones too, without such a form. */
  lemma {:induction false} EnoughBytes(text: seq<Byte>, i: nat)
    requires i <= |text| && NoneOverlong(text, i)
    ensures |text| - i <= 3 * UnitsFrom(text, i)
    decreases |text| - i
  {
    hide Decode, Overlong;
    if i < |text| {
      EnoughIff(text, i);
      EnoughBytes(text, i + Decode(text, i).width);
    }
  }

  /** Well-formed text has none. */
  lemma {:induction false} EncodedNoneOverlong(cs: seq<nat>, k: nat)
    requires CodePoints(cs) && k <= |cs|
    ensures Offset(cs, k) <= |EncodeAll(cs)| && NoneOverlong(EncodeAll(cs), Offset(cs, k))
    decreases |cs| - k
  {
    hide Decode, EncodeAll, Offset, Overlong;
    Ends(cs);
    if k < |cs| {
      AtOffset(cs, k);
      EncodedNoneOverlong(cs, k + 1);
      EnoughIff(EncodeAll(cs), Offset(cs, k));
    }
  }

  /** An overlong NUL is four bytes and counts one unit. */
  lemma OverlongIsLonger()
    ensures var text: seq<Byte> := [0xF0, 0x80, 0x80, 0x80];
            UnitsFrom(text, 0) == 1 && |text| > 3 * UnitsFrom(text, 0)
  {
    var text: seq<Byte> := [0xF0, 0x80, 0x80, 0x80];
    GatherThree(text, 1, 0);
    assert Decode(text, 0) == Decoded(0, 4);
  }

  // ----- trimming -----

  /** The first code point from `k` on that is no space. */
  function Lead(cs: seq<nat>, k: nat): (r: nat)
    requires k <= |cs|
    ensures k <= r <= |cs| && (forall i | k <= i < r :: Space(cs[i])) && (r < |cs| ==> !Space(cs[r]))
    decreases |cs| - k
  {
    if k == |cs| || !Space(cs[k]) then k else Lead(cs, k + 1)
  }

  /** Past the last code point in `a..n` that is no space. */
  function Trail(cs: seq<nat>, a: nat, n: nat): (r: nat)
    requires a <= n <= |cs|
    ensures a <= r <= n && (forall i | r <= i < n :: Space(cs[i])) && (a < r ==> !Space(cs[r - 1]))
    decreases n
  {
    if n == a || !Space(cs[n - 1]) then n else Trail(cs, a, n - 1)
  }

  /** The code points without the spaces at both ends. */
  function Stripped(cs: seq<nat>): seq<nat> {
    cs[Lead(cs, 0)..Trail(cs, Lead(cs, 0), |cs|)]
  }

  lemma {:induction false} FrontIsLead(cs: seq<nat>, k: nat)
    requires CodePoints(cs) && k <= |cs|
    ensures Offset(cs, k) <= |EncodeAll(cs)|
    ensures Front(EncodeAll(cs), Offset(cs, k)) == Offset(cs, Lead(cs, k))
    decreases |cs| - k
  {
    hide Decode, EncodeAll, Offset, Space;
    Ends(cs);
    if k < |cs| {
      AtOffset(cs, k);
      EncodedSlice(cs, k, k);
      if Space(cs[k]) {
        FrontIsLead(cs, k + 1);
      }
    }
  }

  lemma EncodeShape(c: nat)
    requires CodePoint(c)
    ensures !Continuation(Encode(c)[0]) && forall i | 0 < i < |Encode(c)| :: Continuation(Encode(c)[i])
  {
  }

  lemma {:induction false} CodeStartAt(text: seq<Byte>, start: nat, at: nat, last: nat)
    requires start <= at <= last < |text| && !Continuation(text[at])
    requires forall i | at < i <= last :: Continuation(text[i])
    ensures CodeStart(text, start, last) == at
    decreases last
  {
    if last > at {
      CodeStartAt(text, start, at, last - 1);
    }
  }

  lemma ScanBack(text: seq<Byte>, at: nat, c: nat, start: nat)
    requires CodePoint(c) && start <= at && at + |Encode(c)| <= |text|
    requires text[at..at + |Encode(c)|] == Encode(c)
    ensures CodeStart(text, start, at + |Encode(c)| - 1) == at
  {
    hide Encode, Continuation;
    EncodeShape(c);
    var e := Encode(c);
    assert forall i | at <= i < at + |e| :: text[i] == text[at..at + |e|][i - at];
    CodeStartAt(text, start, at, at + |e| - 1);
  }

  /** The scan back from the end of a code point stops where it starts. */
  lemma LastCodePoint(cs: seq<nat>, a: nat, n: nat)
    requires CodePoints(cs) && a < n <= |cs|
    ensures Offset(cs, a) <= Offset(cs, n - 1) < Offset(cs, n) <= |EncodeAll(cs)|
    ensures CodeStart(EncodeAll(cs), Offset(cs, a), Offset(cs, n) - 1) == Offset(cs, n - 1)
  {
    hide Encode, EncodeAll, CodeStart, Decode, CodePoint, Offset;
    var k := n - 1;
    OffsetMono(cs, a, k);
    Spelled(cs, k);
    ScanBack(EncodeAll(cs), Offset(cs, k), cs[k], Offset(cs, a));
  }

  lemma Spelled(cs: seq<nat>, k: nat)
    requires CodePoints(cs) && k < |cs|
    ensures Offset(cs, k + 1) == Offset(cs, k) + |Encode(cs[k])| <= |EncodeAll(cs)|
    ensures EncodeAll(cs)[Offset(cs, k)..Offset(cs, k) + |Encode(cs[k])|] == Encode(cs[k])
  {
    hide Encode, EncodeAll, CodePoint;
    Apart(cs, k);
  }

  lemma {:induction false} BackIsTrail(cs: seq<nat>, a: nat, n: nat)
    requires CodePoints(cs) && a <= n <= |cs|
    ensures Offset(cs, a) <= Offset(cs, n) <= |EncodeAll(cs)|
    ensures Back(EncodeAll(cs), Offset(cs, a), Offset(cs, n)) == Offset(cs, Trail(cs, a, n))
    decreases n
  {
    hide Decode, EncodeAll, Offset, Space, CodeStart;
    EncodedSlice(cs, a, n);
    if a < n {
      LastCodePoint(cs, a, n);
      AtOffset(cs, n - 1);
      if Space(cs[n - 1]) {
        BackIsTrail(cs, a, n - 1);
      }
    }
  }

  /** Trimming the bytes of well-formed text is trimming its code points, although it scans bytes backwards. */
  lemma TrimIsStrip(cs: seq<nat>)
    requires CodePoints(cs)
    ensures var text := EncodeAll(cs);
            var start := Front(text, 0);
            CodePoints(Stripped(cs)) && text[start..Back(text, start, |text|)] == EncodeAll(Stripped(cs))
  {
    hide EncodeAll, Offset, Front, Back, Lead, Trail;
    Ends(cs);
    FrontIsLead(cs, 0);
    BackIsTrail(cs, Lead(cs, 0), |cs|);
    EncodedSlice(cs, Lead(cs, 0), Trail(cs, Lead(cs, 0), |cs|));
  }

  // ----- the loops -----

  method DecodeAt(text: seq<Byte>, index: nat) returns (code: nat, width: nat)
    requires index < |text|
    ensures Decoded(code, width) == Decode(text, index)
  {
    var first := text[index];
    var needed;
    code, width := first, 1;
    if first < 0x80 {
      return;
    }
    if 0xC0 <= first < 0xE0 {
      needed, code := 1, first - 0xC0;
    } else if 0xE0 <= first < 0xF0 {
      needed, code := 2, first - 0xE0;
    } else if 0xF0 <= first < 0xF8 {
      needed, code := 3, first - 0xF0;
    } else {
      return;
    }
    if index + needed >= |text| {
      return first, 1;
    }
    ghost var whole := Gather(text, index + 1, needed, code);
    for i := 1 to needed + 1
      invariant whole == Gather(text, index + i, needed + 1 - i, code)
    {
      var next := text[index + i];
      if !Continuation(next) {
        return first, 1;
      }
      code := code * 64 + (next - 0x80);
    }
    width := needed + 1;
  }

  method Utf16Length(text: seq<Byte>) returns (units: nat)
    ensures units == UnitsFrom(text, 0)
  {
    hide Decode;
    units := 0;
    var i := 0;
    while i < |text|
      invariant i <= |text| && units + UnitsFrom(text, i) == UnitsFrom(text, 0)
    {
      var code, width := DecodeAt(text, i);
      units := units + if code > 0xFFFF then 2 else 1;
      i := i + width;
    }
  }

  method Trim(text: seq<Byte>) returns (begin: nat, length: nat)
    ensures begin == Front(text, 0) && begin + length == Back(text, begin, |text|)
  {
    hide Decode, Space;
    var start, end := 0, |text|;
    while start < end
      invariant start <= end == |text| && Front(text, 0) == Front(text, start)
    {
      var code, width := DecodeAt(text, start);
      if !Space(code) {
        break;
      }
      start := start + width;
    }
    while end > start
      invariant start <= end <= |text| && Back(text, start, |text|) == Back(text, start, end)
    {
      var last := end - 1;
      while last > start && Continuation(text[last])
        invariant start <= last < end && CodeStart(text, start, last) == CodeStart(text, start, end - 1)
      {
        last := last - 1;
      }
      var code, width := DecodeAt(text, last);
      if last + width != end || !Space(code) {
        break;
      }
      end := last;
    }
    return start, end - start;
  }
}
