/**
 * Peer ids: base58btc over the identity multihash of an ed25519 key, written and read by two base
 * conversions that carry in place and undo each other.
 */
module PeerId {
  import Arith
  import opened Positional
  import opened Options

  /** Without 0, I, O and l. */
  const Alphabet: string := "123456789" + "ABCDEFGH" + "JKLMN" + "PQRSTUVWXYZ" + "abcdefghijk" + "mnopqrstuvwxyz"
  const Prefix: seq<nat> := [0x00, 0x24, 0x08, 0x01, 0x12, 0x20]
  const IdBytes: nat := 38
  const TextMax: nat := 64

  predicate IsKey(key: seq<nat>) {
    |key| == 32 && forall i | 0 <= i < |key| :: key[i] < 256
  }

  /** How often `x` stands at the front. */
  function Leading<T(==)>(s: seq<T>, x: T): (n: nat)
    ensures n <= |s| && (forall i | 0 <= i < n :: s[i] == x) && (n < |s| ==> s[n] != x)
  {
    if s == [] || s[0] != x then 0 else 1 + Leading(s[1..], x)
  }

  function Repeat<T>(n: nat, x: T): seq<T> {
    seq(n, _ => x)
  }

  /** The place of a character in the alphabet, or -1. */
  function DigitOf(ch: char): (d: int)
    ensures -1 <= d < 58 && (d >= 0 ==> Alphabet[d] == ch)
    ensures d < 0 ==> ch !in Alphabet
  {
    var d := FindFrom(Alphabet, ch, 0);
    if d == |Alphabet| then -1 else d
  }

  function FindFrom(s: string, ch: char, from: nat): (k: nat)
    requires from <= |s|
    ensures from <= k <= |s| && (k < |s| ==> s[k] == ch)
    ensures forall j | from <= j < k :: s[j] != ch
    decreases |s| - from
  {
    if from == |s| || s[from] == ch then from else FindFrom(s, ch, from + 1)
  }

  function Letters(ds: seq<nat>): (t: string)
    requires forall i | 0 <= i < |ds| :: ds[i] < 58
    ensures |t| == |ds| && forall i | 0 <= i < |ds| :: t[i] == Alphabet[ds[i]]
  {
    seq(|ds|, i requires 0 <= i < |ds| => Alphabet[ds[i]])
  }

  predicate Spelled(text: string) {
    forall i | 0 <= i < |text| :: DigitOf(text[i]) >= 0
  }

  function Values(text: string): (ds: seq<nat>)
    requires Spelled(text)
    ensures |ds| == |text| && forall i | 0 <= i < |ds| :: ds[i] == DigitOf(text[i])
  {
    seq(|text|, i requires 0 <= i < |text| => DigitOf(text[i]) as nat)
  }

  /** The peer id of a key. */
  function FormatText(key: seq<nat>): string {
    var bytes := Prefix + key;
    var zeros := Leading(bytes, 0);
    var digits := Convert(bytes[zeros..], 256, 58);
    ConvertValue(bytes[zeros..], 256, 58);
    Repeat(zeros, '1') + Letters(Reversed(digits))
  }

  /** The key a text names, or none. */
  function ParseText(text: string): Option<seq<nat>> {
    if |text| == 0 || |text| >= TextMax then None
    else
      var zeros := Leading(text, '1');
      var rest := text[zeros..];
      if !Spelled(rest) then None
      else KeyOf(Repeat(zeros, 0) + Reversed(Convert(Values(rest), 58, 256)))
  }

  function KeyOf(id: seq<nat>): Option<seq<nat>> {
    if |id| != IdBytes || id[..6] != Prefix then None else Some(id[6..])
  }

  // ----- round trips -----

  /** The alphabet runs upwards in ASCII, with gaps. */
  ghost function CodeAt(k: int): int {
    if k < 9 then '1' as int + k
    else if k < 17 then 'A' as int + k - 9
    else if k < 22 then 'J' as int + k - 17
    else if k < 33 then 'P' as int + k - 22
    else if k < 44 then 'a' as int + k - 33
    else 'm' as int + k - 44
  }

  lemma AlphabetFront()
    ensures forall k | 0 <= k < 22 :: Alphabet[k] as int == CodeAt(k)
  {
  }

  lemma AlphabetBack()
    ensures forall k | 22 <= k < 58 :: Alphabet[k] as int == CodeAt(k)
  {
  }

  lemma AlphabetSorted(i: nat, j: nat)
    requires i < j < 58
    ensures Alphabet[i] < Alphabet[j]
  {
    AlphabetFront();
    AlphabetBack();
    assert Alphabet[i] as int == CodeAt(i) && Alphabet[j] as int == CodeAt(j);
  }

  lemma NotOne(d: nat)
    requires d < 58
    ensures d != 0 <==> Alphabet[d] != '1'
  {
    if d != 0 {
      AlphabetSorted(0, d);
    }
  }

  lemma DigitOfLetter(d: nat)
    requires d < 58
    ensures DigitOf(Alphabet[d]) == d
  {
    var k := DigitOf(Alphabet[d]);
    if 0 <= k < d {
      AlphabetSorted(k, d);
    } else if d < k {
      AlphabetSorted(d, k);
    }
  }

  lemma ValuesOfLetters(ds: seq<nat>)
    requires forall i | 0 <= i < |ds| :: ds[i] < 58
    ensures Spelled(Letters(ds)) && Values(Letters(ds)) == ds
  {
    hide DigitOf;
    forall i | 0 <= i < |ds|
      ensures DigitOf(Letters(ds)[i]) == ds[i]
    {
      DigitOfLetter(ds[i]);
    }
  }

  lemma LeadingIs<T>(n: nat, x: T, rest: seq<T>)
    requires rest != [] ==> rest[0] != x
    ensures Leading(Repeat(n, x) + rest, x) == n && (Repeat(n, x) + rest)[n..] == rest
  {
    var s := Repeat(n, x) + rest;
    assert forall i | 0 <= i < n :: s[i] == x;
    assert n < |s| ==> s[n] == rest[0];
  }

  lemma BytesOf(key: seq<nat>)
    requires IsKey(key)
    ensures Prefix + key == Repeat(1, 0) + (Prefix[1..] + key)
    ensures Leading(Prefix + key, 0) == 1 && (Prefix + key)[1..] == Prefix[1..] + key
    ensures Canonical(Reversed(Prefix[1..] + key), 256)
  {
    var r := Prefix[1..] + key;
    assert Prefix + key == Repeat(1, 0) + r;
    assert r[0] == 0x24;
    LeadingIs(1, 0, r);
    assert Reversed(r)[|r| - 1] == r[0];
  }

  /** Every key is written with the same number of characters. */
  lemma FormatLength(key: seq<nat>)
    requires IsKey(key)
    ensures |Convert(Prefix[1..] + key, 256, 58)| == 51 && |FormatText(key)| == 52
  {
    hide Convert;
    var r := Prefix[1..] + key;
    BytesOf(key);
    ConvertValue(r, 256, 58);
    ValueBounds(key);
    PowersOf58();
    LengthFromValue(Convert(r, 256, 58), 58, 50);
  }

  lemma ValueBounds(key: seq<nat>)
    requires IsKey(key)
    ensures 0x2408011220 * Pow(256, 32) <= LE(Reversed(Prefix[1..] + key), 256) < 0x2408011221 * Pow(256, 32)
  {
    hide Pow;
    var high := Reversed(Prefix[1..]);
    assert Reversed(Prefix[1..] + key) == Reversed(key) + high;
    LEConcat(Reversed(key), high, 256);
    Bounded(Reversed(key), 256);
    assert LE(high, 256) == 0x2408011220 by {
      assert high == [0x20, 0x12, 0x01, 0x08, 0x24];
      assert high[1..] == [0x12, 0x01, 0x08, 0x24] && high[2..] == [0x01, 0x08, 0x24] && high[3..] == [0x08, 0x24];
      assert LE([0x24], 256) == 0x24;
      assert LE([0x08, 0x24], 256) == 0x2408;
      assert LE([0x01, 0x08, 0x24], 256) == 0x240801;
      assert LE([0x12, 0x01, 0x08, 0x24], 256) == 0x24080112;
    }
  }

  lemma PowersOf58()
    ensures Pow(58, 50) <= 0x2408011220 * Pow(256, 32) && 0x2408011221 * Pow(256, 32) <= Pow(58, 51)
  {
    hide Pow;
    assert Pow(58, 16) == 16400152899115243850138976256 by {
      Square(58, 1);
      Square(58, 2);
      Square(58, 4);
      Square(58, 8);
    }
    Square(58, 16);
    PowAdd(58, 32, 16);
    PowAdd(58, 48, 2);
    Square(58, 1);
    PowAdd(58, 50, 1);
    assert Pow(58, 50) == 14838830640714294999983396511843381888381117770762056659674968992599706869653743415066624;
    assert Pow(256, 32) == 115792089237316195423570985008687907853269984665640564039457584007913129639936 by {
      Square(256, 1);
      Square(256, 2);
      Square(256, 4);
      Square(256, 8);
      Square(256, 16);
    }
  }

  /** Reading back what was written gives the key. */
  lemma ParseOfFormat(key: seq<nat>)
    requires IsKey(key)
    ensures ParseText(FormatText(key)) == Some(key)
  {
    hide Convert;
    var r := Prefix[1..] + key;
    var digits := Convert(r, 256, 58);
    BytesOf(key);
    FormatLength(key);
    ConvertValue(r, 256, 58);
    var ds := Reversed(digits);
    assert FormatText(key) == Repeat(1, '1') + Letters(ds);
    ValuesOfLetters(ds);
    NotOne(ds[0]);
    LeadingIs(1, '1', Letters(ds));
    ThereAndBack(r, 256, 58);
    assert Repeat(1, 0) + r == Prefix + key;
  }

  lemma {:induction false} ConvertBytes(xs: seq<nat>, m: nat, b: nat)
    requires b > 1 && m > 0
    ensures var r := Reversed(Convert(xs, m, b));
            (r != [] ==> r[0] != 0) && (forall i | 0 <= i < |r| :: r[i] < b)
  {
    hide Convert;
    ConvertValue(xs, m, b);
  }

  lemma ZerosFirst(zeros: nat, r: seq<nat>, key: seq<nat>)
    requires KeyOf(Repeat(zeros, 0) + r) == Some(key)
    requires (r != [] ==> r[0] != 0) && forall i | 0 <= i < |r| :: r[i] < 256
    ensures IsKey(key) && Leading(Prefix + key, 0) == zeros && (Prefix + key)[zeros..] == r
  {
    var id := Repeat(zeros, 0) + r;
    assert Prefix + key == id;
    assert forall i | 0 <= i < 32 :: key[i] == id[i + 6];
    LeadingIs(zeros, 0, r);
  }

  lemma ValuesCanonical(text: string)
    requires Spelled(text) && (text != "" ==> text[0] != '1')
    ensures Canonical(Reversed(Values(text)), 58) && Letters(Values(text)) == text
  {
    hide DigitOf;
    if text != "" {
      NotOne(Values(text)[0]);
    }
  }

  /** Every text that is accepted is the one spelling of its key. */
  lemma FormatOfParse(text: string)
    requires ParseText(text).Some?
    ensures IsKey(ParseText(text).value) && FormatText(ParseText(text).value) == text
  {
    hide Convert, DigitOf, KeyOf, Canonical;
    var zeros := Leading(text, '1');
    var rest := text[zeros..];
    var vs := Values(rest);
    ConvertBytes(vs, 58, 256);
    ZerosFirst(zeros, Reversed(Convert(vs, 58, 256)), ParseText(text).value);
    ValuesCanonical(rest);
    ThereAndBack(vs, 58, 256);
    assert Repeat(zeros, '1') + rest == text;
  }

  /** The accepted texts are the spellings of keys, and no others. */
  lemma AcceptedIff(text: string)
    ensures ParseText(text).Some? <==> exists key :: IsKey(key) && text == FormatText(key)
  {
    hide ParseText, FormatText;
    if ParseText(text).Some? {
      FormatOfParse(text);
    }
    forall key | IsKey(key) && text == FormatText(key)
      ensures ParseText(text).Some?
    {
      ParseOfFormat(key);
    }
  }

  // ----- what every peer id looks like -----

  predicate Base58Char(c: char) {
    ('1' <= c <= '9' || 'A' <= c <= 'Z' || 'a' <= c <= 'z') && c != 'O' && c != 'I' && c != 'l'
  }

  lemma CodeOf(k: nat)
    requires k < 58
    ensures Alphabet[k] as int == CodeAt(k)
  {
    AlphabetFront();
    AlphabetBack();
  }

  lemma OnlyBase58(k: nat)
    requires k < 58
    ensures Base58Char(Alphabet[k])
  {
    CodeOf(k);
  }

  lemma PlaceOf(c: char) returns (k: nat)
    requires Base58Char(c)
    ensures k < 58 && Alphabet[k] == c
  {
    var n := c as int;
    k := if c <= '9' then n - '1' as int
         else if c <= 'H' then n - 'A' as int + 9
         else if c <= 'N' then n - 'J' as int + 17
         else if c <= 'Z' then n - 'P' as int + 22
         else if c <= 'k' then n - 'a' as int + 33
         else n - 'm' as int + 44;
    CodeOf(k);
  }

  /** The digits, the capital letters and the small ones, in the order of ASCII, without 0, O, I and l. */
  lemma AlphabetIs(c: char)
    ensures c in Alphabet <==> Base58Char(c)
    ensures forall i, j | 0 <= i < j < 58 :: Alphabet[i] < Alphabet[j]
  {
    forall i, j | 0 <= i < j < 58
      ensures Alphabet[i] < Alphabet[j]
    {
      AlphabetSorted(i, j);
    }
    assert |Alphabet| == 58;
    if c in Alphabet {
      var k :| 0 <= k < 58 && Alphabet[k] == c;
      OnlyBase58(k);
    }
    if Base58Char(c) {
      var k := PlaceOf(c);
    }
  }

  /** The most significant digits that every id shares, least significant first. */
  const Shared: seq<nat> := [29, 46, 46, 18, 2, 12, 1]

  lemma SharedValue()
    ensures LE(Shared, 58) == 45971276209 && Canonical(Shared, 58)
  {
    var s := Shared;
    assert s[1..] == [46, 46, 18, 2, 12, 1] && s[2..] == [46, 18, 2, 12, 1] && s[3..] == [18, 2, 12, 1] && s[4..] == [2, 12, 1] && s[5..] == [12, 1];
    assert LE([1], 58) == 1;
    assert LE([12, 1], 58) == 70;
    assert LE([2, 12, 1], 58) == 4062;
    assert LE([18, 2, 12, 1], 58) == 235614;
    assert LE([46, 18, 2, 12, 1], 58) == 13665658;
    assert LE([46, 46, 18, 2, 12, 1], 58) == 792608210;
  }

  lemma PowerOf44()
    ensures Pow(58, 44) == 389790918707373377135528568990913592653094657612049369038476873218241589149696
  {
    hide Pow;
    assert Pow(58, 16) == 16400152899115243850138976256 by {
      Square(58, 1);
      Square(58, 2);
      Square(58, 4);
      Square(58, 8);
    }
    Square(58, 16);
    assert Pow(58, 12) == 1449225352009601191936 by {
      Square(58, 1);
      Square(58, 2);
      Square(58, 4);
      PowAdd(58, 8, 4);
    }
    PowAdd(58, 32, 12);
  }

  lemma PowerOf256()
    ensures Pow(256, 32) == 115792089237316195423570985008687907853269984665640564039457584007913129639936
  {
    hide Pow;
    Square(256, 1);
    Square(256, 2);
    Square(256, 4);
    Square(256, 8);
    Square(256, 16);
  }

  /** A number between two multiples that follow each other has the lower one's quotient. */
  lemma TopOf(low: nat, top: nat, p: nat, c: nat)
    requires low < p && c * p <= low + p * top < (c + 1) * p
    ensures top == c
  {
    if top < c {
      Arith.MulMono(top + 1, c, p);
      Arith.Distribute(p, top, 1);
    } else if top > c {
      Arith.MulMono(c + 1, top, p);
    }
  }

  lemma SharedDigits(key: seq<nat>)
    requires IsKey(key)
    ensures var s := Convert(Prefix[1..] + key, 256, 58); |s| == 51 && s[44..] == Shared
  {
    hide Convert, Pow, LE;
    var r := Prefix[1..] + key;
    var s := Convert(r, 256, 58);
    FormatLength(key);
    BytesOf(key);
    ConvertValue(r, 256, 58);
    ValueBounds(key);
    PowerOf44();
    PowerOf256();
    assert s == s[..44] + s[44..];
    LEConcat(s[..44], s[44..], 58);
    Bounded(s[..44], 58);
    TopOf(LE(s[..44], 58), LE(s[44..], 58), Pow(58, 44), 45971276209);
    SharedValue();
    Unique(s[44..], Shared, 58);
  }

  /** Every peer id begins with the same eight characters. */
  lemma FormatBegins(key: seq<nat>)
    requires IsKey(key)
    ensures |FormatText(key)| == 52 && FormatText(key)[..8] == "12D3KooW"
  {
    hide Convert;
    var r := Prefix[1..] + key;
    var s := Convert(r, 256, 58);
    BytesOf(key);
    FormatLength(key);
    ConvertValue(r, 256, 58);
    SharedDigits(key);
    var ds := Reversed(s);
    assert FormatText(key) == Repeat(1, '1') + Letters(ds);
    assert forall i | 0 <= i < 7 :: ds[i] == s[44..][6 - i];
    LettersOfShared();
  }

  lemma LettersOfShared()
    ensures Alphabet[1] == '2' && Alphabet[12] == 'D' && Alphabet[2] == '3' && Alphabet[18] == 'K' && Alphabet[46] == 'o' && Alphabet[29] == 'W'
  {
    AlphabetFront();
    AlphabetBack();
    assert Alphabet[1] as int == CodeAt(1) && Alphabet[12] as int == CodeAt(12) && Alphabet[2] as int == CodeAt(2);
    assert Alphabet[18] as int == CodeAt(18) && Alphabet[46] as int == CodeAt(46) && Alphabet[29] as int == CodeAt(29);
  }

  // ----- the conversions in place -----

  /** What a digit becomes, and what is carried on. */
  function CarryOn(x: nat, m: nat, k: nat, b: nat): (p: (nat, nat))
    requires b > 0
  {
    ((x * m + k) % b, (x * m + k) / b)
  }

  lemma CarryFits(x: nat, m: nat, k: nat, b: nat)
    requires x < b && k <= m
    ensures x * m + k <= b * m && CarryOn(x, m, k, b).1 <= m
  {
    Arith.MulMono(x + 1, b, m);
    Arith.Remainder(x * m + k, b);
    if (x * m + k) / b > m {
      Arith.MulMono(m + 1, (x * m + k) / b, b);
    }
  }

  lemma MulAddNext(total: seq<nat>, done: seq<nat>, s: seq<nat>, j: nat, m: nat, k: nat, b: nat)
    requires b > 1 && j < |s| && total == done + MulAdd(s[j..], m, k, b)
    ensures var (d, on) := CarryOn(s[j], m, k, b); total == (done + [d]) + MulAdd(s[j + 1..], m, on, b)
  {
    assert s[j..][1..] == s[j + 1..];
  }

  lemma DigitsNext(total: seq<nat>, done: seq<nat>, c: nat, b: nat)
    requires b > 1 && c > 0 && total == done + Digits(c, b)
    ensures 0 <= c / b < c && total == (done + [c % b]) + Digits(c / b, b)
  {
    Shrinks(c, b);
  }

  method CarryStep(x: nat, m: nat, k: nat, b: nat) returns (d: nat, carry: nat)
    requires x < b && k <= m && b * m < 0x1_0000_0000
    ensures (d, carry) == CarryOn(x, m, k, b)
  {
    CarryFits(x, m, k, b);
    carry := k + x * m;
    assert carry < 0x1_0000_0000;
    d := carry % b;
    carry := carry / b;
  }

  /** The carry loop over the digits there are; the carry stays within 32 bits. */
  method CarryThrough(a: array<nat>, count: nat, m: nat, b: nat, c: nat) returns (carry: nat)
    requires b > 1 && c <= m && b * m < 0x1_0000_0000
    requires count <= a.Length && forall j | 0 <= j < count :: a[j] < b
    modifies a
    ensures MulAdd(old(a[..count]), m, c, b) == a[..count] + Digits(carry, b)
  {
    ghost var was := a[..count];
    ghost var total, done := MulAdd(was, m, c, b), [];
    assert was[0..] == was;
    carry := c;
    for j := 0 to count
      invariant forall i | j <= i < count :: a[i] == was[i]
      invariant |done| == j && forall i | 0 <= i < j :: a[i] == done[i]
      invariant total == done + MulAdd(was[j..], m, carry, b)
      invariant carry <= m
    {
      hide MulAdd, Digits, CarryOn;
      MulAddNext(total, done, was, j, m, carry, b);
      CarryFits(a[j], m, carry, b);
      ghost var d := CarryOn(a[j], m, carry, b).0;
      a[j], carry := CarryStep(a[j], m, carry, b);
      done := done + [d];
    }
    assert a[..count] == done && was[count..] == [];
  }

  /** Spells what is left of the carry; the digits of the result fit, so nothing is checked. */
  method SpellCarry(a: array<nat>, count: nat, b: nat, c: nat) returns (n: nat)
    requires b > 1 && count + |Digits(c, b)| <= a.Length
    modifies a
    ensures count <= n <= a.Length && a[..n] == old(a[..count]) + Digits(c, b)
  {
    ghost var done := a[..count];
    ghost var total := done + Digits(c, b);
    n := count;
    var carry := c;
    while carry != 0
      invariant carry >= 0 && count <= n == |done| <= a.Length && (forall i | 0 <= i < n :: a[i] == done[i])
      invariant total == done + Digits(carry, b)
    {
      DigitsNext(total, done, carry, b);
      a[n] := carry % b;
      done := done + [carry % b];
      n := n + 1;
      carry := carry / b;
    }
    assert a[..n] == done;
  }

  /** As SpellCarry, but a byte too many is refused. */
  method SpellWithin(a: array<nat>, count: nat, b: nat, c: nat) returns (ok: bool, n: nat)
    requires b > 1 && count <= a.Length
    modifies a
    ensures ok <==> count + |Digits(c, b)| <= a.Length
    ensures ok ==> count <= n <= a.Length && a[..n] == old(a[..count]) + Digits(c, b)
  {
    ghost var done := a[..count];
    ghost var total := done + Digits(c, b);
    n := count;
    var carry := c;
    while carry != 0
      invariant carry >= 0 && count <= n == |done| <= a.Length && (forall i | 0 <= i < n :: a[i] == done[i])
      invariant total == done + Digits(carry, b)
    {
      DigitsNext(total, done, carry, b);
      if n == a.Length {
        return false, n;
      }
      a[n] := carry % b;
      done := done + [carry % b];
      n := n + 1;
      carry := carry / b;
    }
    assert a[..n] == done;
    return true, n;
  }

  /** Writes the digits after the leading ones, the most significant first. */
  method WriteText(out: array<char>, zeros: nat, digits: seq<nat>)
    requires (forall i | 0 <= i < |digits| :: digits[i] < 58) && zeros + |digits| < out.Length
    modifies out
    ensures out[..zeros + |digits|] == Repeat(zeros, '1') + Letters(Reversed(digits))
    ensures out[zeros + |digits|] == '\0'
    ensures forall k | zeros + |digits| < k < out.Length :: out[k] == old(out[k])
  {
    for i := 0 to zeros
      invariant forall k | 0 <= k < i :: out[k] == '1'
      invariant forall k | i <= k < out.Length :: out[k] == old(out[k])
    {
      out[i] := '1';
    }
    ghost var text := Repeat(zeros, '1') + Letters(Reversed(digits));
    for j := 0 to |digits|
      invariant forall k | 0 <= k < zeros + j :: out[k] == text[k]
      invariant forall k | zeros + j <= k < out.Length :: out[k] == old(out[k])
    {
      out[zeros + j] := Alphabet[digits[|digits| - 1 - j]];
    }
    out[zeros + |digits|] := '\0';
  }

  /** Writes the peer id of `key`; the digits never leave their buffer, nor the text its own. */
  method Format(key: seq<nat>, out: array<char>)
    requires IsKey(key) && out.Length == TextMax
    modifies out
    ensures out[..52] == FormatText(key) && out[52] == '\0'
    ensures forall k | 53 <= k < TextMax :: out[k] == old(out[k])
  {
    hide Convert;
    var bytes := Prefix + key;
    var digits := new nat[TextMax];
    BytesOf(key);
    FormatLength(key);
    var zeros := 0;
    while zeros != |bytes| && bytes[zeros] == 0
      invariant zeros <= Leading(bytes, 0)
    {
      zeros := zeros + 1;
    }
    var count := ConvertBytesTo58(bytes, zeros, digits);
    ConvertValue(bytes[zeros..], 256, 58);
    WriteText(out, zeros, digits[..count]);
  }

  lemma ConvertNone(m: nat, b: nat)
    requires b > 1
    ensures Convert([], m, b) == []
  {
  }

  lemma ConvertNext(bytes: seq<nat>, zeros: nat, i: nat, m: nat, b: nat)
    requires zeros <= i < |bytes| && b > 1 && m > 0
    ensures Convert(bytes[zeros..i + 1], m, b) == MulAdd(Convert(bytes[zeros..i], m, b), m, bytes[i], b)
    ensures |Convert(bytes[zeros..i + 1], m, b)| <= |Convert(bytes[zeros..], m, b)|
    ensures forall j | 0 <= j < |Convert(bytes[zeros..i], m, b)| :: Convert(bytes[zeros..i], m, b)[j] < b
  {
    var xs := bytes[zeros..i + 1];
    assert xs[..|xs| - 1] == bytes[zeros..i];
    assert bytes[zeros..][..|xs|] == xs;
    ConvertGrows(bytes[zeros..], |xs|, m, b);
    ConvertValue(bytes[zeros..i], m, b);
  }

  method ConvertBytesTo58(bytes: seq<nat>, zeros: nat, digits: array<nat>) returns (count: nat)
    requires zeros <= |bytes| && (forall i | 0 <= i < |bytes| :: bytes[i] < 256)
    requires |Convert(bytes[zeros..], 256, 58)| <= digits.Length
    modifies digits
    ensures count <= digits.Length && digits[..count] == Convert(bytes[zeros..], 256, 58)
  {
    hide Convert;
    count := 0;
    assert bytes[zeros..zeros] == [];
    ConvertNone(256, 58);
    for i := zeros to |bytes|
      invariant count <= digits.Length && digits[..count] == Convert(bytes[zeros..i], 256, 58)
    {
      ConvertNext(bytes, zeros, i, 256, 58);
      var carry := CarryThrough(digits, count, 256, 58, bytes[i]);
      count := SpellCarry(digits, count, 58, carry);
    }
    assert bytes[zeros..|bytes|] == bytes[zeros..];
  }

  /** memchr over the alphabet. */
  method FindLetter(ch: char) returns (d: int)
    ensures d == DigitOf(ch)
  {
    d := 0;
    while d < 58 && Alphabet[d] != ch
      invariant 0 <= d <= 58 && FindFrom(Alphabet, ch, 0) == FindFrom(Alphabet, ch, d)
    {
      d := d + 1;
    }
    if d == 58 {
      d := -1;
    }
  }

  lemma ValuesNext(text: string)
    requires text != "" && Spelled(text[..|text| - 1]) && DigitOf(text[|text| - 1]) >= 0
    ensures Spelled(text)
    ensures Convert(Values(text), 58, 256) ==
            MulAdd(Convert(Values(text[..|text| - 1]), 58, 256), 58, DigitOf(text[|text| - 1]), 256)
    ensures var c := Convert(Values(text[..|text| - 1]), 58, 256); forall j | 0 <= j < |c| :: c[j] < 256
  {
    hide DigitOf, MulAdd;
    var front := text[..|text| - 1];
    assert forall i | 0 <= i < |front| :: text[i] == front[i];
    assert Values(text)[..|text| - 1] == Values(front);
    ConvertValue(Values(front), 58, 256);
  }

  lemma TooManyBytes(text: string, k: nat)
    requires k <= |text| && Spelled(text[..k]) && |Convert(Values(text[..k]), 58, 256)| > IdBytes
    ensures Spelled(text) ==> |Convert(Values(text), 58, 256)| > IdBytes
  {
    hide DigitOf, Convert;
    if Spelled(text) {
      assert Values(text)[..k] == Values(text[..k]);
      ConvertGrows(Values(text), k, 58, 256);
    }
  }

  /** Reads the digits behind the leading ones into bytes, refusing what no key has. */
  method ConvertTextTo256(text: string, bytes: array<nat>) returns (ok: bool, count: nat)
    requires bytes.Length == IdBytes
    modifies bytes
    ensures ok <==> Spelled(text) && |Convert(Values(text), 58, 256)| <= IdBytes
    ensures ok ==> count <= IdBytes && bytes[..count] == Convert(Values(text), 58, 256)
  {
    hide Convert, DigitOf, MulAdd, Digits;
    count := 0;
    ConvertNone(58, 256);
    for i := 0 to |text|
      invariant Spelled(text[..i]) && count <= IdBytes && bytes[..count] == Convert(Values(text[..i]), 58, 256)
    {
      ghost var front := text[..i + 1];
      assert front[..|front| - 1] == text[..i] && front[|front| - 1] == text[i];
      var d := FindLetter(text[i]);
      if d < 0 || text[i] == '\0' {
        assert !Spelled(text) by {
          NoNulInAlphabet(text[i]);
        }
        return false, count;
      }
      ValuesNext(front);
      var carry := CarryThrough(bytes, count, 58, 256, d);
      ok, count := SpellWithin(bytes, count, 256, carry);
      if !ok {
        TooManyBytes(text, i + 1);
        return;
      }
    }
    assert text[..|text|] == text;
    return true, count;
  }

  lemma NoNulInAlphabet(ch: char)
    ensures ch == '\0' ==> DigitOf(ch) < 0
  {
    var d := DigitOf(ch);
    if 0 < d {
      AlphabetSorted(0, d);
    }
  }

  /** Reads a peer id: writes its key and says so, or leaves the key alone. */
  method Parse(text: string, key: array<nat>) returns (ok: bool)
    requires key.Length == 32
    modifies key
    ensures ok <==> ParseText(text).Some?
    ensures key[..] == if ok then ParseText(text).value else old(key[..])
  {
    hide Convert, DigitOf, Spelled;
    var bytes := new nat[IdBytes];
    if |text| == 0 || |text| >= TextMax {
      return false;
    }
    var zeros := 0;
    while zeros != |text| && text[zeros] == '1'
      invariant zeros <= Leading(text, '1')
    {
      zeros := zeros + 1;
    }
    var count;
    ok, count := ConvertTextTo256(text[zeros..], bytes);
    if !ok || zeros + count != IdBytes {
      return false;
    }
    var id := new nat[IdBytes](_ => 0);
    PlaceBytes(id, zeros, bytes[..count]);
    ok := TakeKey(id[..], key);
  }

  method TakeKey(id: seq<nat>, key: array<nat>) returns (ok: bool)
    requires |id| == IdBytes && key.Length == 32
    modifies key
    ensures ok <==> KeyOf(id).Some?
    ensures key[..] == if ok then KeyOf(id).value else old(key[..])
  {
    if id[..6] != Prefix {
      return false;
    }
    for k := 0 to 32
      invariant forall i | 0 <= i < k :: key[i] == id[6 + i]
    {
      key[k] := id[6 + k];
    }
    return true;
  }

  method PlaceBytes(id: array<nat>, zeros: nat, bytes: seq<nat>)
    requires zeros + |bytes| == id.Length && forall k | 0 <= k < zeros :: id[k] == 0
    modifies id
    ensures id[..] == Repeat(zeros, 0) + Reversed(bytes)
  {
    ghost var goal := Repeat(zeros, 0) + Reversed(bytes);
    for j := 0 to |bytes|
      invariant forall k | 0 <= k < zeros + j :: id[k] == goal[k]
    {
      id[zeros + j] := bytes[|bytes| - 1 - j];
    }
  }
}
