/** The address rule: hand-written scans that accept exactly what the documented expression matches. */
module Email {
  import opened Regex
  import Utf8Fields

  function Labels(chars: Class, between: Class): Re {
    Cat(Plus(One(chars)), Star(Cat(One(between), Plus(One(chars)))))
  }

  /** `[a-z]{2,}`. */
  function TopLevel(): Re {
    Cat(One(Letter), Cat(One(Letter), Star(One(Letter))))
  }

  /** `[\da-z]+(?:[.-][\da-z]+)*\.[a-z]{2,}`. */
  function Domain(): Re {
    Cat(Labels(LabelChar, DotOrHyphen), Cat(One(Dot), TopLevel()))
  }

  /** `[\w+-]+(?:\.[\w+-]+)*@`, and the domain. */
  function Address(): Re {
    Cat(Labels(Word, Dot), Cat(One(AtSign), Domain()))
  }

  /** The scan over labels, from inside a label or not. */
  predicate Scan(chars: Class, between: Class, s: string, inLabel: bool)
    decreases |s|
  {
    if s == "" then inLabel
    else if In(s[0], between) then inLabel && Scan(chars, between, s[1..], false)
    else In(s[0], chars) && Scan(chars, between, s[1..], true)
  }

  function FirstAt(s: string): (k: nat)
    ensures k <= |s| && (forall i | 0 <= i < k :: s[i] != '@') && (k < |s| ==> s[k] == '@')
    decreases |s|
  {
    if s == "" || s[0] == '@' then 0 else 1 + FirstAt(s[1..])
  }

  /** The last dot, or -1. */
  function LastDot(s: string): (k: int)
    ensures -1 <= k < |s| && (k >= 0 ==> s[k] == '.') && forall i | k < i < |s| :: s[i] != '.'
    decreases |s|
  {
    if s == "" then -1 else if s[|s| - 1] == '.' then |s| - 1 else LastDot(s[..|s| - 1])
  }

  predicate AllLetters(s: string) {
    forall i | 0 <= i < |s| :: In(s[i], Letter)
  }

  predicate DomainOk(t: string) {
    var dot := LastDot(t);
    && dot >= 0
    && |t| - dot - 1 >= 2
    && AllLetters(t[dot + 1..])
    && Scan(LabelChar, DotOrHyphen, t[..dot], false)
  }

  /** The rule as it is checked: the first @, the local part, the last dot, the letters behind it, the labels before. */
  predicate IsEmail(s: string) {
    var at := FirstAt(s);
    at < |s| && Scan(Word, Dot, s[..at], false) && DomainOk(s[at + 1..])
  }

  // ----- the scan is the expression -----

  predicate Apart(chars: Class, between: Class) {
    forall c: char :: !(In(c, chars) && In(c, between))
  }

  lemma PlusThen(cls: Class, r: Re, s: string)
    ensures Matches(Cat(Plus(One(cls)), r), s) <==> s != "" && In(s[0], cls) && Matches(Cat(Star(One(cls)), r), s[1..])
  {
    hide Matches, In;
    CatAssoc(One(cls), Star(One(cls)), r, s);
    OneThen(cls, Cat(Star(One(cls)), r), s);
  }

  lemma {:induction false} ScanIsLabels(chars: Class, between: Class, s: string)
    requires Apart(chars, between)
    ensures Scan(chars, between, s, false) <==> Matches(Labels(chars, between), s)
    ensures Scan(chars, between, s, true) <==>
            Matches(Cat(Star(One(chars)), Star(Cat(One(between), Plus(One(chars))))), s)
    decreases |s|
  {
    hide Matches, In;
    var more := Cat(One(between), Plus(One(chars)));
    var rest := Star(more);
    PlusThen(chars, rest, s);
    StarOneThen(chars, rest, s);
    OneThen(between, Plus(One(chars)), "");
    StarUnfolds(more, s);
    CatAssoc(One(between), Plus(One(chars)), rest, s);
    OneThen(between, Cat(Plus(One(chars)), rest), s);
    if s != "" {
      ScanIsLabels(chars, between, s[1..]);
    }
  }

  lemma {:induction false} StarLetters(s: string)
    ensures AllLetters(s) <==> Matches(Star(One(Letter)), s)
    decreases |s|
  {
    hide Matches, In;
    OneIs(Letter, "");
    StarUnfolds(One(Letter), s);
    OneThen(Letter, Star(One(Letter)), s);
    if s != "" {
      StarLetters(s[1..]);
      assert AllLetters(s) <==> In(s[0], Letter) && AllLetters(s[1..]) by {
        assert forall i | 0 < i < |s| :: s[i] == s[1..][i - 1];
        assert forall i | 0 <= i < |s[1..]| :: s[1..][i] == s[i + 1];
      }
    }
  }

  // ----- the rule is the expression -----

  lemma TopLevelIff(t: string)
    ensures Matches(TopLevel(), t) <==> |t| >= 2 && AllLetters(t)
  {
    hide Matches, In;
    var two := Cat(One(Letter), Star(One(Letter)));
    OneThen(Letter, two, t);
    if t != "" {
      OneThen(Letter, Star(One(Letter)), t[1..]);
      if |t| > 1 {
        assert t[1..][1..] == t[2..] && t[1..][0] == t[1];
        StarLetters(t[2..]);
        assert AllLetters(t) <==> In(t[0], Letter) && In(t[1], Letter) && AllLetters(t[2..]) by {
          assert forall i | 1 < i < |t| :: t[i] == t[2..][i - 2];
          assert forall i | 0 <= i < |t[2..]| :: t[2..][i] == t[i + 2];
        }
      }
    }
  }

  /** Every character a scan accepts is of one of its classes. */
  lemma {:induction false} ScanChars(chars: Class, between: Class, s: string, inLabel: bool, k: nat)
    requires Scan(chars, between, s, inLabel) && k < |s|
    ensures In(s[k], chars) || In(s[k], between)
    decreases |s|
  {
    hide In;
    if k > 0 {
      ScanChars(chars, between, s[1..], !In(s[0], between), k - 1);
    }
  }

  lemma ClassesApart()
    ensures Apart(Word, Dot) && Apart(LabelChar, DotOrHyphen)
  {
  }

  lemma DotIs(t: string, j: nat)
    requires j < |t| && t[j] == '.' && AllLetters(t[j + 1..])
    ensures LastDot(t) == j
  {
    forall i | j < i < |t|
      ensures t[i] != '.'
    {
      assert t[i] == t[j + 1..][i - j - 1];
      assert In(t[j + 1..][i - j - 1], Letter);
    }
    assert LastDot(t) >= j;
  }

  lemma DomainIff(t: string)
    ensures Matches(Domain(), t) <==> DomainOk(t)
  {
    hide Matches, Scan, In;
    ClassesApart();
    var labels, tail := Labels(LabelChar, DotOrHyphen), Cat(One(Dot), TopLevel());
    if Matches(Domain(), t) {
      var j := CatSplit(labels, tail, t);
      DomainAt(t, j);
      ScanIsLabels(LabelChar, DotOrHyphen, t[..j]);
      DotIs(t, j);
    }
    if DomainOk(t) {
      var j := LastDot(t);
      ScanIsLabels(LabelChar, DotOrHyphen, t[..j]);
      DomainAt(t, j);
      CatAt(labels, tail, t, j);
    }
  }

  lemma DomainAt(t: string, j: nat)
    requires j <= |t|
    ensures Matches(Cat(One(Dot), TopLevel()), t[j..]) <==>
            j < |t| && t[j] == '.' && |t| - j - 1 >= 2 && AllLetters(t[j + 1..])
  {
    hide Matches, AllLetters;
    OneThen(Dot, TopLevel(), t[j..]);
    if j < |t| {
      assert t[j..][1..] == t[j + 1..];
      TopLevelIff(t[j + 1..]);
    }
  }

  lemma AtIs(s: string, i: nat)
    requires i < |s| && s[i] == '@' && Scan(Word, Dot, s[..i], false)
    ensures FirstAt(s) == i
  {
    forall k | 0 <= k < i
      ensures s[k] != '@'
    {
      ScanChars(Word, Dot, s[..i], false, k);
      assert s[..i][k] == s[k];
    }
  }

  /** The rule accepts exactly the language of the expression. */
  lemma EmailIff(s: string)
    ensures IsEmail(s) <==> Matches(Address(), s)
  {
    hide Matches, Scan, DomainOk, In;
    ClassesApart();
    var local, tail := Labels(Word, Dot), Cat(One(AtSign), Domain());
    if Matches(Address(), s) {
      var i := CatSplit(local, tail, s);
      AddressAt(s, i);
      ScanIsLabels(Word, Dot, s[..i]);
      AtIs(s, i);
    }
    if IsEmail(s) {
      var i := FirstAt(s);
      ScanIsLabels(Word, Dot, s[..i]);
      AddressAt(s, i);
      CatAt(local, tail, s, i);
    }
  }

  lemma AddressAt(s: string, i: nat)
    requires i <= |s|
    ensures Matches(Cat(One(AtSign), Domain()), s[i..]) <==> i < |s| && s[i] == '@' && DomainOk(s[i + 1..])
  {
    hide Matches, DomainOk;
    OneThen(AtSign, Domain(), s[i..]);
    if i < |s| {
      assert s[i..][1..] == s[i + 1..];
      DomainIff(s[i + 1..]);
    }
  }

  // ----- in characters -----

  /** The classes, character by character. */
  lemma ClassesAre(c: char)
    ensures In(c, Letter) <==> 'A' <= c <= 'Z' || 'a' <= c <= 'z'
    ensures In(c, LabelChar) <==> 'A' <= c <= 'Z' || 'a' <= c <= 'z' || '0' <= c <= '9'
    ensures In(c, Word) <==> 'A' <= c <= 'Z' || 'a' <= c <= 'z' || '0' <= c <= '9' || c in "_+-"
    ensures (In(c, Dot) <==> c == '.') && (In(c, DotOrHyphen) <==> c in ".-") && (In(c, AtSign) <==> c == '@')
  {
  }

  lemma SimpleDomainIff(host: string, top: string)
    requires (forall i | 0 <= i < |host| :: host[i] != '.' && host[i] != '-') && (forall i | 0 <= i < |top| :: top[i] != '.')
    ensures DomainOk(host + ("." + top)) <==>
            && host != "" && (forall i | 0 <= i < |host| :: In(host[i], LabelChar))
            && |top| >= 2 && (forall i | 0 <= i < |top| :: In(top[i], Letter))
  {
    hide Scan, In;
    var t := host + ("." + top);
    assert t[|host|] == '.' && forall i | |host| < i < |t| :: t[i] == top[i - |host| - 1];
    assert LastDot(t) == |host|;
    assert t[..|host|] == host && t[|host| + 1..] == top;
    OneLabel(LabelChar, DotOrHyphen, host, false);
  }

  /** A local part of one word, a domain of one label, and a top level: what each of them may be. */
  lemma SimpleAddressIff(local: string, host: string, top: string)
    requires (forall i | 0 <= i < |local| :: local[i] != '.' && local[i] != '@') && (forall i | 0 <= i < |top| :: top[i] != '.')
    requires forall i | 0 <= i < |host| :: host[i] != '.' && host[i] != '-'
    ensures IsEmail(local + ("@" + (host + ("." + top)))) <==>
            && local != "" && (forall i | 0 <= i < |local| :: In(local[i], Word))
            && host != "" && (forall i | 0 <= i < |host| :: In(host[i], LabelChar))
            && |top| >= 2 && (forall i | 0 <= i < |top| :: In(top[i], Letter))
  {
    SimpleDomainIff(host, top);
    OneLabel(Word, Dot, local, false);
    hide Scan, In, DomainOk;
    var t := host + ("." + top);
    AtFirst(local, t);
  }

  lemma AtFirst(local: string, t: string)
    requires forall i | 0 <= i < |local| :: local[i] != '@'
    ensures var s := local + ("@" + t);
            FirstAt(s) == |local| < |s| && s[..|local|] == local && s[|local| + 1..] == t
  {
    var s := local + ("@" + t);
    assert forall i | 0 <= i < |local| :: s[i] == local[i];
    assert s[|local|] == '@';
  }

  lemma {:induction false} OneLabel(chars: Class, between: Class, s: string, inLabel: bool)
    requires (between == Dot || between == DotOrHyphen) && forall i | 0 <= i < |s| :: s[i] != '.' && (between == DotOrHyphen ==> s[i] != '-')
    ensures Scan(chars, between, s, inLabel) <==> (s != "" || inLabel) && forall i | 0 <= i < |s| :: In(s[i], chars)
    decreases |s|
  {
    if s != "" {
      OneLabel(chars, between, s[1..], true);
      assert forall i | 0 < i < |s| :: s[i] == s[1..][i - 1];
      assert forall i | 0 <= i < |s[1..]| :: s[1..][i] == s[i + 1];
    }
  }

  /** Labels stand between single dots, and in a domain hyphens: none is empty. */
  lemma {:induction false} NoEmptyLabel(chars: Class, between: Class, a: string, x: char, y: char, b: string, inLabel: bool)
    requires In(x, between) && In(y, between)
    ensures !Scan(chars, between, a + ([x, y] + b), inLabel)
    ensures !Scan(chars, between, [x] + b, false) && !Scan(chars, between, a + [x], inLabel)
    decreases |a|
  {
    hide In;
    assert ([x] + b)[0] == x;
    if a == "" {
      var s := [x, y] + b;
      assert a + s == s && s[0] == x && s[1..] == [y] + b && ([y] + b)[0] == y;
      assert a + [x] == [x] && [x][1..] == "";
    } else {
      assert (a + ([x, y] + b))[0] == a[0] && (a + ([x, y] + b))[1..] == a[1..] + ([x, y] + b);
      assert (a + [x])[0] == a[0] && (a + [x])[1..] == a[1..] + [x];
      NoEmptyLabel(chars, between, a[1..], x, y, b, !In(a[0], between));
    }
  }

  // ----- the expression under its flags, and the text as it arrives -----

  predicate Ascii(s: string) {
    forall i | 0 <= i < |s| :: s[i] as int < 128
  }

  lemma ClassesAscii(c: char, cls: Class)
    requires In(c, cls)
    ensures c as int < 128
  {
  }

  lemma {:induction false} ScanAscii(chars: Class, between: Class, s: string)
    requires Scan(chars, between, s, false)
    ensures Ascii(s)
  {
    hide In, Scan;
    forall i | 0 <= i < |s|
      ensures s[i] as int < 128
    {
      ScanChars(chars, between, s, false, i);
      if In(s[i], chars) {
        ClassesAscii(s[i], chars);
      } else {
        ClassesAscii(s[i], between);
      }
    }
  }

  lemma EmailAscii(s: string)
    requires IsEmail(s)
    ensures Ascii(s)
  {
    hide Scan, In;
    var at := FirstAt(s);
    var t := s[at + 1..];
    var dot := LastDot(t);
    ScanAscii(Word, Dot, s[..at]);
    ScanAscii(LabelChar, DotOrHyphen, t[..dot]);
    forall i | 0 <= i < |s|
      ensures s[i] as int < 128
    {
      if i < at {
        assert s[i] == s[..at][i];
      } else if i > at {
        var j := i - at - 1;
        assert s[i] == t[j];
        if j < dot {
          assert t[j] == t[..dot][j];
        } else if j > dot {
          assert t[j] == t[dot + 1..][j - dot - 1];
          ClassesAscii(t[j], Letter);
        }
      }
    }
  }

  /** Neither of the characters that fold to a letter. */
  predicate Unfolded(s: string) {
    forall i | 0 <= i < |s| :: Fold(s[i]) == s[i]
  }

  /** Under the flags the expression also accepts addresses with those two characters, and only those besides. */
  lemma EmailUnderFlags(s: string)
    ensures IsEmail(s) <==> MatchesFolded(Address(), s) && Unfolded(s)
  {
    hide IsEmail, Matches, MatchesFolded;
    FoldedMatches(Address(), s);
    EmailIff(s);
    if IsEmail(s) {
      EmailAscii(s);
    }
    if Unfolded(s) {
      assert FoldAll(s) == s;
    }
  }

  /** An address that the expression accepts under its flags and the rule does not. */
  lemma FoldedOnly()
    ensures MatchesFolded(Address(), "a@b.\U{017F}k") && !IsEmail("a@b.\U{017F}k")
  {
    hide IsEmail, Matches, MatchesFolded;
    var s, t := "a@b.\U{017F}k", "a@b.sk";
    assert FoldAll(s) == t;
    FoldedMatches(Address(), s);
    PlainAddress();
    EmailIff(t);
    EmailUnderFlags(s);
    assert Fold(s[4]) != s[4];
  }

  lemma PlainAddress()
    ensures IsEmail("a@b.sk")
  {
    hide IsEmail;
    SimpleAddressIff("a", "b", "sk");
    assert "a" + ("@" + ("b" + ("." + "sk"))) == "a@b.sk";
  }

  function CodesOf(s: string): seq<nat> {
    seq(|s|, i requires 0 <= i < |s| => s[i] as nat)
  }

  function BytesAsText(bs: seq<Utf8Fields.Byte>): string {
    seq(|bs|, i requires 0 <= i < |bs| => bs[i] as char)
  }

  /** The text of a string as the server receives it, one character for every byte. */
  function Utf8(s: string): string {
    BytesAsText(Utf8Fields.EncodeAll(CodesOf(s)))
  }

  lemma {:induction false} Utf8Ascii(s: string)
    ensures Ascii(s) ==> Utf8(s) == s
    ensures Ascii(Utf8(s)) ==> Ascii(s)
    decreases |s|
  {
    if s != "" {
      Utf8Ascii(s[1..]);
      var e := Utf8Fields.Encode(s[0] as nat);
      assert CodesOf(s)[1..] == CodesOf(s[1..]);
      assert Utf8(s) == BytesAsText(e) + Utf8(s[1..]);
      assert s == [s[0]] + s[1..];
      if Ascii(Utf8(s)) {
        assert BytesAsText(e)[0] == Utf8(s)[0];
        forall i | 0 <= i < |Utf8(s[1..])|
          ensures Utf8(s[1..])[i] as int < 128
        {
          assert Utf8(s[1..])[i] == Utf8(s)[|e| + i];
        }
      }
    }
  }

  /** Scanning bytes decides the same as scanning characters would. */
  lemma EmailOnBytes(s: string)
    ensures IsEmail(Utf8(s)) <==> IsEmail(s)
  {
    hide IsEmail, Utf8;
    Utf8Ascii(s);
    if IsEmail(s) {
      EmailAscii(s);
    }
    if IsEmail(Utf8(s)) {
      EmailAscii(Utf8(s));
    }
  }

  // ----- the loops -----

  /** The scan over text[from..to], counting the characters of the label it is in. */
  method LabelsOk(chars: Class, between: Class, text: string, from: nat, to: nat) returns (ok: bool)
    requires from <= to <= |text|
    ensures ok <==> Scan(chars, between, text[from..to], false)
  {
    hide In;
    if from == to {
      return false;
    }
    var i, inLabel := from, 0;
    while i != to
      invariant from <= i <= to
      invariant Scan(chars, between, text[from..to], false) <==> Scan(chars, between, text[i..to], inLabel != 0)
    {
      assert text[i..to][0] == text[i] && text[i..to][1..] == text[i + 1..to];
      if In(text[i], between) {
        if inLabel == 0 {
          return false;
        }
        inLabel := 0;
      } else {
        if !In(text[i], chars) {
          return false;
        }
        inLabel := inLabel + 1;
      }
      i := i + 1;
    }
    return inLabel != 0;
  }

  method FindAt(text: string) returns (at: nat, has: bool)
    ensures has <==> FirstAt(text) < |text|
    ensures has ==> at == FirstAt(text)
  {
    at, has := 0, false;
    for i := 0 to |text|
      invariant if has then at < i && text[at] == '@' && (forall k | 0 <= k < at :: text[k] != '@')
                else forall k | 0 <= k < i :: text[k] != '@'
    {
      if text[i] == '@' && !has {
        at, has := i, true;
      }
    }
  }

  method FindLastDot(text: string, from: nat) returns (dot: nat, has: bool)
    requires from <= |text|
    ensures has <==> LastDot(text[from..]) >= 0
    ensures has ==> dot == from + LastDot(text[from..])
  {
    dot, has := 0, false;
    for i := from to |text|
      invariant has ==> from <= dot < i && text[dot] == '.'
      invariant forall k | from <= k < i && (has ==> dot < k) :: text[k] != '.'
    {
      if text[i] == '.' {
        dot, has := i, true;
      }
    }
    ghost var t := text[from..];
    assert forall k | 0 <= k < |t| :: t[k] == text[from + k];
    if has {
      assert t[dot - from] == '.';
    }
  }

  method LettersFrom(text: string, from: nat) returns (ok: bool)
    requires from <= |text|
    ensures ok <==> AllLetters(text[from..])
  {
    hide In;
    for i := from to |text|
      invariant forall k | from <= k < i :: In(text[k], Letter)
    {
      if !In(text[i], Letter) {
        assert text[from..][i - from] == text[i];
        return false;
      }
    }
    return true;
  }

  method DomainFrom(text: string, from: nat) returns (ok: bool)
    requires from <= |text|
    ensures ok <==> DomainOk(text[from..])
  {
    hide Scan, AllLetters, In;
    var dot, hasDot := FindLastDot(text, from);
    if !hasDot || |text| - dot - 1 < 2 {
      return false;
    }
    ghost var t := text[from..];
    assert t[dot - from + 1..] == text[dot + 1..] && t[..dot - from] == text[from..dot];
    var letters := LettersFrom(text, dot + 1);
    if !letters {
      return false;
    }
    ok := LabelsOk(LabelChar, DotOrHyphen, text, from, dot);
  }

  method AcceptsEmail(text: string) returns (ok: bool)
    ensures ok <==> IsEmail(text)
  {
    hide Scan, DomainOk;
    if |text| == 0 {
      return false;
    }
    var at, hasAt := FindAt(text);
    if !hasAt {
      return false;
    }
    var localOk := LabelsOk(Word, Dot, text, 0, at);
    assert text[0..at] == text[..at];
    if !localOk {
      return false;
    }
    ok := DomainFrom(text, at + 1);
  }
}
