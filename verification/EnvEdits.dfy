/**
 * The writer as an editor: which lines of the existing file it touches, where an answer goes, and that
 * everything else is left as it stands, comments and all.
 */
module EnvEdits {
  import opened Options
  import opened EnvFile
  import opened EnvForms

  // ----- a text and its lines -----

  function Lines(s: string): seq<string>
    decreases |s|
  {
    if s == "" then [] else [FirstLine(s)] + Lines(SkipLine(s))
  }

  function Joined(ls: seq<string>): string {
    if ls == [] then "" else ls[0] + "\n" + Joined(ls[1..])
  }

  lemma {:induction false} FirstLineEnds(s: string)
    requires s != ""
    ensures (FirstLine(s) + "\n" + SkipLine(s) == s) || (FirstLine(s) == s && SkipLine(s) == "")
    decreases |s|
  {
    if s[0] != '\n' && s[1..] != "" {
      FirstLineEnds(s[1..]);
      assert s == [s[0]] + s[1..];
      assert ([s[0]] + FirstLine(s[1..])) + "\n" + SkipLine(s) == [s[0]] + (FirstLine(s[1..]) + "\n" + SkipLine(s[1..]));
    }
  }

  /** The lines have no newline in them and spell the text, the last one closed if it was not. */
  lemma {:induction false} LinesSpell(s: string)
    ensures forall k | 0 <= k < |Lines(s)| :: '\n' !in Lines(s)[k]
    ensures Joined(Lines(s)) == s || Joined(Lines(s)) == s + "\n"
    decreases |s|
  {
    if s != "" {
      FirstLineEnds(s);
      LinesSpell(SkipLine(s));
      var f, r := FirstLine(s), SkipLine(s);
      assert Lines(s)[1..] == Lines(r);
      if f == s && r == "" {
        assert Joined(Lines(s)) == f + "\n" + "";
      } else {
        assert f + "\n" + (r + "\n") == (f + "\n" + r) + "\n";
      }
    }
  }

  // ----- what is done to the lines -----

  /** For every line the entry that takes its place, if one does. */
  type Choice = seq<Option<nat>>

  function Piece(line: string, c: Option<nat>, entries: seq<Pair>): string {
    if c.Some? && c.value < |entries| then AssignmentText(entries[c.value]) else line + "\n"
  }

  function Edited(ls: seq<string>, choice: Choice, entries: seq<Pair>): string
    requires |choice| == |ls|
  {
    if ls == [] then "" else Piece(ls[0], choice[0], entries) + Edited(ls[1..], choice[1..], entries)
  }

  /** Entry `c` has had its place before line `k`. */
  predicate Placed(written: seq<bool>, choice: Choice, k: nat, c: nat)
    requires c < |written| && k <= |choice|
  {
    written[c] || Some(c) in choice[..k]
  }

  /** A line is replaced by the first entry of its name that has no place yet, and stays if there is none. */
  ghost predicate Right(line: string, entries: seq<Pair>, written: seq<bool>, choice: Choice, k: nat)
    requires |written| == |entries| && k < |choice|
  {
    match choice[k]
    case Some(c) =>
      && c < |entries| && NameOn(line) == Some(entries[c].name) && !Placed(written, choice, k, c)
      && forall d | 0 <= d < c && entries[d].name == entries[c].name :: Placed(written, choice, k, d)
    case None => forall c | 0 <= c < |entries| && NameOn(line) == Some(entries[c].name) :: Placed(written, choice, k, c)
  }

  ghost predicate Chosen(ls: seq<string>, entries: seq<Pair>, written: seq<bool>, choice: Choice) {
    && |written| == |entries| && |choice| == |ls|
    && forall k | 0 <= k < |ls| :: Right(ls[k], entries, written, choice, k)
  }

  function Mark(written: seq<bool>, c: Option<nat>): seq<bool> {
    if c.Some? && c.value < |written| then written[c.value := true] else written
  }

  lemma PlacedNext(written: seq<bool>, h: Option<nat>, choice: Choice, k: nat, c: nat)
    requires c < |written| && k <= |choice|
    ensures Placed(written, [h] + choice, k + 1, c) <==> Placed(Mark(written, h), choice, k, c)
  {
    assert ([h] + choice)[..k + 1] == [h] + choice[..k];
  }

  lemma RightNext(line: string, entries: seq<Pair>, written: seq<bool>, h: Option<nat>, choice: Choice, k: nat)
    requires |written| == |entries| && k < |choice| && Right(line, entries, Mark(written, h), choice, k)
    ensures Right(line, entries, written, [h] + choice, k + 1)
  {
    forall c | 0 <= c < |entries|
      ensures Placed(written, [h] + choice, k + 1, c) <==> Placed(Mark(written, h), choice, k, c)
    {
      PlacedNext(written, h, choice, k, c);
    }
  }

  lemma ChosenNext(line: string, ls: seq<string>, entries: seq<Pair>, written: seq<bool>, h: Option<nat>, choice: Choice)
    requires |written| == |entries| && Chosen(ls, entries, Mark(written, h), choice)
    requires Right(line, entries, written, [h], 0)
    ensures Chosen([line] + ls, entries, written, [h] + choice)
  {
    forall k | 0 <= k <= |ls|
      ensures Right(([line] + ls)[k], entries, written, [h] + choice, k)
    {
      if k == 0 {
        assert ([h] + choice)[..0] == [h][..0];
      } else {
        RightNext(ls[k - 1], entries, written, h, choice, k - 1);
      }
    }
  }

  /** What the writer does with a line is the right thing. */
  lemma FirstIsRight(line: string, entries: seq<Pair>, written: seq<bool>, h: Option<nat>)
    requires |written| == |entries|
    requires var k := Assigned(line, entries, written); h == if k < |entries| then Some(k) else None
    ensures Right(line, entries, written, [h], 0)
  {
  }

  lemma EditedCons(line: string, ls: seq<string>, h: Option<nat>, choice: Choice, entries: seq<Pair>)
    requires |choice| == |ls|
    ensures Edited([line] + ls, [h] + choice, entries) == Piece(line, h, entries) + Edited(ls, choice, entries)
  {
    assert ([line] + ls)[1..] == ls && ([h] + choice)[1..] == choice;
  }

  lemma {:induction false} RewriteEdits(s: string, entries: seq<Pair>, written: seq<bool>, out: string) returns (choice: Choice)
    requires |written| == |entries| && Rewrite(s, entries, written, out).out.Text?
    ensures Chosen(Lines(s), entries, written, choice)
    ensures Rewrote(Rewrite(s, entries, written, out), Lines(s), entries, written, choice, out)
    decreases |s|
  {
    hide Rewrite, Rewrote, Chosen, Right, Placed, Edited, Piece, Mark, Assigned, Lines;
    if s == "" {
      choice := [];
      NothingRewritten(entries, written, out);
    } else {
      var line := FirstLine(s);
      var k := Assigned(line, entries, written);
      var h: Option<nat> := if k < |entries| then Some(k) else None;
      FirstIsRight(line, entries, written, h);
      LineGoesOut(s, entries, written, out, h);
      MarkLength(written, h);
      var tail := RewriteEdits(SkipLine(s), entries, Mark(written, h), out + Piece(line, h, entries));
      ChosenNext(line, Lines(SkipLine(s)), entries, written, h, tail);
      LinesCons(s);
      choice := [h] + tail;
      RewroteNext(Rewrite(s, entries, written, out), line, Lines(SkipLine(s)), entries, written, h, tail, out);
    }
  }

  lemma MarkLength(written: seq<bool>, h: Option<nat>)
    ensures |Mark(written, h)| == |written|
  {
  }

  /** The edited lines were put out, and the entries marked that were placed. */
  ghost predicate Rewrote(r: Rewriting, ls: seq<string>, entries: seq<Pair>, written: seq<bool>, choice: Choice, out: string) {
    && |r.written| == |written| == |entries| && |choice| == |ls|
    && r.out == Text(out + Edited(ls, choice, entries))
    && forall c | 0 <= c < |entries| :: r.written[c] <==> Placed(written, choice, |choice|, c)
  }

  lemma NothingRewritten(entries: seq<Pair>, written: seq<bool>, out: string)
    requires |written| == |entries|
    ensures Chosen(Lines(""), entries, written, [])
    ensures Rewrote(Rewrite("", entries, written, out), Lines(""), entries, written, [], out)
  {
    assert out + "" == out;
  }

  lemma RewroteNext(r: Rewriting, line: string, ls: seq<string>, entries: seq<Pair>, written: seq<bool>, h: Option<nat>,
                    choice: Choice, out: string)
    requires |written| == |entries| && Rewrote(r, ls, entries, Mark(written, h), choice, out + Piece(line, h, entries))
    ensures Rewrote(r, [line] + ls, entries, written, [h] + choice, out)
  {
    EditedCons(line, ls, h, choice, entries);
    hide Edited, Piece, Placed, Mark;
    var p, e := Piece(line, h, entries), Edited(ls, choice, entries);
    assert (out + p) + e == out + (p + e);
    forall c | 0 <= c < |entries|
      ensures r.written[c] <==> Placed(written, [h] + choice, |choice| + 1, c)
    {
      PlacedNext(written, h, choice, |choice|, c);
    }
  }

  lemma LinesCons(s: string)
    requires s != ""
    ensures Lines(s) == [FirstLine(s)] + Lines(SkipLine(s))
  {
  }

  lemma LineGoesOut(s: string, entries: seq<Pair>, written: seq<bool>, out: string, h: Option<nat>)
    requires s != "" && |written| == |entries| && Rewrite(s, entries, written, out).out.Text?
    requires var k := Assigned(FirstLine(s), entries, written); h == if k < |entries| then Some(k) else None
    ensures Rewrite(s, entries, written, out) ==
            Rewrite(SkipLine(s), entries, Mark(written, h), out + Piece(FirstLine(s), h, entries))
  {
    hide NameOn, AssignmentText, Assigned;
    assert out + (FirstLine(s) + "\n") == out + FirstLine(s) + "\n";
  }

  // ----- what is added below -----

  /** The assignments that have no place in the file yet, in the order they were given. */
  function Answers(entries: seq<Pair>, written: seq<bool>, i: nat): string
    requires |written| == |entries| && i <= |entries|
    decreases |entries| - i
  {
    if i == |entries| then ""
    else (if written[i] then "" else AssignmentText(entries[i])) + Answers(entries, written, i + 1)
  }

  /** The text so far, with the heading if it is not there yet. */
  function Headed(out: string, heading: bool): string {
    if heading then out else out + Heading(out)
  }

  lemma RestNext(entries: seq<Pair>, written: seq<bool>, i: nat, heading: bool, out: string)
    requires |written| == |entries| && i < |entries| && AppendRest(entries, written, i, heading, out).Text?
    ensures AppendRest(entries, written, i, heading, out) ==
            if written[i] then AppendRest(entries, written, i + 1, heading, out)
            else AppendRest(entries, written, i + 1, true, Headed(out, heading) + AssignmentText(entries[i]))
  {
    hide FormFor, AssignmentText, Heading;
  }

  lemma AssignmentNotEmpty(e: Pair)
    ensures AssignmentText(e) != ""
  {
    hide ValueText;
  }

  lemma AnswersNext(entries: seq<Pair>, written: seq<bool>, i: nat)
    requires |written| == |entries| && i < |entries|
    ensures Answers(entries, written, i) ==
            if written[i] then Answers(entries, written, i + 1) else AssignmentText(entries[i]) + Answers(entries, written, i + 1)
  {
    hide AssignmentText;
  }

  lemma Appended(out: string, a: string, added: string)
    ensures (out + a) + added == out + (a + added)
  {
  }

  /** Below the heading. */
  lemma {:induction false} RestHeaded(entries: seq<Pair>, written: seq<bool>, i: nat, out: string)
    requires |written| == |entries| && i <= |entries| && AppendRest(entries, written, i, true, out).Text?
    ensures AppendRest(entries, written, i, true, out).text == out + Answers(entries, written, i)
    decreases |entries| - i
  {
    hide AppendRest, AssignmentText, Answers;
    if i < |entries| {
      RestNext(entries, written, i, true, out);
      AnswersNext(entries, written, i);
      if written[i] {
        RestHeaded(entries, written, i + 1, out);
      } else {
        RestHeaded(entries, written, i + 1, out + AssignmentText(entries[i]));
        Appended(out, AssignmentText(entries[i]), Answers(entries, written, i + 1));
      }
    } else {
      RestEnds(entries, written, true, out);
    }
  }

  lemma RestEnds(entries: seq<Pair>, written: seq<bool>, heading: bool, out: string)
    requires |written| == |entries|
    ensures AppendRest(entries, written, |entries|, heading, out) == Text(out) && Answers(entries, written, |entries|) == ""
    ensures out + "" == out
  {
  }

  lemma {:induction false} RestIs(entries: seq<Pair>, written: seq<bool>, i: nat, out: string)
    requires |written| == |entries| && i <= |entries| && AppendRest(entries, written, i, false, out).Text?
    ensures var added := Answers(entries, written, i);
            AppendRest(entries, written, i, false, out).text == if added == "" then out else out + (Heading(out) + added)
    decreases |entries| - i
  {
    hide AppendRest, AssignmentText, Answers, Heading;
    if i < |entries| {
      RestNext(entries, written, i, false, out);
      AnswersNext(entries, written, i);
      if written[i] {
        RestIs(entries, written, i + 1, out);
      } else {
        var a, added := AssignmentText(entries[i]), Answers(entries, written, i + 1);
        AssignmentNotEmpty(entries[i]);
        RestHeaded(entries, written, i + 1, (out + Heading(out)) + a);
        Appended(out + Heading(out), a, added);
        Appended(out, Heading(out), a + added);
      }
    } else {
      RestEnds(entries, written, false, out);
    }
  }

  /** What stands in the new file below the edited lines. */
  function Below(edited: string, answers: string): string {
    if answers == "" then ""
    else (if edited == "" then "" else "\n") + "# written by the setup command\n" + answers
  }

  lemma BelowIs(edited: string, answers: string)
    ensures edited + Below(edited, answers) == if answers == "" then edited else edited + (Heading(edited) + answers)
  {
    assert "# written by the setup command\n" == "#" + HeadingText + "\n";
    if edited == "" {
      assert "" + "# written by the setup command\n" == "# written by the setup command\n";
    }
  }

  /**
   * The whole of a write: the lines of the existing file in their order, each as it stands or, at the first line that
   * assigns the name, replaced by an entry, which happens to an entry at most once; and below a heading the entries that
   * had no line, in their order. So every entry is in the file once more and every other line is untouched.
   */
  lemma EditsInPlace(existing: string, entries: seq<Pair>) returns (choice: Choice)
    requires Write(existing, entries).Text?
    ensures Chosen(Lines(existing), entries, seq(|entries|, _ => false), choice)
    ensures var edited := Edited(Lines(existing), choice, entries);
            Write(existing, entries).text ==
              edited + Below(edited, Answers(entries, seq(|entries|, c => Some(c) in choice), 0))
  {
    var none := seq(|entries|, _ => false);
    choice := RewriteEdits(existing, entries, none, "");
    var r := Rewrite(existing, entries, none, "");
    var placed := seq(|entries|, c => Some(c) in choice);
    var edited := Edited(Lines(existing), choice, entries);
    MarksAre(r, Lines(existing), entries, choice);
    hide Edited, Lines, Answers, Rewrite, AppendRest, Chosen, Rewrote, Below, Heading;
    RestIs(entries, placed, 0, edited);
    BelowIs(edited, Answers(entries, placed, 0));
  }

  lemma MarksAre(r: Rewriting, ls: seq<string>, entries: seq<Pair>, choice: Choice)
    requires Rewrote(r, ls, entries, seq(|entries|, _ => false), choice, "")
    ensures |choice| == |ls| && r.out == Text(Edited(ls, choice, entries))
    ensures r.written == seq(|entries|, c => Some(c) in choice)
  {
    var none := seq(|entries|, _ => false);
    assert choice[..|choice|] == choice;
    forall c | 0 <= c < |entries|
      ensures r.written[c] == (Some(c) in choice)
    {
      assert r.written[c] <==> Placed(none, choice, |choice|, c);
    }
    assert "" + Edited(ls, choice, entries) == Edited(ls, choice, entries);
  }

  /** A comment or an empty line is never taken for an assignment, so it always stays. */
  lemma CommentStays(blanks: string, text: string)
    requires forall i | 0 <= i < |blanks| :: Blank(blanks[i])
    ensures NameOn(blanks + ("#" + text)) == None && NameOn(blanks) == None
  {
    BlanksSkipped(blanks, "#" + text);
    BlanksSkipped(blanks, "");
    assert blanks + "" == blanks;
  }
}
