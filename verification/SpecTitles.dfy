/** What the fix of a title does to it: an id, a colon and the rest, with the words that
    the submitter wrote, so that the repair guard takes it for the same title. */
module SpecTitles {
  import opened Base
  import opened Text
  import opened Words
  import opened SpecFixes
  import RepairGuard
  import RepairMeaning

  lemma {:induction false} WordEndBetween(keep: char -> bool, a: string, mark: string, b: string, i: nat)
    requires i <= |a| && mark != "" && !keep(mark[0])
    ensures WordEnd(keep, a + (mark + b), i) == WordEnd(keep, a, i)
    decreases |a| - i
  {
    if i < |a| && keep(a[i]) {
      WordEndBetween(keep, a, mark, b, i + 1);
    }
  }

  /** The words of two texts with a mark between them. */
  lemma {:induction false} WordsBetween(keep: char -> bool, a: string, mark: string, b: string, i: nat)
    requires i <= |a| && mark != "" && forall k :: 0 <= k < |mark| ==> !keep(mark[k])
    ensures WordsFrom(keep, a + (mark + b), i) == WordsFrom(keep, a, i) + WordsOf(keep, b)
    decreases |a| - i
  {
    var s := a + (mark + b);
    if i == |a| {
      WordsPast(keep, a, mark + b, 0);
      WordsAfter(keep, mark, b);
    } else if !keep(a[i]) {
      WordsBetween(keep, a, mark, b, i + 1);
    } else {
      var e := WordEnd(keep, a, i + 1);
      WordEndBetween(keep, a, mark, b, i + 1);
      WordsBetween(keep, a, mark, b, e);
      assert s[i..e] == a[i..e];
    }
  }

  predicate NoWords(s: string) {
    forall k :: 0 <= k < |s| ==> !LetterOrDigit(s[k])
  }

  lemma {:induction false} SpaceHasNoWords(s: string)
    requires AllSpace(s)
    ensures NoWords(s)
  {
  }

  /** A title made of an id and a rest has their words, whatever marks it is put
      together with. */
  lemma {:induction false} TitleWords(pre: string, id: string, mark: string, rest: string)
    requires NoWords(pre) && mark != "" && NoWords(mark)
    ensures WordsOf(LetterOrDigit, pre + (id + (mark + rest))) == WordsOf(LetterOrDigit, id) + WordsOf(LetterOrDigit, rest)
  {
    WordsAfter(LetterOrDigit, pre, id + (mark + rest));
    WordsBetween(LetterOrDigit, id, mark, rest, 0);
  }

  lemma {:induction false} SpacesPiece(t: string, i: nat) returns (ws: string)
    requires i <= |t|
    ensures ws == t[i..SpacesEnd(t, i)] && AllSpace(ws)
  {
    SpacesEndSkipsSpaces(t, i);
    ws := t[i..SpacesEnd(t, i)];
  }

  lemma {:induction false} BlankAfterId(t: string, i: nat)
    requires i <= |t| && HeadingIdEnd(t, i) > i
    ensures HeadingIdEnd(t, i) < |t| && IsSpace(t[HeadingIdEnd(t, i)])
  {
  }

  /** A trimmed title that the fix applies to, in its four parts. */
  lemma {:induction false} TitleParts(t: string) returns (pre: string, id: string, mark: string, rest: string)
    requires StartsWith(t, "# ") && TitleStart(t) < |t|
    ensures t == pre + (id + (mark + rest)) && NoWords(pre) && mark != "" && NoWords(mark)
    ensures id == t[SpacesEnd(t, 1)..HeadingIdEnd(t, SpacesEnd(t, 1))] && rest == t[TitleStart(t)..]
  {
    var i := SpacesEnd(t, 1);
    var e := HeadingIdEnd(t, i);
    var p := SpacesEnd(t, e);
    var before := SpacesPiece(t, 1);
    mark := SpacesPiece(t, e);
    BlankAfterId(t, i);
    pre, id, rest := t[..i], t[i..e], t[p..];
    assert pre == "#" + before by { assert t[0] == '#'; }
    SpaceHasNoWords(before);
    SpaceHasNoWords(mark);
    assert t == pre + (id + (mark + rest));
  }

  lemma {:induction false} SameAfterTrim(line: string)
    ensures WordsOf(LetterOrDigit, line) == WordsOf(LetterOrDigit, Trim(line))
  {
    var before := TrimStartSplits(line);
    var after := TrimEndSplits(TrimStart(line));
    SpaceHasNoWords(before);
    SpaceHasNoWords(after);
    WordsAfter(LetterOrDigit, before, TrimStart(line));
    WordsOfPrefix(LetterOrDigit, Trim(line), after, 0);
  }

  lemma {:induction false} SameWordsThemselves(words: seq<string>)
    ensures SameWords(words, words)
  {
  }

  /** Put together again with a colon, the parts have the words that they had. */
  lemma {:induction false} JoinedAgain(raw: string, pre: string, id: string, mark: string, rest: string)
    requires Trim(raw) == pre + (id + (mark + rest)) && NoWords(pre) && mark != "" && NoWords(mark)
    ensures RepairMeaning.SameTitle("# " + (id + (": " + rest)), raw)
  {
    TitleWords(pre, id, mark, rest);
    TitleWords("# ", id, ": ", rest);
    SameAfterTrim(raw);
    SameWordsThemselves(WordsOf(LetterOrDigit, raw));
  }

  /** The fix replaces the first title by one with the same words: the id, a colon, and
      the rest. */
  lemma {:induction false} SeparatorKeepsTitle(lines: seq<string>) returns (id: string, rest: string)
    requires FixH1Separator(lines).Some?
    ensures
      var k, line := FindH1(lines, 0), "# " + (id + (": " + rest));
      && k < |lines| && FixH1Separator(lines).value == lines[..k] + [line] + lines[k + 1..]
      && RepairMeaning.SameTitle(line, lines[k]) && id != "" && rest != ""
  {
    var k := FindH1(lines, 0);
    var pre, mark;
    pre, id, mark, rest := TitleParts(Trim(lines[k]));
    JoinedAgain(lines[k], pre, id, mark, rest);
    assert "# " + id + ": " + rest == "# " + (id + (": " + rest));
  }

  // ---------------------------------------------------------------------
  // Where the fix applies

  predicate AllDigits(s: string) {
    s != "" && forall k :: 0 <= k < |s| ==> '0' <= s[k] <= '9'
  }

  /** `TASK-` and digits. */
  ghost predicate PlainTask(id: string) {
    exists digits :: AllDigits(digits) && id == "TASK-" + digits
  }

  /** The same with a dash and a capital letter behind it. */
  ghost predicate LetteredTask(id: string) {
    exists digits, c :: AllDigits(digits) && 'A' <= c <= 'Z' && id == "TASK-" + digits + ['-', c]
  }

  ghost predicate Remediation(id: string) {
    exists digits :: AllDigits(digits) && |digits| == 3 && id == "SAURUS-REM-" + digits
  }

  ghost predicate TitleId(id: string) {
    PlainTask(id) || LetteredTask(id) || Remediation(id)
  }

  lemma {:induction false} DigitsFrom(t: string, i: nat, digits: string)
    requires AllDigits(digits) && i + |digits| <= |t| && t[i..i + |digits|] == digits
    requires i + |digits| < |t| ==> !IsDigit(t[i + |digits|])
    ensures DigitsEnd(t, i) == i + |digits|
  {
    assert forall k :: i <= k < i + |digits| ==> t[k] == digits[k - i];
    DigitRun(t, i, i + |digits|);
  }

  lemma {:induction false} DigitsRead(t: string, i: nat)
    requires i <= |t| && i < DigitsEnd(t, i)
    ensures AllDigits(t[i..DigitsEnd(t, i)])
  {
    DigitRun(t, i, DigitsEnd(t, i));
  }

  lemma {:induction false} PlainIsRead(t: string, i: nat, e: nat, digits: string)
    requires i <= e < |t| && t[i..e] == "TASK-" + digits && AllDigits(digits) && IsSpace(t[e])
    ensures HeadingIdEnd(t, i) == e
  {
    assert t[i..i + 5] == t[i..e][..5] == "TASK-";
    assert t[i + 5..e] == t[i..e][5..] == digits;
    DigitsFrom(t, i + 5, digits);
  }

  lemma {:induction false} PieceOfPiece(t: string, i: nat, e: nat, a: nat, b: nat)
    requires i <= e <= |t| && a <= b <= e - i
    ensures t[i..e][a..b] == t[i + a..i + b]
  {
    var s := t[i..e];
    var x, y := s[a..b], t[i + a..i + b];
    forall k | 0 <= k < |x| ensures x[k] == y[k] {
      assert x[k] == s[a + k] && y[k] == t[i + a + k];
    }
  }

  lemma {:induction false} LetteredPieces(id: string, digits: string, c: char)
    requires id == "TASK-" + digits + ['-', c]
    ensures |id| == 7 + |digits| && id[..5] == "TASK-" && id[5..5 + |digits|] == digits
    ensures id[5 + |digits|] == '-' && id[6 + |digits|] == c
  {
  }

  lemma {:induction false} LetteredIsRead(t: string, i: nat, e: nat, digits: string, c: char)
    requires i <= e < |t| && t[i..e] == "TASK-" + digits + ['-', c] && AllDigits(digits) && 'A' <= c <= 'Z'
    requires IsSpace(t[e])
    ensures HeadingIdEnd(t, i) == e
  {
    var d := i + 5 + |digits|;
    LetteredPieces(t[i..e], digits, c);
    PieceOfPiece(t, i, e, 0, 5);
    PieceOfPiece(t, i, e, 5, 5 + |digits|);
    assert t[d] == t[i..e][5 + |digits|] && t[d + 1] == t[i..e][6 + |digits|];
    DigitsFrom(t, i + 5, digits);
  }

  lemma {:induction false} RemediationIsRead(t: string, i: nat, e: nat, digits: string)
    requires i <= e < |t| && t[i..e] == "SAURUS-REM-" + digits && AllDigits(digits) && |digits| == 3 && IsSpace(t[e])
    ensures HeadingIdEnd(t, i) == e
  {
    assert t[i..i + 11] == t[i..e][..11] == "SAURUS-REM-";
    assert t[i + 11..e] == t[i..e][11..] == digits;
    assert t[i] == 'S' && !OccursAt(t, "TASK-", i) by { assert t[i..i + 5][0] == 'S' && "TASK-"[0] == 'T'; }
    DigitsFrom(t, i + 11, digits);
  }

  lemma {:induction false} ReadIsId(t: string, i: nat)
    requires i <= |t| && HeadingIdEnd(t, i) > i
    ensures TitleId(t[i..HeadingIdEnd(t, i)])
  {
    var e := HeadingIdEnd(t, i);
    if OccursAt(t, "TASK-", i) {
      var d := DigitsEnd(t, i + 5);
      DigitsRead(t, i + 5);
      if e == d {
        assert t[i..e] == "TASK-" + t[i + 5..d];
      } else {
        assert t[i..e] == "TASK-" + t[i + 5..d] + ['-', t[d + 1]];
      }
    } else {
      DigitRun(t, i + 11, DigitsEnd(t, i + 11));
      assert t[i..e] == "SAURUS-REM-" + t[i + 11..e];
      assert AllDigits(t[i + 11..e]);
    }
  }

  /** An id stands at a place and whitespace behind it. */
  lemma {:induction false} IdEndExactly(t: string, i: nat, e: nat)
    requires i < e <= |t|
    ensures HeadingIdEnd(t, i) == e <==> TitleId(t[i..e]) && e < |t| && IsSpace(t[e])
  {
    if HeadingIdEnd(t, i) == e {
      ReadIsId(t, i);
      BlankAfterId(t, i);
    } else if TitleId(t[i..e]) && e < |t| && IsSpace(t[e]) {
      if PlainTask(t[i..e]) {
        var digits :| AllDigits(digits) && t[i..e] == "TASK-" + digits;
        PlainIsRead(t, i, e, digits);
      } else if LetteredTask(t[i..e]) {
        var digits, c :| AllDigits(digits) && 'A' <= c <= 'Z' && t[i..e] == "TASK-" + digits + ['-', c];
        LetteredIsRead(t, i, e, digits, c);
      } else {
        var digits :| AllDigits(digits) && |digits| == 3 && t[i..e] == "SAURUS-REM-" + digits;
        RemediationIsRead(t, i, e, digits);
      }
    }
  }

  predicate SeparatorChar(c: char) {
    c == ':' || c == '\U{2014}' || c == '\U{2013}' || c == '-'
  }

  /** A hash, an id, and a title without a separator between them; with more than one
      blank before it the separator may be there. */
  ghost predicate LacksSeparator(t: string, gap: string, id: string, blanks: string, title: string) {
    t == "#" + (gap + (id + (blanks + title))) && gap != "" && AllSpace(gap) && TitleId(id) && blanks != "" &&
    AllSpace(blanks) && title != "" && !IsSpace(title[0]) && NoTerminator(title) &&
    (SeparatorChar(title[0]) ==> |blanks| >= 2 && !IsLineTerminator(blanks[|blanks| - 1]))
  }

  lemma {:induction false} SpacesEndAfter(before: string, ws: string, rest: string)
    requires AllSpace(ws) && (rest == "" || !IsSpace(rest[0]))
    ensures SpacesEnd(before + (ws + rest), |before|) == |before| + |ws|
    decreases |ws|
  {
    var s := before + (ws + rest);
    if ws != "" {
      assert s == (before + ws[..1]) + (ws[1..] + rest);
      SpacesEndAfter(before + ws[..1], ws[1..], rest);
      assert s[|before|] == ws[0];
    } else {
      assert rest != "" ==> s[|before|] == rest[0];
    }
  }

  lemma {:induction false} IdStarts(id: string)
    requires TitleId(id)
    ensures id != "" && (id[0] == 'T' || id[0] == 'S')
  {
  }

  lemma {:induction false} FourPieces(t: string, gap: string, id: string, blanks: string, title: string)
    requires t == "#" + (gap + (id + (blanks + title))) && blanks != ""
    ensures
      var i := 1 + |gap|;
      var e := i + |id|;
      var p := e + |blanks|;
      && |t| == p + |title| && t[i..e] == id && t[e] == blanks[0] && t[p..] == title && t[p - 1] == blanks[|blanks| - 1]
      && t == ("#" + (gap + id)) + (blanks + title)
  {
  }

  lemma {:induction false} LackIsSeen(t: string, gap: string, id: string, blanks: string, title: string)
    requires StartsWith(t, "# ") && LacksSeparator(t, gap, id, blanks, title)
    ensures TitleStart(t) == |t| - |title|
  {
    var i := 1 + |gap|;
    var e := i + |id|;
    FourPieces(t, gap, id, blanks, title);
    IdStarts(id);
    SpacesEndAfter("#", gap, id + (blanks + title));
    IdEndExactly(t, i, e);
    SpacesEndAfter("#" + (gap + id), blanks, title);
  }

  lemma {:induction false} FourCuts(t: string, i: nat, e: nat, p: nat)
    requires 1 <= i <= e <= p <= |t| && t[0] == '#'
    ensures t == "#" + (t[1..i] + (t[i..e] + (t[e..p] + t[p..])))
  {
  }

  lemma {:induction false} SeenIsLack(t: string) returns (gap: string, id: string, blanks: string, title: string)
    requires StartsWith(t, "# ") && TitleStart(t) < |t|
    ensures LacksSeparator(t, gap, id, blanks, title)
  {
    var i := SpacesEnd(t, 1);
    var e := HeadingIdEnd(t, i);
    var p := SpacesEnd(t, e);
    gap := SpacesPiece(t, 1);
    blanks := SpacesPiece(t, e);
    id, title := t[i..e], t[p..];
    ReadIsId(t, i);
    BlankAfterId(t, i);
    FirstNotSpace(t, e);
    assert t[0] == '#' && t[1] == ' ';
    FourCuts(t, i, e, p);
  }

  lemma {:induction false} FirstNotSpace(s: string, i: nat)
    requires i <= |s|
    ensures SpacesEnd(s, i) < |s| ==> !IsSpace(s[SpacesEnd(s, i)])
    decreases |s| - i
  {
    if i < |s| && IsSpace(s[i]) {
      FirstNotSpace(s, i + 1);
    }
  }

  /** The fix applies to the first title exactly when that is an id and a title without
      a separator. */
  lemma {:induction false} SeparatorFixAppliesExactly(lines: seq<string>)
    ensures
      var k := FindH1(lines, 0);
      FixH1Separator(lines).Some? <==>
        k < |lines| && exists gap, id, blanks, title :: LacksSeparator(Trim(lines[k]), gap, id, blanks, title)
  {
    var k := FindH1(lines, 0);
    if k < |lines| {
      var t := Trim(lines[k]);
      if TitleStart(t) < |t| {
        var gap, id, blanks, title := SeenIsLack(t);
      }
      forall gap, id, blanks, title | LacksSeparator(t, gap, id, blanks, title) ensures TitleStart(t) < |t| {
        LackIsSeen(t, gap, id, blanks, title);
      }
    }
  }
}
