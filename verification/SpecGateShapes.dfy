/** Which lines hold a spec back, told from their shape. */
module SpecGateShapes {
  import opened Base
  import opened Text
  import opened Words
  import opened SpecFixes
  import opened Lines
  import opened SpecGate
  import opened SpecGateRuns

  /** `x` stands for itself in `v`, in any letter case. */
  ghost predicate WordIn(v: string, a: string, x: string, b: string) {
    v == a + (x + b) && SameButCase(x, "TBD") && (a == "" || IsSpace(a[|a| - 1])) && (b == "" || !IsWord(b[0]))
  }

  ghost predicate PartIn(v: string, a: string, x: string, b: string) {
    v == a + (x + b) && SameButCase(x, "placeholder")
  }

  /** TBD as a word, at the start or after whitespace, or placeholder anywhere. */
  ghost predicate Unsettled(v: string) {
    (exists a, x, b :: WordIn(v, a, x, b)) || exists a, x, b :: PartIn(v, a, x, b)
  }

  lemma {:induction false} Cut(v: string, i: nat, j: nat)
    requires i <= j <= |v|
    ensures v == v[..i] + (v[i..j] + v[j..])
  {
  }

  lemma {:induction false} PieceOf(a: string, x: string, b: string)
    ensures (a + (x + b))[|a|..|a| + |x|] == x
  {
  }

  lemma {:induction false} FoldedAt(v: string, word: string, i: nat)
    requires i + |word| <= |v| && Upper(word) == word
    ensures OccursAt(Upper(v), word, i) <==> SameButCase(v[i..i + |word|], word)
  {
    assert Upper(v)[i..i + |word|] == Upper(v[i..i + |word|]);
    UpperFoldsCase(v[i..i + |word|], word);
  }

  lemma {:induction false} LargeWords()
    ensures Upper("TBD") == "TBD" && Upper("PLACEHOLDER") == "PLACEHOLDER" && Upper("placeholder") == "PLACEHOLDER"
  {
  }

  lemma {:induction false} TbdIsWord(v: string, i: nat)
    requires i + 3 <= |v|
    ensures TbdAt(v, i) <==> WordIn(v, v[..i], v[i..i + 3], v[i + 3..])
  {
    LargeWords();
    FoldedAt(v, "TBD", i);
    Cut(v, i, i + 3);
  }

  lemma {:induction false} TbdExactly(v: string)
    ensures (exists i :: 0 <= i <= |v| && TbdAt(v, i)) <==> exists a, x, b :: WordIn(v, a, x, b)
  {
    if i :| 0 <= i <= |v| && TbdAt(v, i) {
      assert |Upper(v)| == |v|;
      TbdIsWord(v, i);
    }
    if a, x, b :| WordIn(v, a, x, b) {
      PieceOf(a, x, b);
      assert v[..|a|] == a && v[|a| + 3..] == b && |x| == 3;
      TbdIsWord(v, |a|);
    }
  }

  lemma {:induction false} PlaceholderIsPart(v: string, i: nat)
    requires i + 11 <= |v|
    ensures OccursAt(Upper(v), "PLACEHOLDER", i) <==> PartIn(v, v[..i], v[i..i + 11], v[i + 11..])
  {
    LargeWords();
    FoldedAt(v, "PLACEHOLDER", i);
    UpperFoldsCase(v[i..i + 11], "PLACEHOLDER");
    UpperFoldsCase(v[i..i + 11], "placeholder");
    Cut(v, i, i + 11);
  }

  lemma {:induction false} PartIsFound(v: string, a: string, x: string, b: string)
    requires PartIn(v, a, x, b)
    ensures Contains(Upper(v), "PLACEHOLDER")
  {
    PieceOf(a, x, b);
    assert v[..|a|] == a && |x| == 11 && v[|a| + 11..] == b;
    PlaceholderIsPart(v, |a|);
    assert 0 <= |a| <= |Upper(v)| && OccursAt(Upper(v), "PLACEHOLDER", |a|);
  }

  lemma {:induction false} PlaceholderExactly(v: string)
    ensures Contains(Upper(v), "PLACEHOLDER") <==> exists a, x, b :: PartIn(v, a, x, b)
  {
    if Contains(Upper(v), "PLACEHOLDER") {
      var i :| 0 <= i <= |Upper(v)| && OccursAt(Upper(v), "PLACEHOLDER", i);
      PlaceholderIsPart(v, i);
    } else if a, x, b :| PartIn(v, a, x, b) {
      PartIsFound(v, a, x, b);
    }
  }

  /** A value is tentative exactly when it has the word TBD, or a placeholder. */
  lemma {:induction false} TentativeExactly(v: string)
    ensures Tentative(v) <==> Unsettled(v)
  {
    TbdExactly(v);
    PlaceholderExactly(v);
  }

  // ---------------------------------------------------------------------
  // Bullets

  predicate EnvelopeTag(tag: string) {
    SameButCase(tag, "**Priority:**") || SameButCase(tag, "**Effort:**") || SameButCase(tag, "**Status:**")
  }

  /** The line, trimmed, is a dash, the tag of an envelope field in any letter case, and
      a value that is not settled. */
  ghost predicate UnsettledBullet(t: string, gap: string, tag: string, rest: string) {
    AllSpace(gap) && EnvelopeTag(tag) && t == "-" + (gap + (tag + rest)) && Trim(rest) != "" && Unsettled(Trim(rest))
  }

  lemma {:induction false} TagFolds(u: string, field: string, tag: string, rest: string)
    requires u == tag + rest && |tag| == |Tag(field)|
    ensures StartsFolded(u, Tag(field)) <==> SameButCase(tag, Tag(field))
    ensures u[|tag|..] == rest
  {
    assert u[..|tag|] == tag;
    UpperFoldsCase(tag, Tag(field));
  }

  lemma {:induction false} TagsAre()
    ensures Tag("Priority") == "**Priority:**" && Tag("Effort") == "**Effort:**" && Tag("Status") == "**Status:**"
  {
  }

  /** What stands behind an envelope tag. */
  lemma {:induction false} AfterTagExactly(u: string, rest: string)
    ensures AfterTag(u) == Some(rest) <==> exists tag :: EnvelopeTag(tag) && u == tag + rest
  {
    TagsAre();
    if AfterTag(u) == Some(rest) {
      var n := |u| - |rest|;
      assert u == u[..n] + rest;
      UpperFoldsCase(u[..n], u[..n]);
      if StartsFolded(u, Tag("Priority")) {
        TagFolds(u, "Priority", u[..13], u[13..]);
      } else if StartsFolded(u, Tag("Effort")) {
        TagFolds(u, "Effort", u[..11], u[11..]);
      } else {
        TagFolds(u, "Status", u[..11], u[11..]);
      }
    }
    forall tag | EnvelopeTag(tag) && u == tag + rest ensures AfterTag(u) == Some(rest) {
      TagIsRead(u, tag, rest);
    }
  }

  lemma {:induction false} TagIsRead(u: string, tag: string, rest: string)
    requires EnvelopeTag(tag) && u == tag + rest
    ensures AfterTag(u) == Some(rest)
  {
    TagsAre();
    if SameButCase(tag, Tag("Priority")) {
      TagFolds(u, "Priority", tag, rest);
    } else if SameButCase(tag, Tag("Effort")) {
      TagFolds(u, "Effort", tag, rest);
      OtherTag(u, Tag("Effort"), Tag("Priority"), 2);
    } else {
      TagFolds(u, "Status", tag, rest);
      OtherTag(u, Tag("Status"), Tag("Priority"), 2);
      OtherTag(u, Tag("Status"), Tag("Effort"), 2);
    }
  }

  lemma {:induction false} TagStar(tag: string)
    requires EnvelopeTag(tag)
    ensures tag != "" && tag[0] == '*'
  {
  }

  /** A line is flagged exactly when it is such a bullet. */
  lemma {:induction false} FlagExactly(line: string)
    ensures Flag(line) == 1 <==> exists gap, tag, rest :: UnsettledBullet(Trim(line), gap, tag, rest)
  {
    var t := Trim(line);
    if Flag(line) == 1 {
      var gap := TrimStartSplits(t[1..]);
      var u := TrimStart(t[1..]);
      var rest := AfterTag(u).value;
      AfterTagExactly(u, rest);
      var tag :| EnvelopeTag(tag) && u == tag + rest;
      TentativeExactly(Trim(rest));
      assert t == "-" + t[1..];
      assert UnsettledBullet(t, gap, tag, rest);
    }
    forall gap, tag, rest | UnsettledBullet(t, gap, tag, rest) ensures Flag(line) == 1 {
      TagStar(tag);
      assert t[1..] == gap + (tag + rest);
      TrimStartDrops(gap, tag + rest);
      AfterTagExactly(tag + rest, rest);
      TentativeExactly(Trim(rest));
    }
  }

  lemma {:induction false} SomeFlag(lines: seq<string>)
    ensures Flags(lines) > 0 <==> exists k :: 0 <= k < |lines| && Flag(lines[k]) == 1
  {
    if lines != [] {
      SomeFlag(lines[1..]);
      if Flag(lines[0]) == 0 && Flags(lines[1..]) > 0 {
        var k :| 0 <= k < |lines[1..]| && Flag(lines[1..][k]) == 1;
        assert Flag(lines[k + 1]) == 1;
      }
      if k :| 0 <= k < |lines| && Flag(lines[k]) == 1 {
        if k > 0 {
          assert Flag(lines[1..][k - 1]) == 1;
        }
      }
    }
  }

  /** A spec whose bullets end on their lines is held back exactly when it holds the
      marker, or the bullet of an envelope field with a value that is not settled. */
  lemma {:induction false} HeldBackExactly(content: string)
    requires ClosedLines(SplitLines(content)) && content != ""
    ensures
      var lines := SplitLines(content);
      HasUnresolvedRepairMarkers(content) <==>
        Contains(content, "(repair placeholder)") ||
        exists k, gap, tag, rest :: 0 <= k < |lines| && UnsettledBullet(Trim(lines[k]), gap, tag, rest)
  {
    var lines := SplitLines(content);
    UnfinishedByLine(content);
    SomeFlag(lines);
    forall k | 0 <= k < |lines|
      ensures Flag(lines[k]) == 1 <==> exists gap, tag, rest :: UnsettledBullet(Trim(lines[k]), gap, tag, rest)
    {
      FlagExactly(lines[k]);
    }
  }
}
