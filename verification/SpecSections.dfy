/** Which headings the normalizer takes for the Metadata section, told from their words. */
module SpecSections {
  import opened Text
  import opened Words
  import opened SpecFixes
  import RepairGuard
  import RepairMeaning

  /** The words of the heading: two hashes, and `metadata`, alone or before a colon, a
      parenthesis or a dash. */
  predicate MetadataWords(w: seq<string>) {
    |w| >= 2 && w[0] == "##" &&
    ((SameButCase(w[1], "metadata") && (|w| == 2 || (w[2] != "" && (w[2][0] == '(' || w[2][0] == '-')))) ||
     (|w[1]| >= 9 && SameButCase(w[1][..9], "metadata:")))
  }

  /** A text that starts with a word and a space, and goes on. */
  lemma {:induction false} FirstWordIs(w: seq<string>, word: string, rest: string)
    requires AllSolid(w) && Solid(word)
    ensures StartsWith(Joined(w), word + " " + rest) <==>
            |w| > 1 && w[0] == word && StartsWith(Joined(w[1..]), rest)
  {
    if w != [] {
      FirstWordEnds(w);
      if StartsWith(Joined(w), word + " " + rest) {
        var tail := Joined(w)[|word|..];
        assert Joined(w) == word + tail;
        FirstSpace(word, tail);
        assert w[0] == Joined(w)[..|word|] == word;
        assert AfterFirst(w) == tail;
        assert |w| > 1;
        assert Joined(w[1..]) == tail[1..];
        assert (word + " " + rest)[|word| + 1..] == rest;
      }
      if |w| > 1 && w[0] == word && StartsWith(Joined(w[1..]), rest) {
        assert Joined(w) == word + " " + Joined(w[1..]);
      }
    }
  }

  lemma {:induction false} NoSpaceBefore(s: string, p: string)
    requires StartsWith(s, p) && forall k :: 0 <= k < |p| ==> !IsSpace(p[k])
    ensures |p| <= SpaceAt(s)
  {
    if p != "" {
      assert s[0] == p[0];
      NoSpaceBefore(s[1..], p[1..]);
    }
  }

  /** A prefix without a space belongs to the first word. */
  lemma {:induction false} PrefixOfFirst(w: seq<string>, p: string)
    requires AllSolid(w) && Solid(p)
    ensures StartsWith(Joined(w), p) <==> w != [] && StartsWith(w[0], p)
  {
    if w != [] {
      FirstWordEnds(w);
      if StartsWith(Joined(w), p) {
        NoSpaceBefore(Joined(w), p);
      }
    }
  }

  lemma {:induction false} CollapseEnds(s: string)
    requires s != "" && !IsSpace(s[|s| - 1])
    ensures var c := RepairGuard.CollapseSpaces(s); c != "" && c[|c| - 1] == s[|s| - 1]
  {
    if |s| > 1 {
      CollapseEnds(s[1..]);
    }
  }

  lemma {:induction false} CollapseBegins(s: string)
    requires s != "" && !IsSpace(s[0])
    ensures RepairGuard.CollapseSpaces(s) != "" && RepairGuard.CollapseSpaces(s)[0] == s[0]
  {
  }

  lemma {:induction false} LowerKeepsSpaces(s: string)
    ensures forall k :: 0 <= k < |s| ==> (IsSpace(Lower(s)[k]) <==> IsSpace(s[k]))
  {
  }

  lemma {:induction false} CollapsedIsTrimmed(t: string)
    requires NoSpaceAtEnds(t)
    ensures Trim(RepairGuard.CollapseSpaces(t)) == RepairGuard.CollapseSpaces(t)
  {
    if t != "" {
      CollapseBegins(t);
      CollapseEnds(t);
    }
    TrimmedEnds(RepairGuard.CollapseSpaces(t));
  }

  lemma {:induction false} LowerIsTrimmed(t: string)
    requires NoSpaceAtEnds(t)
    ensures NoSpaceAtEnds(Lower(t))
  {
    LowerKeepsSpaces(t);
  }

  /** Collapsing a trimmed text leaves its words, with single spaces between them. */
  lemma {:induction false} TrimmedCollapses(line: string)
    ensures RepairGuard.CollapseSpaces(Lower(Trim(line))) == Joined(Lowered(WordsOf(Ink, line)))
    ensures AllSolid(Lowered(WordsOf(Ink, line)))
  {
    var t := Lower(Trim(line));
    TrimmedEnds(line);
    LowerIsTrimmed(Trim(line));
    CollapsedIsTrimmed(t);
    RepairMeaning.SpacesAreCollapsed(t);
    CollapsedIsWords(Ink, t);
    LowerWords(Ink, Ink, Trim(line), 0);
    InkOfTrimmed(line);
  }

  lemma {:induction false} InkOfTrimmed(line: string)
    ensures WordsOf(Ink, line) == WordsOf(Ink, Trim(line))
  {
    var before := TrimStartSplits(line);
    var after := TrimEndSplits(TrimStart(line));
    WordsAfter(Ink, before, TrimStart(line));
    WordsOfPrefix(Ink, Trim(line), after, 0);
  }

  lemma {:induction false} PiecesOfHeading()
    ensures "## metadata (" == "##" + " " + ("metadata" + " " + "(") && "## metadata:" == "##" + " " + "metadata:"
    ensures "## metadata -" == "##" + " " + ("metadata" + " " + "-") && "## metadata" == "##" + " " + "metadata"
    ensures Solid("##") && Solid("metadata") && Solid("metadata:") && Solid("(") && Solid("-")
  {
  }

  lemma {:induction false} StartsWithChar(s: string, c: char)
    ensures StartsWith(s, [c]) <==> s != "" && s[0] == c
  {
  }

  lemma {:induction false} MetadataText(w: seq<string>)
    requires AllSolid(w)
    ensures
      var t := Joined(w);
      (t == "## metadata" || StartsWith(t, "## metadata (") || StartsWith(t, "## metadata:") ||
       StartsWith(t, "## metadata -")) <==>
        |w| >= 2 && w[0] == "##" &&
        ((w[1] == "metadata" && (|w| == 2 || w[2][0] == '(' || w[2][0] == '-')) || StartsWith(w[1], "metadata:"))
  {
    PiecesOfHeading();
    FirstWordIs(w, "##", "metadata" + " " + "(");
    FirstWordIs(w, "##", "metadata" + " " + "-");
    FirstWordIs(w, "##", "metadata:");
    if |w| >= 2 {
      var v := w[1..];
      assert AllSolid(v);
      FirstWordIs(v, "metadata", "(");
      FirstWordIs(v, "metadata", "-");
      PrefixOfFirst(v, "metadata:");
      if |w| > 2 {
        assert v[1..] == w[2..] && AllSolid(w[2..]);
        PrefixOfFirst(w[2..], "(");
        PrefixOfFirst(w[2..], "-");
        StartsWithChar(w[2], '(');
        StartsWithChar(w[2], '-');
      }
    }
    WholeHeading(w);
  }

  lemma {:induction false} WholeHeading(w: seq<string>)
    requires AllSolid(w)
    ensures Joined(w) == "## metadata" <==> w == ["##", "metadata"]
  {
    var both := ["##", "metadata"];
    PiecesOfHeading();
    assert both[1..] == ["metadata"];
    assert Joined(both) == "##" + " " + Joined(["metadata"]);
    if Joined(w) == "## metadata" {
      JoinedDetermines(w, both);
    }
  }

  /** The normalizer takes a line for the Metadata heading exactly by its words. */
  lemma {:induction false} MetadataHeadingExactly(line: string)
    ensures IsMetadataHeading(line) <==> MetadataWords(WordsOf(Ink, line))
  {
    var w := WordsOf(Ink, line);
    var low := Lowered(w);
    TrimmedCollapses(line);
    MetadataText(low);
    assert |low| == |w|;
    if |w| >= 2 {
      assert low[0] == Lower(w[0]) && low[1] == Lower(w[1]);
      LowerExactly(w[0], "##");
      LowerExactly(w[1], "metadata");
      HashesStay(w[0]);
      PrefixLowered(w[1]);
      if |w| > 2 {
        assert low[2] == Lower(w[2]) && low[2] != "" && low[2][0] == LowerChar(w[2][0]);
      }
    }
  }

  lemma {:induction false} HashesStay(s: string)
    ensures SameButCase(s, "##") <==> s == "##"
  {
    if SameButCase(s, "##") {
      assert "##"[0] == '#' && "##"[1] == '#';
    }
  }

  lemma {:induction false} PrefixLowered(s: string)
    ensures StartsWith(Lower(s), "metadata:") <==> |s| >= 9 && SameButCase(s[..9], "metadata:")
  {
    if |s| >= 9 {
      assert Lower(s)[..9] == Lower(s[..9]);
      LowerExactly(s[..9], "metadata:");
    }
  }
}
