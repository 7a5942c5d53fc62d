/** The words of a text: its longest runs of characters of one kind, such as letters
    and digits, or anything but whitespace.  Collapsing everything else to single
    spaces leaves the words and nothing but the words. */
module Words {
  import opened Text

  predicate LetterOrDigit(c: char) { 'a' <= c <= 'z' || 'A' <= c <= 'Z' || '0' <= c <= '9' }

  predicate Ink(c: char) { !IsSpace(c) }

  ghost predicate Visible(keep: char -> bool) {
    forall c :: keep(c) ==> !IsSpace(c)
  }

  function WordEnd(keep: char -> bool, s: string, i: nat): (e: nat)
    requires i <= |s|
    ensures i <= e <= |s|
    decreases |s| - i
  {
    if i < |s| && keep(s[i]) then WordEnd(keep, s, i + 1) else i
  }

  /** The words of `s[i..]`, from left to right. */
  function WordsFrom(keep: char -> bool, s: string, i: nat): seq<string>
    requires i <= |s|
    decreases |s| - i
  {
    if i == |s| then []
    else if !keep(s[i]) then WordsFrom(keep, s, i + 1)
    else [s[i..WordEnd(keep, s, i + 1)]] + WordsFrom(keep, s, WordEnd(keep, s, i + 1))
  }

  function WordsOf(keep: char -> bool, s: string): seq<string> {
    WordsFrom(keep, s, 0)
  }

  function Joined(words: seq<string>): string {
    if words == [] then ""
    else if |words| == 1 then words[0]
    else words[0] + " " + Joined(words[1..])
  }

  predicate Solid(word: string) {
    word != "" && forall i :: 0 <= i < |word| ==> !IsSpace(word[i])
  }

  predicate AllSolid(words: seq<string>) {
    forall i :: 0 <= i < |words| ==> Solid(words[i])
  }

  lemma {:induction false} WordRun(keep: char -> bool, s: string, i: nat)
    requires i <= |s|
    ensures forall k :: i <= k < WordEnd(keep, s, i) ==> keep(s[k])
    ensures WordEnd(keep, s, i) < |s| ==> !keep(s[WordEnd(keep, s, i)])
    decreases |s| - i
  {
    if i < |s| && keep(s[i]) {
      WordRun(keep, s, i + 1);
    }
  }

  lemma {:induction false} WordsAreSolid(keep: char -> bool, s: string, i: nat)
    requires Visible(keep) && i <= |s|
    ensures AllSolid(WordsFrom(keep, s, i))
    decreases |s| - i
  {
    if i < |s| && !keep(s[i]) {
      WordsAreSolid(keep, s, i + 1);
    } else if i < |s| {
      WordRun(keep, s, i + 1);
      WordsAreSolid(keep, s, WordEnd(keep, s, i + 1));
    }
  }

  // ---------------------------------------------------------------------
  // Joined words determine the words

  /** The end of the first word of a text that was joined. */
  function SpaceAt(s: string): nat {
    if s == "" || s[0] == ' ' then 0 else 1 + SpaceAt(s[1..])
  }

  lemma {:induction false} FirstSpace(word: string, rest: string)
    requires (forall i :: 0 <= i < |word| ==> !IsSpace(word[i])) && (rest == "" || rest[0] == ' ')
    ensures SpaceAt(word + rest) == |word|
  {
    if word == "" {
      assert word + rest == rest;
    } else {
      assert (word + rest)[1..] == word[1..] + rest;
      FirstSpace(word[1..], rest);
    }
  }

  function AfterFirst(words: seq<string>): string
    requires words != []
  {
    if |words| == 1 then "" else " " + Joined(words[1..])
  }

  lemma {:induction false} FirstWordEnds(words: seq<string>)
    requires words != [] && AllSolid(words)
    ensures Joined(words) == words[0] + AfterFirst(words) && SpaceAt(Joined(words)) == |words[0]|
    ensures Joined(words) != ""
  {
    FirstSpace(words[0], AfterFirst(words));
    assert Joined(words) == words[0] + AfterFirst(words);
  }

  lemma {:induction false} JoinedDetermines(v: seq<string>, w: seq<string>)
    requires AllSolid(v) && AllSolid(w) && Joined(v) == Joined(w)
    ensures v == w
  {
    if v != [] && w != [] {
      FirstWordEnds(v);
      FirstWordEnds(w);
      assert v[0] == Joined(v)[..|v[0]|] == w[0];
      assert AfterFirst(v) == Joined(v)[|v[0]|..] == AfterFirst(w);
      if |v| > 1 && |w| > 1 {
        assert Joined(v[1..]) == AfterFirst(v)[1..] == Joined(w[1..]);
        JoinedDetermines(v[1..], w[1..]);
        assert v == [v[0]] + v[1..] && w == [w[0]] + w[1..];
      } else {
        assert |v| == 1 && |w| == 1;
      }
    } else if v != [] {
      FirstWordEnds(v);
    } else if w != [] {
      FirstWordEnds(w);
    }
  }

  // ---------------------------------------------------------------------
  // Collapsing what is between the words

  /** Every run of characters that are not kept becomes one space. */
  function Collapse(keep: char -> bool, s: string): string {
    if s == "" then ""
    else if keep(s[0]) then [s[0]] + Collapse(keep, s[1..])
    else if |s| > 1 && !keep(s[1]) then Collapse(keep, s[1..])
    else " " + Collapse(keep, s[1..])
  }

  /** The same of `s[i..]`. */
  function CollapseFrom(keep: char -> bool, s: string, i: nat): string
    requires i <= |s|
    decreases |s| - i
  {
    if i == |s| then ""
    else if keep(s[i]) then [s[i]] + CollapseFrom(keep, s, i + 1)
    else if i + 1 < |s| && !keep(s[i + 1]) then CollapseFrom(keep, s, i + 1)
    else " " + CollapseFrom(keep, s, i + 1)
  }

  lemma {:induction false} CollapseIs(keep: char -> bool, s: string, i: nat)
    requires i <= |s|
    ensures Collapse(keep, s[i..]) == CollapseFrom(keep, s, i)
    decreases |s| - i
  {
    if i < |s| {
      CollapseIs(keep, s, i + 1);
      assert s[i..][1..] == s[i + 1..];
    }
  }

  lemma {:induction false} SliceThen(s: string, i: nat, e: nat, rest: string)
    requires i < e <= |s|
    ensures [s[i]] + (s[i + 1..e] + rest) == s[i..e] + rest
  {
    assert s[i..e] == [s[i]] + s[i + 1..e];
  }

  lemma {:induction false} CollapsesWord(keep: char -> bool, s: string, i: nat, e: nat)
    requires i <= e <= |s| && forall k :: i <= k < e ==> keep(s[k])
    ensures CollapseFrom(keep, s, i) == s[i..e] + CollapseFrom(keep, s, e)
    decreases e - i
  {
    if i < e {
      CollapsesWord(keep, s, i + 1, e);
      SliceThen(s, i, e, CollapseFrom(keep, s, e));
    }
  }

  function Lead(keep: char -> bool, s: string, i: nat): string
    requires i <= |s|
  {
    if i < |s| && !keep(s[i]) then " " else ""
  }

  predicate IsTail(words: seq<string>, post: string) {
    post == "" || (post == " " && words != [])
  }

  lemma {:induction false} CollapsesMark(keep: char -> bool, s: string, i: nat)
    requires i < |s| && !keep(s[i])
    ensures CollapseFrom(keep, s, i) == (if Lead(keep, s, i + 1) == "" then " " else "") + CollapseFrom(keep, s, i + 1)
  {
  }

  /** What is left are the words, separated by single spaces, with at most a space
      before and a space after them. */
  lemma {:induction false} CollapsedShape(keep: char -> bool, s: string, i: nat) returns (post: string)
    requires i <= |s|
    ensures CollapseFrom(keep, s, i) == Lead(keep, s, i) + (Joined(WordsFrom(keep, s, i)) + post)
    ensures IsTail(WordsFrom(keep, s, i), post)
    decreases |s| - i
  {
    post := "";
    if i < |s| {
      if !keep(s[i]) {
        post := CollapsedShape(keep, s, i + 1);
        CollapsesMark(keep, s, i);
        MarkShape(CollapseFrom(keep, s, i + 1), Lead(keep, s, i + 1), Joined(WordsFrom(keep, s, i)) + post);
      } else {
        post := WordShape(keep, s, i);
      }
    }
  }

  lemma {:induction false} MarkShape(collapsed: string, lead: string, rest: string)
    requires (lead == "" || lead == " ") && collapsed == lead + rest
    ensures (if lead == "" then " " else "") + collapsed == " " + rest
  {
  }

  lemma {:induction false} JoinedFirst(word: string, rest: seq<string>)
    ensures Joined([word] + rest) == if rest == [] then word else word + " " + Joined(rest)
  {
    assert ([word] + rest)[1..] == rest;
  }

  /** A word, what follows it, and the tail of the whole. */
  lemma {:induction false} WordThen(word: string, lead: string, rest: seq<string>, after: string) returns (post: string)
    requires (lead == "" || lead == " ") && IsTail(rest, after) && (rest != [] ==> lead == " ")
    ensures word + (lead + (Joined(rest) + after)) == Joined([word] + rest) + post && IsTail([word] + rest, post)
  {
    JoinedFirst(word, rest);
    post := if rest == [] then lead else after;
    if rest != [] {
      assert word + (" " + (Joined(rest) + after)) == (word + " " + Joined(rest)) + after;
    }
  }

  lemma {:induction false} WordShape(keep: char -> bool, s: string, i: nat) returns (post: string)
    requires i < |s| && keep(s[i])
    ensures CollapseFrom(keep, s, i) == Joined(WordsFrom(keep, s, i)) + post
    ensures IsTail(WordsFrom(keep, s, i), post)
    decreases |s| - i, 0
  {
    var e := WordEnd(keep, s, i + 1);
    WordRun(keep, s, i + 1);
    CollapsesWord(keep, s, i, e);
    var after := CollapsedShape(keep, s, e);
    post := WordThen(s[i..e], Lead(keep, s, e), WordsFrom(keep, s, e), after);
  }

  lemma {:induction false} JoinedEnds(words: seq<string>)
    requires words != [] && AllSolid(words)
    ensures Joined(words) != "" && NoSpaceAtEnds(Joined(words))
  {
    if |words| > 1 {
      JoinedEnds(words[1..]);
      assert Joined(words) == words[0] + " " + Joined(words[1..]);
    }
  }

  lemma {:induction false} TrimToWords(words: seq<string>, pre: string, post: string)
    requires AllSolid(words) && (pre == "" || pre == " ") && IsTail(words, post)
    ensures Trim(pre + (Joined(words) + post)) == Joined(words)
  {
    if words != [] {
      JoinedEnds(words);
    }
    TrimIs(pre, Joined(words), post);
    assert pre + (Joined(words) + post) == pre + Joined(words) + post;
  }

  lemma {:induction false} SkipsMarks(keep: char -> bool, s: string, i: nat, j: nat)
    requires i <= j <= |s| && forall k :: i <= k < j ==> !keep(s[k])
    ensures WordsFrom(keep, s, i) == WordsFrom(keep, s, j)
    decreases j - i
  {
    if i < j {
      SkipsMarks(keep, s, i + 1, j);
    }
  }

  lemma {:induction false} WordEndPast(keep: char -> bool, pre: string, s: string, i: nat)
    requires i <= |s|
    ensures WordEnd(keep, pre + s, |pre| + i) == |pre| + WordEnd(keep, s, i)
    decreases |s| - i
  {
    if i < |s| && keep(s[i]) {
      WordEndPast(keep, pre, s, i + 1);
    }
  }

  lemma {:induction false} WordsPast(keep: char -> bool, pre: string, s: string, i: nat)
    requires i <= |s|
    ensures WordsFrom(keep, pre + s, |pre| + i) == WordsFrom(keep, s, i)
    decreases |s| - i
  {
    if i < |s| && !keep(s[i]) {
      WordsPast(keep, pre, s, i + 1);
    } else if i < |s| {
      var e := WordEnd(keep, s, i + 1);
      WordEndPast(keep, pre, s, i + 1);
      WordsPast(keep, pre, s, e);
      assert (pre + s)[|pre| + i..|pre| + e] == s[i..e];
    }
  }

  /** What stands before the words does not matter. */
  lemma {:induction false} WordsAfter(keep: char -> bool, pre: string, s: string)
    requires forall k :: 0 <= k < |pre| ==> !keep(pre[k])
    ensures WordsOf(keep, pre + s) == WordsOf(keep, s)
  {
    SkipsMarks(keep, pre + s, 0, |pre|);
    WordsPast(keep, pre, s, 0);
  }

  lemma {:induction false} WordEndBefore(keep: char -> bool, s: string, post: string, i: nat)
    requires i <= |s| && forall k :: 0 <= k < |post| ==> !keep(post[k])
    ensures WordEnd(keep, s + post, i) == WordEnd(keep, s, i)
    decreases |s| - i
  {
    if i < |s| && keep(s[i]) {
      WordEndBefore(keep, s, post, i + 1);
    }
  }

  lemma {:induction false} WordsOfPrefix(keep: char -> bool, s: string, post: string, i: nat)
    requires i <= |s| && forall k :: 0 <= k < |post| ==> !keep(post[k])
    ensures WordsFrom(keep, s + post, i) == WordsFrom(keep, s, i)
    decreases |s| - i
  {
    if i == |s| {
      SkipsMarks(keep, s + post, i, |s + post|);
    } else if !keep(s[i]) {
      WordsOfPrefix(keep, s, post, i + 1);
    } else {
      var e := WordEnd(keep, s, i + 1);
      WordEndBefore(keep, s, post, i + 1);
      WordsOfPrefix(keep, s, post, e);
      assert (s + post)[i..e] == s[i..e];
    }
  }

  /** Collapsing and trimming leaves the joined words, which determine the words. */
  lemma {:induction false} CollapsedIsWords(keep: char -> bool, s: string)
    requires Visible(keep)
    ensures Trim(Collapse(keep, s)) == Joined(WordsOf(keep, s)) && AllSolid(WordsOf(keep, s))
  {
    WordsAreSolid(keep, s, 0);
    var post := CollapsedShape(keep, s, 0);
    CollapseIs(keep, s, 0);
    assert s[0..] == s;
    TrimToWords(WordsOf(keep, s), Lead(keep, s, 0), post);
  }

  // ---------------------------------------------------------------------
  // Letter case

  predicate SameLetter(c: char, d: char) {
    c == d || ('a' <= c <= 'z' && 'A' <= d <= 'Z' && c as int - 'a' as int == d as int - 'A' as int) ||
    ('A' <= c <= 'Z' && 'a' <= d <= 'z' && c as int - 'A' as int == d as int - 'a' as int)
  }

  /** Equal up to the case of ASCII letters. */
  predicate SameButCase(a: string, b: string) {
    |a| == |b| && forall i :: 0 <= i < |a| ==> SameLetter(a[i], b[i])
  }

  lemma {:induction false} LowerFoldsCase(a: string, b: string)
    ensures SameButCase(a, b) <==> Lower(a) == Lower(b)
  {
    if Lower(a) == Lower(b) {
      assert |a| == |Lower(a)| == |b|;
      forall i | 0 <= i < |a| ensures SameLetter(a[i], b[i]) {
        assert Lower(a)[i] == Lower(b)[i];
      }
    }
  }

  lemma {:induction false} UpperFoldsCase(a: string, b: string)
    ensures SameButCase(a, b) <==> Upper(a) == Upper(b)
  {
    if Upper(a) == Upper(b) {
      assert |a| == |Upper(a)| == |b|;
      forall i | 0 <= i < |a| ensures SameLetter(a[i], b[i]) {
        assert Upper(a)[i] == Upper(b)[i];
      }
    }
  }

  predicate SmallLetters(s: string) {
    forall k :: 0 <= k < |s| ==> !('A' <= s[k] <= 'Z')
  }

  lemma {:induction false} LowerExactly(s: string, low: string)
    ensures Lower(s) == low <==> SmallLetters(low) && SameButCase(s, low)
  {
    LowerFoldsCase(s, low);
    assert SmallLetters(low) ==> Lower(low) == low;
    assert forall k :: 0 <= k < |s| ==> Lower(s)[k] == LowerChar(s[k]);
  }

  predicate SameWords(v: seq<string>, w: seq<string>) {
    |v| == |w| && forall i :: 0 <= i < |v| ==> SameButCase(v[i], w[i])
  }

  function Lowered(words: seq<string>): seq<string> {
    seq(|words|, i requires 0 <= i < |words| => Lower(words[i]))
  }

  lemma {:induction false} SameWordsExactly(v: seq<string>, w: seq<string>)
    ensures SameWords(v, w) <==> Lowered(v) == Lowered(w)
  {
    forall i | 0 <= i < |v| && i < |w| ensures SameButCase(v[i], w[i]) <==> Lower(v[i]) == Lower(w[i]) {
      LowerFoldsCase(v[i], w[i]);
    }
    if Lowered(v) == Lowered(w) {
      assert |v| == |Lowered(v)| == |w|;
      forall i | 0 <= i < |v| ensures SameButCase(v[i], w[i]) {
        assert Lowered(v)[i] == Lowered(w)[i];
      }
    }
  }

  /** `low` keeps a letter in lower case exactly when `keep` keeps it in either. */
  ghost predicate Folds(keep: char -> bool, low: char -> bool) {
    forall c :: low(LowerChar(c)) == keep(c)
  }

  lemma {:induction false} LowerWordEnd(keep: char -> bool, low: char -> bool, s: string, i: nat)
    requires Folds(keep, low) && i <= |s|
    ensures WordEnd(low, Lower(s), i) == WordEnd(keep, s, i)
    decreases |s| - i
  {
    if i < |s| {
      assert Lower(s)[i] == LowerChar(s[i]);
      LowerWordEnd(keep, low, s, i + 1);
    }
  }

  lemma {:induction false} LowerWords(keep: char -> bool, low: char -> bool, s: string, i: nat)
    requires Folds(keep, low) && i <= |s|
    ensures WordsFrom(low, Lower(s), i) == Lowered(WordsFrom(keep, s, i))
    decreases |s| - i
  {
    if i < |s| {
      assert Lower(s)[i] == LowerChar(s[i]);
      if !keep(s[i]) {
        LowerWords(keep, low, s, i + 1);
      } else {
        LowerWordEnd(keep, low, s, i + 1);
        var e := WordEnd(keep, s, i + 1);
        LowerWords(keep, low, s, e);
        assert Lower(s)[i..e] == Lower(s[i..e]);
      }
    }
  }
}
