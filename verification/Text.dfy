/** Strings as the repository's code treats them.  Whitespace is what `trim`
    strips and `\s` matches; letter case is mapped for ASCII letters only. */
module Text {

  predicate IsSpace(c: char) {
    '\t' <= c <= '\r' || c == ' ' || c == '\U{00A0}' || c == '\U{1680}' || '\U{2000}' <= c <= '\U{200A}' ||
    c == '\U{2028}' || c == '\U{2029}' || c == '\U{202F}' || c == '\U{205F}' || c == '\U{3000}' || c == '\U{FEFF}'
  }

  /** The code points that ECMAScript takes for whitespace. */
  lemma {:induction false} SpacesExactly(c: char)
    ensures IsSpace(c) <==>
            c as int in {9, 10, 11, 12, 13, 32, 160, 5760, 8192, 8193, 8194, 8195, 8196, 8197, 8198, 8199, 8200, 8201,
                         8202, 8232, 8233, 8239, 8287, 12288, 65279}
  {
  }

  /** What `.` in a regular expression does not match. */
  predicate IsLineTerminator(c: char) {
    c == '\n' || c == '\r' || c == '\U{2028}' || c == '\U{2029}'
  }

  predicate IsDigit(c: char) { '0' <= c <= '9' }

  predicate IsUpper(c: char) { 'A' <= c <= 'Z' }

  predicate IsLower(c: char) { 'a' <= c <= 'z' }

  predicate IsWord(c: char) { IsDigit(c) || IsUpper(c) || IsLower(c) || c == '_' }

  function UpperChar(c: char): char {
    if IsLower(c) then (c as int - 32) as char else c
  }

  function LowerChar(c: char): char {
    if IsUpper(c) then (c as int + 32) as char else c
  }

  function Upper(s: string): string {
    seq(|s|, i requires 0 <= i < |s| => UpperChar(s[i]))
  }

  function Lower(s: string): string {
    seq(|s|, i requires 0 <= i < |s| => LowerChar(s[i]))
  }

  predicate NoSpaceAtEnds(s: string) {
    s == "" || (!IsSpace(s[0]) && !IsSpace(s[|s| - 1]))
  }

  function TrimStart(s: string): (r: string)
    ensures |r| <= |s|
  {
    if s != "" && IsSpace(s[0]) then TrimStart(s[1..]) else s
  }

  function TrimEnd(s: string): string {
    if s != "" && IsSpace(s[|s| - 1]) then TrimEnd(s[..|s| - 1]) else s
  }

  /** `s` without the whitespace at its two ends. */
  function Trim(s: string): string {
    TrimEnd(TrimStart(s))
  }

  lemma {:induction false} TrimStartLemma(s: string)
    ensures TrimStart(s) == "" || !IsSpace(TrimStart(s)[0])
  {
    if s != "" && IsSpace(s[0]) {
      TrimStartLemma(s[1..]);
    }
  }

  lemma {:induction false} TrimEndLemma(s: string)
    ensures TrimEnd(s) <= s
    ensures TrimEnd(s) == "" || !IsSpace(TrimEnd(s)[|TrimEnd(s)| - 1])
  {
    if s != "" && IsSpace(s[|s| - 1]) {
      TrimEndLemma(s[..|s| - 1]);
    }
  }

  lemma {:induction false} TrimmedEnds(s: string)
    ensures NoSpaceAtEnds(Trim(s))
    ensures NoSpaceAtEnds(s) ==> Trim(s) == s
  {
    TrimStartLemma(s);
    TrimEndLemma(TrimStart(s));
  }

  predicate AllSpace(s: string) {
    forall k :: 0 <= k < |s| ==> IsSpace(s[k])
  }

  lemma {:induction false} TrimStartSplits(s: string) returns (ws: string)
    ensures s == ws + TrimStart(s) && AllSpace(ws)
  {
    if s != "" && IsSpace(s[0]) {
      var rest := TrimStartSplits(s[1..]);
      ws := [s[0]] + rest;
    } else {
      ws := "";
    }
  }

  lemma {:induction false} TrimStartDrops(ws: string, s: string)
    requires AllSpace(ws) && (s == "" || !IsSpace(s[0]))
    ensures TrimStart(ws + s) == s
  {
    if ws == "" {
      assert ws + s == s;
    } else {
      assert (ws + s)[1..] == ws[1..] + s && (ws + s)[0] == ws[0];
      assert AllSpace(ws[1..]);
      TrimStartDrops(ws[1..], s);
    }
  }

  lemma {:induction false} TrimEndOfConcat(a: string, b: string)
    requires TrimEnd(b) != ""
    ensures TrimEnd(a + b) == a + TrimEnd(b)
    decreases |b|
  {
    var n := |b| - 1;
    assert (a + b)[|a| + n] == b[n];
    if IsSpace(b[n]) {
      assert (a + b)[..|a| + n] == a + b[..n];
      TrimEndOfConcat(a, b[..n]);
    }
  }

  lemma {:induction false} TrimEndKeepsFirst(s: string)
    requires s != "" && !IsSpace(s[0])
    ensures TrimEnd(s) != "" && TrimEnd(s)[0] == s[0] && TrimStart(s) == s && Trim(s) == TrimEnd(s)
    decreases |s|
  {
    if IsSpace(s[|s| - 1]) {
      TrimEndKeepsFirst(s[..|s| - 1]);
    }
  }

  lemma {:induction false} TrimEndDrops(s: string, ws: string)
    requires AllSpace(ws) && (s == "" || !IsSpace(s[|s| - 1]))
    ensures TrimEnd(s + ws) == s
    decreases |ws|
  {
    if ws == "" {
      assert s + ws == s;
    } else {
      assert (s + ws)[..|s + ws| - 1] == s + ws[..|ws| - 1];
      TrimEndDrops(s, ws[..|ws| - 1]);
    }
  }

  lemma {:induction false} TrimEndSplits(s: string) returns (ws: string)
    ensures s == TrimEnd(s) + ws && AllSpace(ws)
    decreases |s|
  {
    ws := "";
    if s != "" && IsSpace(s[|s| - 1]) {
      ws := TrimEndSplits(s[..|s| - 1]);
      ws := ws + [s[|s| - 1]];
    }
  }

  /** Trimming is undoing what was put around a text that neither starts nor ends
      with whitespace. */
  lemma {:induction false} TrimIs(before: string, core: string, after: string)
    requires AllSpace(before) && AllSpace(after) && NoSpaceAtEnds(core)
    ensures Trim(before + core + after) == core
  {
    if core == "" {
      assert before + core + after == (before + after) + "";
      TrimStartDrops(before + after, "");
    } else {
      assert before + core + after == before + (core + after);
      TrimStartDrops(before, core + after);
      TrimEndDrops(core, after);
    }
  }

  lemma {:induction false} SpacesBefore(ws: string, s: string)
    requires AllSpace(ws)
    ensures TrimStart(ws + s) == TrimStart(s)
  {
    if ws == "" {
      assert ws + s == s;
    } else {
      assert (ws + s)[1..] == ws[1..] + s;
      SpacesBefore(ws[1..], s);
    }
  }

  lemma {:induction false} SpacesBehind(s: string, ws: string)
    requires AllSpace(ws)
    ensures Trim(s + ws) == Trim(s)
  {
    var before := TrimStartSplits(s);
    var t := TrimStart(s);
    if t == "" {
      assert s + ws == (before + ws) + "";
      TrimStartDrops(before + ws, "");
    } else {
      TrimStartLemma(s);
      assert s + ws == before + (t + ws);
      TrimStartDrops(before, t + ws);
      SpacesAtEnd(t, ws);
    }
  }

  lemma {:induction false} SpacesAtEnd(s: string, ws: string)
    requires AllSpace(ws)
    ensures TrimEnd(s + ws) == TrimEnd(s)
    decreases |ws|
  {
    if ws == "" {
      assert s + ws == s;
    } else {
      assert (s + ws)[..|s + ws| - 1] == s + ws[..|ws| - 1];
      SpacesAtEnd(s, ws[..|ws| - 1]);
    }
  }

  predicate StartsWith(s: string, p: string) {
    p <= s
  }

  /** `p` occurs in `s` at position `i`. */
  predicate OccursAt(s: string, p: string, i: int) {
    0 <= i <= |s| - |p| && s[i..i + |p|] == p
  }

  predicate Contains(s: string, p: string) {
    exists i :: 0 <= i <= |s| && OccursAt(s, p, i)
  }

  /** The end of the longest run of digits that starts at `i`. */
  function DigitsEnd(s: string, i: nat): (e: nat)
    requires i <= |s|
    ensures i <= e <= |s|
    decreases |s| - i
  {
    if i < |s| && IsDigit(s[i]) then DigitsEnd(s, i + 1) else i
  }

  /** The end of the longest run of capital letters that starts at `i`. */
  function CapitalsEnd(s: string, i: nat): (e: nat)
    requires i <= |s|
    ensures i <= e <= |s|
    decreases |s| - i
  {
    if i < |s| && IsUpper(s[i]) then CapitalsEnd(s, i + 1) else i
  }

  lemma {:induction false} DigitRun(s: string, i: nat, e: nat)
    requires i <= e <= |s|
    ensures DigitsEnd(s, i) == e <==> (forall k :: i <= k < e ==> IsDigit(s[k])) && (e < |s| ==> !IsDigit(s[e]))
    decreases |s| - i
  {
    if i < e && IsDigit(s[i]) {
      DigitRun(s, i + 1, e);
    }
  }

  lemma {:induction false} CapitalRun(s: string, i: nat, e: nat)
    requires i <= e <= |s|
    ensures CapitalsEnd(s, i) == e <==> (forall k :: i <= k < e ==> IsUpper(s[k])) && (e < |s| ==> !IsUpper(s[e]))
    decreases |s| - i
  {
    if i < e && IsUpper(s[i]) {
      CapitalRun(s, i + 1, e);
    }
  }

  function SpacesEnd(s: string, i: nat): (e: nat)
    requires i <= |s|
    ensures i <= e <= |s|
    decreases |s| - i
  {
    if i < |s| && IsSpace(s[i]) then SpacesEnd(s, i + 1) else i
  }

  lemma {:induction false} SpacesEndSkipsSpaces(s: string, i: nat)
    requires i <= |s|
    ensures forall k :: i <= k < SpacesEnd(s, i) ==> IsSpace(s[k])
    decreases |s| - i
  {
    if i < |s| && IsSpace(s[i]) {
      SpacesEndSkipsSpaces(s, i + 1);
    }
  }
}
