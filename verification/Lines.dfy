/** Texts and their lines: splitting at LF or CRLF, joining with LF, and the
    conversions between the two line endings. */
module Lines {
  import opened Text

  /** The index of the first LF, or the length. */
  function FirstLf(s: string): (n: nat)
    ensures n <= |s|
  {
    if s == "" || s[0] == '\n' then 0 else 1 + FirstLf(s[1..])
  }

  function DropCr(line: string): string {
    if line != "" && line[|line| - 1] == '\r' then line[..|line| - 1] else line
  }

  function SplitLines(s: string): (r: seq<string>)
    ensures r != []
    decreases |s|
  {
    var n := FirstLf(s);
    if n == |s| then [s] else [DropCr(s[..n])] + SplitLines(s[n + 1..])
  }

  function JoinLines(lines: seq<string>): string {
    if lines == [] then ""
    else if |lines| == 1 then lines[0]
    else lines[0] + "\n" + JoinLines(lines[1..])
  }

  function ToLf(s: string): string {
    if s == "" then ""
    else if |s| > 1 && s[0] == '\r' && s[1] == '\n' then "\n" + ToLf(s[2..])
    else [s[0]] + ToLf(s[1..])
  }

  function ToCrlf(s: string): string {
    if s == "" then "" else (if s[0] == '\n' then "\r\n" else [s[0]]) + ToCrlf(s[1..])
  }

  predicate UsesCrlf(s: string) {
    Contains(s, "\r\n")
  }

  predicate NoCr(s: string) {
    '\r' !in s
  }

  /** Restoring CRLF line ends is undone by normalizing them, whatever stray
      carriage returns the text has. */
  lemma {:induction false} LfAfterCrlf(s: string)
    ensures ToLf(ToCrlf(s)) == s
  {
    if s != "" {
      LfAfterCrlf(s[1..]);
      var rest := ToCrlf(s[1..]);
      if s[0] == '\n' {
        assert ToCrlf(s)[2..] == rest;
      } else {
        assert ToCrlf(s)[1..] == rest;
        assert rest != "" ==> rest[0] != '\n';
      }
    }
  }

  lemma {:induction false} LfWithoutCr(s: string)
    requires NoCr(s)
    ensures ToLf(s) == s
  {
    if s != "" {
      assert s[0] in s && forall c :: c in s[1..] ==> c in s;
      LfWithoutCr(s[1..]);
    }
  }

  // ---------------------------------------------------------------------
  // Splitting a text in either line ending

  lemma {:induction false} FirstLfIsFirst(s: string)
    ensures forall k :: 0 <= k < FirstLf(s) ==> s[k] != '\n'
    ensures FirstLf(s) < |s| ==> s[FirstLf(s)] == '\n'
  {
    if s != "" && s[0] != '\n' {
      FirstLfIsFirst(s[1..]);
    }
  }

  lemma {:induction false} FirstLfIs(s: string, n: nat)
    requires n <= |s| && (forall k :: 0 <= k < n ==> s[k] != '\n') && (n == |s| || s[n] == '\n')
    ensures FirstLf(s) == n
  {
    FirstLfIsFirst(s);
  }

  lemma {:induction false} SplitFirst(a: string, rest: string)
    requires '\n' !in a
    ensures SplitLines(a + "\n" + rest) == [DropCr(a)] + SplitLines(rest)
  {
    var s := a + "\n" + rest;
    FirstLfIs(s, |a|);
    assert s[..|a|] == a && s[|a| + 1..] == rest;
  }

  lemma {:induction false} SplitLast(a: string)
    requires '\n' !in a
    ensures SplitLines(a) == [a]
  {
    FirstLfIs(a, |a|);
  }

  lemma {:induction false} LfOfFirstLine(a: string, rest: string)
    requires '\n' !in a
    ensures ToLf(a + "\n" + rest) == DropCr(a) + "\n" + ToLf(rest)
  {
    var s := a + "\n" + rest;
    if a == "" {
      assert s[1..] == rest;
    } else if a == "\r" {
      assert s[2..] == rest;
    } else {
      LfOfFirstLine(a[1..], rest);
      assert s[1..] == a[1..] + "\n" + rest;
      assert DropCr(a) == [a[0]] + DropCr(a[1..]);
    }
  }

  lemma {:induction false} LfOfLastLine(a: string)
    requires '\n' !in a
    ensures ToLf(a) == a
  {
    if a != "" {
      LfOfLastLine(a[1..]);
    }
  }

  lemma {:induction false} ContainsInRest(a: string, rest: string, p: string)
    ensures Contains(rest, p) ==> Contains(a + rest, p)
  {
    if Contains(rest, p) {
      ContainsWider(a, rest, "", p);
      assert a + rest == a + rest + "";
    }
  }

  lemma {:induction false} ContainsChars(s: string, p: string, c: char)
    ensures Contains(s, p) && c in p ==> c in s
  {
    if Contains(s, p) && c in p {
      var a, b := ContainsParts(s, p);
      var k :| 0 <= k < |p| && p[k] == c;
      assert s[|a| + k] == c;
    }
  }

  predicate EndsInCr(s: string) {
    s != "" && s[|s| - 1] == '\r'
  }

  predicate EndsInTwoCrs(s: string) {
    |s| >= 2 && s[|s| - 2..] == "\r\r"
  }

  predicate EndsWith(s: string, q: string) {
    |q| <= |s| && s[|s| - |q|..] == q
  }

  lemma {:induction false} CharBeforeBreak(s: string, q: string, i: nat, n: nat)
    requires OccursAt(s, q + "\n", i) && i <= n < i + |q|
    ensures s[n] in q
  {
    assert s[n] == (q + "\n")[n - i] == q[n - i];
  }

  lemma {:induction false} BreakIsNotInside(s: string, q: string, i: nat, n: nat)
    requires OccursAt(s, q + "\n", i) && '\n' !in q && n < |s| && s[n] == '\n'
    ensures n < i || i + |q| <= n
  {
    if i <= n < i + |q| {
      CharBeforeBreak(s, q, i, n);
    }
  }

  lemma {:induction false} FirstBreak(a: string, rest: string, n: nat)
    requires '\n' !in a && n <= |a| + |rest| && (a + "\n" + rest)[n] == '\n'
    ensures |a| <= n
  {
    assert forall k :: 0 <= k < |a| ==> (a + "\n" + rest)[k] == a[k] && a[k] in a;
  }

  /** An occurrence of `q` before a line end is at the end of a first line, or
      after it. */
  lemma {:induction false} BreakAt(a: string, rest: string, q: string, i: nat)
    requires '\n' !in a && '\n' !in q && OccursAt(a + "\n" + rest, q + "\n", i)
    ensures EndsWith(a, q) || OccursAt(rest, q + "\n", i - |a| - 1)
  {
    var s, p, at := a + "\n" + rest, q + "\n", i + |q|;
    assert s[at] == s[i..i + |p|][|q|] == '\n';
    FirstBreak(a, rest, at);
    BreakIsNotInside(s, q, i, |a|);
    if at == |a| {
      assert a[i..] == s[i..i + |p|][..|q|] == q;
    } else {
      assert rest[i - |a| - 1..i - |a| - 1 + |p|] == s[i..i + |p|];
    }
  }

  lemma {:induction false} BreakInFirstOrRest(a: string, rest: string, q: string)
    requires '\n' !in a && '\n' !in q
    ensures Contains(a + "\n" + rest, q + "\n") <==> EndsWith(a, q) || Contains(rest, q + "\n")
  {
    var s := a + "\n" + rest;
    if EndsWith(a, q) {
      assert s == a[..|a| - |q|] + (q + "\n") + rest;
      ContainsPart(a[..|a| - |q|], q + "\n", rest);
    }
    if Contains(rest, q + "\n") {
      ContainsInRest(a + "\n", rest, q + "\n");
    }
    if Contains(s, q + "\n") {
      var i :| 0 <= i <= |s| && OccursAt(s, q + "\n", i);
      BreakAt(a, rest, q, i);
    }
  }

  lemma {:induction false} NoBreak(a: string, q: string)
    requires '\n' !in a
    ensures !Contains(a, q + "\n")
  {
    assert (q + "\n")[|q|] == '\n';
    ContainsChars(a, q + "\n", '\n');
  }

  lemma {:induction false} DropTwice(a: string)
    ensures DropCr(DropCr(a)) == DropCr(a) <==> !EndsWith(a, "\r\r")
  {
    if |a| >= 2 {
      assert a[|a| - 2..][0] == a[|a| - 2] && a[|a| - 2..][1] == a[|a| - 1];
    }
  }

  /** The text is one line, or a first line and a rest. */
  lemma {:induction false} FirstLineOf(s: string) returns (a: string, rest: string)
    ensures '\n' !in a
    ensures if FirstLf(s) == |s| then s == a else s == a + "\n" + rest && |rest| < |s|
  {
    var n := FirstLf(s);
    FirstLfIsFirst(s);
    a, rest := s[..n], if n < |s| then s[n + 1..] else "";
  }

  lemma {:induction false} SameHeadsAndTails<T>(x: T, y: T, r: seq<T>, t: seq<T>)
    ensures [x] + r == [y] + t <==> x == y && r == t
  {
    if [x] + r == [y] + t {
      assert ([x] + r)[0] == ([y] + t)[0];
      assert ([x] + r)[1..] == r && ([y] + t)[1..] == t;
    }
  }

  lemma {:induction false} LfSplitsFirst(a: string, rest: string)
    requires '\n' !in a
    ensures var s := a + "\n" + rest;
            SplitLines(ToLf(s)) == SplitLines(s) <==> !EndsWith(a, "\r\r") && SplitLines(ToLf(rest)) == SplitLines(rest)
  {
    assert '\n' !in DropCr(a);
    LfOfFirstLine(a, rest);
    SplitFirst(a, rest);
    SplitFirst(DropCr(a), ToLf(rest));
    DropTwice(a);
    SameHeadsAndTails(DropCr(DropCr(a)), DropCr(a), SplitLines(ToLf(rest)), SplitLines(rest));
  }

  /** Normalizing line ends leaves the lines as they are exactly when no line but
      the last ends in two carriage returns. */
  lemma {:induction false} LfSplitsAlike(s: string)
    ensures SplitLines(ToLf(s)) == SplitLines(s) <==> !Contains(s, "\r\r\n")
    decreases |s|
  {
    var a, rest := FirstLineOf(s);
    assert "\r\r" + "\n" == "\r\r\n";
    if FirstLf(s) == |s| {
      LfOfLastLine(s);
      NoBreak(s, "\r\r");
    } else {
      LfSplitsFirst(a, rest);
      LfSplitsAlike(rest);
      BreakInFirstOrRest(a, rest, "\r\r");
    }
  }

  /** A line without any carriage return at its end. */
  function WithoutReturns(line: string): string {
    if EndsInCr(line) then WithoutReturns(line[..|line| - 1]) else line
  }

  predicate SameUpToReturns(a: seq<string>, b: seq<string>) {
    |a| == |b| && forall k :: 0 <= k < |a| ==> WithoutReturns(a[k]) == WithoutReturns(b[k])
  }

  lemma {:induction false} SameFirstAndRest(x: string, a: seq<string>, y: string, b: seq<string>)
    requires WithoutReturns(x) == WithoutReturns(y) && SameUpToReturns(a, b)
    ensures SameUpToReturns([x] + a, [y] + b)
  {
  }

  /** Normalizing line ends leaves the lines of every text as they are up to carriage
      returns at their ends. */
  lemma {:induction false} LfSplitsAlmostAlike(s: string)
    ensures SameUpToReturns(SplitLines(ToLf(s)), SplitLines(s))
    decreases |s|
  {
    var a, rest := FirstLineOf(s);
    if FirstLf(s) == |s| {
      LfOfLastLine(s);
    } else {
      assert '\n' !in DropCr(a);
      LfOfFirstLine(a, rest);
      SplitFirst(a, rest);
      SplitFirst(DropCr(a), ToLf(rest));
      LfSplitsAlmostAlike(rest);
      SameFirstAndRest(DropCr(DropCr(a)), SplitLines(ToLf(rest)), DropCr(a), SplitLines(rest));
    }
  }

  lemma {:induction false} CrlfOfFirstLine(a: string, rest: string)
    requires '\n' !in a
    ensures ToCrlf(a + "\n" + rest) == a + "\r\n" + ToCrlf(rest)
  {
    assert a + "\n" + rest == a + ("\n" + rest);
    CrlfAppend(a, "\n" + rest);
    CrlfOfOneLine(a);
    assert ("\n" + rest)[1..] == rest;
  }

  lemma {:induction false} DropAdded(a: string)
    ensures DropCr(a + "\r") == a
    ensures DropCr(a) == a <==> !EndsWith(a, "\r")
  {
    assert (a + "\r")[..|a|] == a;
    assert a != "" ==> a[|a| - 1..] == [a[|a| - 1]];
  }

  lemma {:induction false} CrlfSplitsFirst(a: string, rest: string)
    requires '\n' !in a
    ensures var s := a + "\n" + rest;
            SplitLines(ToCrlf(s)) == SplitLines(s) <==> !EndsWith(a, "\r") && SplitLines(ToCrlf(rest)) == SplitLines(rest)
  {
    CrlfOfFirstLine(a, rest);
    assert a + "\r\n" + ToCrlf(rest) == (a + "\r") + "\n" + ToCrlf(rest);
    SplitFirst(a, rest);
    SplitFirst(a + "\r", ToCrlf(rest));
    DropAdded(a);
    SameHeadsAndTails(a, DropCr(a), SplitLines(ToCrlf(rest)), SplitLines(rest));
  }

  /** Turning line ends into CRLF leaves the lines as they are exactly when none of
      them is one already. */
  lemma {:induction false} CrlfSplitsAlike(s: string)
    ensures SplitLines(ToCrlf(s)) == SplitLines(s) <==> !UsesCrlf(s)
    decreases |s|
  {
    var a, rest := FirstLineOf(s);
    assert "\r" + "\n" == "\r\n";
    if FirstLf(s) == |s| {
      CrlfOfOneLine(s);
      NoBreak(s, "\r");
    } else {
      CrlfSplitsFirst(a, rest);
      CrlfSplitsAlike(rest);
      BreakInFirstOrRest(a, rest, "\r");
    }
  }

  // ---------------------------------------------------------------------
  // Lines that are joined and read again

  /** What is read back of lines that were joined. */
  function ReadBack(lines: seq<string>): seq<string> {
    if |lines| <= 1 then lines else [DropCr(lines[0])] + ReadBack(lines[1..])
  }

  ghost predicate NoLfLines(lines: seq<string>) {
    forall k :: 0 <= k < |lines| ==> '\n' !in lines[k]
  }

  lemma {:induction false} JoinFirst(a: string, rest: seq<string>)
    requires rest != []
    ensures JoinLines([a] + rest) == a + "\n" + JoinLines(rest)
  {
    assert ([a] + rest)[1..] == rest;
  }

  lemma {:induction false} SplitOfJoin(lines: seq<string>)
    requires lines != [] && NoLfLines(lines)
    ensures SplitLines(JoinLines(lines)) == ReadBack(lines)
  {
    if |lines| == 1 {
      SplitLast(lines[0]);
    } else {
      SplitOfJoin(lines[1..]);
      SplitFirst(lines[0], JoinLines(lines[1..]));
    }
  }

  lemma {:induction false} LfOfJoin(lines: seq<string>)
    requires lines != [] && NoLfLines(lines)
    ensures ToLf(JoinLines(lines)) == JoinLines(ReadBack(lines))
  {
    if |lines| == 1 {
      LfOfLastLine(lines[0]);
    } else {
      var rest := ReadBack(lines[1..]);
      LfOfJoin(lines[1..]);
      LfOfFirstLine(lines[0], JoinLines(lines[1..]));
      JoinFirst(DropCr(lines[0]), rest);
    }
  }

  // ---------------------------------------------------------------------
  // A phrase within one line survives all of this

  predicate OneLine(p: string) {
    p != "" && '\n' !in p && '\r' !in p
  }

  lemma {:induction false} ContainsPart(a: string, p: string, b: string)
    ensures Contains(a + p + b, p)
  {
    assert (a + p + b)[|a|..|a| + |p|] == p;
    assert OccursAt(a + p + b, p, |a|);
  }

  lemma {:induction false} ContainsParts(s: string, p: string) returns (a: string, b: string)
    requires Contains(s, p)
    ensures s == a + p + b
  {
    var i :| 0 <= i <= |s| && OccursAt(s, p, i);
    a, b := s[..i], s[i + |p|..];
  }

  lemma {:induction false} ContainsWider(a: string, s: string, b: string, p: string)
    requires Contains(s, p)
    ensures Contains(a + s + b, p)
  {
    var x, y := ContainsParts(s, p);
    assert a + s + b == (a + x) + p + (y + b);
    ContainsPart(a + x, p, y + b);
  }

  lemma {:induction false} LfPlain(c: char, rest: string)
    requires !(c == '\r' && rest != "" && rest[0] == '\n')
    ensures ToLf([c] + rest) == [c] + ToLf(rest)
  {
    assert ([c] + rest)[1..] == rest;
  }

  lemma {:induction false} LfBreak(rest: string)
    ensures ToLf("\r\n" + rest) == "\n" + ToLf(rest)
  {
    assert ("\r\n" + rest)[2..] == rest;
  }

  lemma {:induction false} LfAppend(a: string, b: string)
    requires b == "" || b[0] != '\n'
    ensures ToLf(a + b) == ToLf(a) + ToLf(b)
    decreases |a|
  {
    if a == "" {
      assert a + b == b;
    } else if |a| > 1 && a[0] == '\r' && a[1] == '\n' {
      assert a == "\r\n" + a[2..] && a + b == "\r\n" + (a[2..] + b);
      LfAppend(a[2..], b);
      LfBreak(a[2..]);
      LfBreak(a[2..] + b);
    } else {
      assert a == [a[0]] + a[1..] && a + b == [a[0]] + (a[1..] + b);
      LfAppend(a[1..], b);
      LfPlain(a[0], a[1..]);
      LfPlain(a[0], a[1..] + b);
    }
  }

  lemma {:induction false} CrlfAppend(a: string, b: string)
    ensures ToCrlf(a + b) == ToCrlf(a) + ToCrlf(b)
    decreases |a|
  {
    if a == "" {
      assert a + b == b;
    } else {
      assert (a + b)[1..] == a[1..] + b;
      CrlfAppend(a[1..], b);
    }
  }

  lemma {:induction false} CrlfOfOneLine(p: string)
    requires '\n' !in p
    ensures ToCrlf(p) == p
  {
    if p != "" {
      assert p[0] in p && forall c :: c in p[1..] ==> c in p;
      CrlfOfOneLine(p[1..]);
    }
  }

  lemma {:induction false} LfAround(a: string, p: string, b: string)
    requires OneLine(p)
    ensures ToLf(a + p + b) == ToLf(a) + p + ToLf(b)
  {
    assert a + p + b == a + (p + b) && p[0] in p;
    LfAppend(a, p + b);
    LfPrefix(p, b);
  }

  lemma {:induction false} LfKeeps(s: string, p: string)
    requires OneLine(p) && Contains(s, p)
    ensures Contains(ToLf(s), p)
  {
    var a, b := ContainsParts(s, p);
    LfAround(a, p, b);
    ContainsPart(ToLf(a), p, ToLf(b));
  }

  lemma {:induction false} LfPrefix(p: string, b: string)
    requires '\r' !in p
    ensures ToLf(p + b) == p + ToLf(b)
    decreases |p|
  {
    if p == "" {
      assert p + b == b;
    } else {
      assert p[0] in p && forall c :: c in p[1..] ==> c in p;
      assert (p + b)[1..] == p[1..] + b;
      LfPrefix(p[1..], b);
    }
  }

  lemma {:induction false} CrlfKeeps(s: string, p: string)
    requires OneLine(p) && Contains(s, p)
    ensures Contains(ToCrlf(s), p)
  {
    var a, b := ContainsParts(s, p);
    CrlfAppend(a + p, b);
    CrlfAppend(a, p);
    CrlfOfOneLine(p);
    ContainsPart(ToCrlf(a), p, ToCrlf(b));
  }

  ghost predicate LineWith(lines: seq<string>, p: string) {
    exists k :: 0 <= k < |lines| && Contains(lines[k], p)
  }

  lemma {:induction false} JoinKeeps(lines: seq<string>, k: nat, p: string)
    requires k < |lines| && Contains(lines[k], p)
    ensures Contains(JoinLines(lines), p)
  {
    if |lines| > 1 {
      if k == 0 {
        ContainsWider("", lines[0], "\n" + JoinLines(lines[1..]), p);
        assert JoinLines(lines) == "" + lines[0] + ("\n" + JoinLines(lines[1..]));
      } else {
        JoinKeeps(lines[1..], k - 1, p);
        ContainsWider(lines[0] + "\n", JoinLines(lines[1..]), "", p);
        assert JoinLines(lines) == (lines[0] + "\n") + JoinLines(lines[1..]) + "";
      }
    }
  }

  lemma {:induction false} CharOfOccurrence(s: string, p: string, i: nat, n: nat)
    requires OccursAt(s, p, i) && i <= n < i + |p|
    ensures s[n] in p
  {
    assert s[n] == p[n - i];
  }

  /** An occurrence does not reach over a character that `p` does not have. */
  lemma {:induction false} NotAcross(s: string, p: string, i: nat, n: nat)
    requires OccursAt(s, p, i) && n < |s| && s[n] !in p
    ensures n < i || i + |p| <= n
  {
    if i <= n < i + |p| {
      CharOfOccurrence(s, p, i, n);
    }
  }

  lemma {:induction false} OccursInFirstLine(s: string, p: string, i: nat, n: nat)
    requires OneLine(p) && OccursAt(s, p, i) && i < n < |s| && s[n] == '\n'
    ensures Contains(DropCr(s[..n]), p)
  {
    NotAcross(s, p, i, n);
    var line := DropCr(s[..n]);
    if |line| < n {
      NotAcross(s, p, i, n - 1);
    }
    assert i + |p| <= |line| && line == s[..|line|];
    assert s[..|line|][i..i + |p|] == s[i..i + |p|];
    assert OccursAt(line, p, i);
  }

  lemma {:induction false} OccursInRest(s: string, p: string, i: nat, n: nat)
    requires OneLine(p) && OccursAt(s, p, i) && n <= i && n < |s| && s[n] == '\n'
    ensures Contains(s[n + 1..], p)
  {
    NotAcross(s, p, i, n);
    assert s[n + 1..][i - n - 1..i - n - 1 + |p|] == s[i..i + |p|];
    assert OccursAt(s[n + 1..], p, i - n - 1);
  }

  lemma {:induction false} SplitKeeps(s: string, p: string)
    requires OneLine(p) && Contains(s, p)
    ensures LineWith(SplitLines(s), p)
    decreases |s|
  {
    var n := FirstLf(s);
    var lines := SplitLines(s);
    FirstLfIsFirst(s);
    if n == |s| {
      assert lines[0] == s;
    } else {
      var i :| 0 <= i <= |s| && OccursAt(s, p, i);
      var rest := SplitLines(s[n + 1..]);
      assert lines == [DropCr(s[..n])] + rest;
      if i < n {
        OccursInFirstLine(s, p, i, n);
        assert Contains(lines[0], p);
      } else {
        OccursInRest(s, p, i, n);
        SplitKeeps(s[n + 1..], p);
        var k :| 0 <= k < |rest| && Contains(rest[k], p);
        assert lines[k + 1] == rest[k];
      }
    }
  }

  lemma {:induction false} SplitOfNoCr(s: string)
    requires NoCr(s)
    ensures forall k :: 0 <= k < |SplitLines(s)| ==> NoCr(SplitLines(s)[k])
    decreases |s|
  {
    var n := FirstLf(s);
    if n < |s| {
      SplitOfNoCr(s[n + 1..]);
    }
  }

  lemma {:induction false} JoinOfNoCr(lines: seq<string>)
    requires forall k :: 0 <= k < |lines| ==> NoCr(lines[k])
    ensures NoCr(JoinLines(lines))
  {
    if |lines| > 1 {
      JoinOfNoCr(lines[1..]);
    }
  }

  // ---------------------------------------------------------------------
  // Carriage returns at line ends

  /** Two carriage returns at `i` end a line. */
  predicate TwoCrsEndLine(s: string, i: int) {
    0 <= i && i + 1 < |s| && s[i] == '\r' && s[i + 1] == '\r' && (i + 2 == |s| || s[i + 2] == '\n')
  }

  /** No line ends in two carriage returns, the last one included. */
  ghost predicate Tame(s: string) {
    forall i :: !TwoCrsEndLine(s, i)
  }

  ghost predicate TameLines(lines: seq<string>) {
    forall k :: 0 <= k < |lines| ==> Tame(lines[k])
  }

  lemma {:induction false} NoCrIsTame(s: string)
    requires NoCr(s)
    ensures Tame(s)
  {
    forall i ensures !TwoCrsEndLine(s, i) {
      assert 0 <= i < |s| ==> s[i] in s;
    }
  }

  lemma {:induction false} TameSuffix(s: string, n: nat)
    requires n <= |s| && Tame(s)
    ensures Tame(s[n..])
  {
    forall i ensures !TwoCrsEndLine(s[n..], i) {
      assert !TwoCrsEndLine(s, i + n);
    }
  }

  lemma {:induction false} TamePrefix(s: string, n: nat)
    requires n <= |s| && Tame(s) && !EndsInCr(s[..n])
    ensures Tame(s[..n])
  {
    forall i ensures !TwoCrsEndLine(s[..n], i) {
      assert !TwoCrsEndLine(s, i);
    }
  }

  lemma {:induction false} TameConcat(a: string, b: string)
    requires Tame(a) && Tame(b) && !EndsInCr(a)
    ensures Tame(a + b)
  {
    forall i ensures !TwoCrsEndLine(a + b, i) {
      assert !TwoCrsEndLine(a, i) && !TwoCrsEndLine(b, i - |a|);
    }
  }

  /** The rest of a line may be replaced by a value without carriage returns. */
  lemma {:induction false} TameReplaced(s: string, n: nat, value: string)
    requires n <= |s| && Tame(s) && (n < |s| ==> s[n] != '\n')
    requires NoCr(value) && value != "" && value[0] != '\n' && n < |s|
    ensures Tame(s[..n] + value)
  {
    forall i ensures !TwoCrsEndLine(s[..n] + value, i) {
      assert !TwoCrsEndLine(s, i);
      assert forall k :: 0 <= k < |value| ==> value[k] in value;
    }
  }

  lemma {:induction false} TameJoin(a: string, b: string)
    requires Tame(a) && Tame(b)
    ensures Tame(a + "\n" + b)
  {
    forall i ensures !TwoCrsEndLine(a + "\n" + b, i) {
      assert !TwoCrsEndLine(a, i) && !TwoCrsEndLine(b, i - |a| - 1);
    }
  }

  lemma {:induction false} TameFirstLine(s: string, n: nat)
    requires n < |s| && Tame(s) && s[n] == '\n'
    ensures Tame(DropCr(s[..n]))
  {
    var line := DropCr(s[..n]);
    if |line| < n {
      assert !TwoCrsEndLine(s, n - 2);
    }
    assert line == s[..|line|];
    TamePrefix(s, |line|);
  }

  lemma {:induction false} SplitOfTame(s: string)
    requires Tame(s)
    ensures TameLines(SplitLines(s))
    decreases |s|
  {
    var n := FirstLf(s);
    if n < |s| {
      FirstLfIsFirst(s);
      TameFirstLine(s, n);
      TameSuffix(s, n + 1);
      SplitOfTame(s[n + 1..]);
    }
  }

  lemma {:induction false} JoinOfTame(lines: seq<string>)
    requires TameLines(lines)
    ensures Tame(JoinLines(lines))
  {
    if |lines| > 1 {
      JoinOfTame(lines[1..]);
      TameJoin(lines[0], JoinLines(lines[1..]));
    }
  }

  lemma {:induction false} DoubleEndsLine(s: string, i: int)
    ensures OccursAt(s, "\r\r\n", i) ==> TwoCrsEndLine(s, i)
  {
    if OccursAt(s, "\r\r\n", i) {
      var p := s[i..i + 3];
      assert p[0] == s[i] && p[1] == s[i + 1] && p[2] == s[i + 2];
    }
  }

  lemma {:induction false} TameMeansNoDouble(s: string)
    requires Tame(s)
    ensures !Contains(s, "\r\r\n")
  {
    forall i ensures !OccursAt(s, "\r\r\n", i) {
      DoubleEndsLine(s, i);
    }
  }

  lemma {:induction false} TameWithoutCrlf(s: string)
    requires !UsesCrlf(s) && !EndsInTwoCrs(s)
    ensures Tame(s)
  {
    forall i ensures !TwoCrsEndLine(s, i) {
      if TwoCrsEndLine(s, i) && i + 2 < |s| {
        assert s[i + 1..i + 3] == "\r\n";
        assert OccursAt(s, "\r\n", i + 1);
      }
    }
  }

  lemma {:induction false} CrlfAtStart(s: string)
    ensures |s| > 1 && s[0] == '\r' && s[1] == '\n' ==> UsesCrlf(s)
  {
    if |s| > 1 && s[0] == '\r' && s[1] == '\n' {
      assert s[0..2] == "\r\n";
      assert OccursAt(s, "\r\n", 0);
    }
  }

  lemma {:induction false} LfWithoutCrlf(s: string)
    requires !UsesCrlf(s)
    ensures ToLf(s) == s
  {
    if s != "" {
      CrlfAtStart(s);
      assert s == s[..1] + s[1..];
      ContainsInRest(s[..1], s[1..], "\r\n");
      LfWithoutCrlf(s[1..]);
    }
  }
}
