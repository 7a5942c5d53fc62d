/** File globs compiled to regular expressions, the expression texts read back, and
    what they match. */
module Glob {
  import opened Base
  import opened Text

  // ---------------------------------------------------------------------
  // The compiler

  /** The text emitted for a pattern. */
  function RegexText(p: string): string
    decreases |p|
  {
    if p == "" then ""
    else if p[0] == '*' then
      if |p| > 1 && p[1] == '*' then
        if |p| > 2 && p[2] == '/' then "(?:.+/)?" + RegexText(p[3..]) else ".*" + RegexText(p[2..])
      else "[^/]*" + RegexText(p[1..])
    else if p[0] == '?' then "[^/]" + RegexText(p[1..])
    else if p[0] == '.' then "\\." + RegexText(p[1..])
    else [p[0]] + RegexText(p[1..])
  }

  /** The piece emitted for what starts at `i`, and the rest. */
  lemma {:induction false} NextPiece(p: string, i: nat)
    requires i < |p|
    ensures
      RegexText(p[i..]) ==
        if p[i] == '*' then
          if i + 1 < |p| && p[i + 1] == '*' then
            if i + 2 < |p| && p[i + 2] == '/' then "(?:.+/)?" + RegexText(p[i + 3..]) else ".*" + RegexText(p[i + 2..])
          else "[^/]*" + RegexText(p[i + 1..])
        else if p[i] == '?' then "[^/]" + RegexText(p[i + 1..])
        else if p[i] == '.' then "\\." + RegexText(p[i + 1..])
        else [p[i]] + RegexText(p[i + 1..])
  {
    var rest := p[i..];
    assert rest[1..] == p[i + 1..];
    assert |rest| > 1 ==> rest[1] == p[i + 1] && rest[2..] == p[i + 2..];
    assert |rest| > 2 ==> rest[2] == p[i + 2] && rest[3..] == p[i + 3..];
  }

  lemma {:induction false} Regroup(a: string, b: string, c: string)
    ensures a + (b + c) == (a + b) + c
  {
  }

  method GlobToRegex(pattern: string) returns (regex: string)
    ensures regex == RegexText(pattern)
  {
    regex := "";
    var i := 0;
    while i < |pattern|
      invariant 0 <= i <= |pattern|
      invariant RegexText(pattern) == regex + RegexText(pattern[i..])
    {
      var c := pattern[i];
      var piece, n;
      if c == '*' {
        if i + 1 < |pattern| && pattern[i + 1] == '*' {
          if i + 2 < |pattern| && pattern[i + 2] == '/' {
            piece, n := "(?:.+/)?", 3;
          } else {
            piece, n := ".*", 2;
          }
        } else {
          piece, n := "[^/]*", 1;
        }
      } else if c == '?' {
        piece, n := "[^/]", 1;
      } else if c == '.' {
        piece, n := "\\.", 1;
      } else {
        piece, n := [c], 1;
      }
      assert RegexText(pattern[i..]) == piece + RegexText(pattern[i + n..]) by { NextPiece(pattern, i); }
      Regroup(regex, piece, RegexText(pattern[i + n..]));
      regex := regex + piece;
      i := i + n;
    }
  }

  // ---------------------------------------------------------------------
  // Regular expressions

  datatype Regex =
    | Empty
    | Chr(c: char)
    | Dot
    | NotChr(c: char)
    | Then(first: Regex, second: Regex)
    | Star(r: Regex)
    | Opt(r: Regex)

  /** `r` matches the whole of `s`. */
  predicate Matches(r: Regex, s: string)
    decreases r, |s|
  {
    match r
    case Empty => s == ""
    case Chr(c) => s == [c]
    case Dot => |s| == 1 && !IsLineTerminator(s[0])
    case NotChr(c) => |s| == 1 && s[0] != c
    case Then(a, b) => exists k :: 0 <= k <= |s| && Matches(a, s[..k]) && Matches(b, s[k..])
    case Star(a) => s == "" || exists k :: 0 < k <= |s| && Matches(a, s[..k]) && Matches(r, s[k..])
    case Opt(a) => s == "" || Matches(a, s)
  }

  /** One or more matches, one after the other. */
  function Plus(r: Regex): Regex {
    Then(r, Star(r))
  }

  predicate Meta(c: char) {
    c in "\\^$.*+?()[]{}|"
  }

  function Quantified(r: Regex, text: string): (q: (Regex, string))
    ensures |q.1| <= |text|
  {
    if text == "" then (r, text)
    else if text[0] == '*' then (Star(r), text[1..])
    else if text[0] == '+' then (Plus(r), text[1..])
    else if text[0] == '?' then (Opt(r), text[1..])
    else (r, text)
  }

  /** An atom at the start of `text`, and what follows it. */
  function ParseAtom(text: string): (r: Option<(Regex, string)>)
    ensures r.Some? ==> |r.value.1| < |text|
    decreases |text|, 0
  {
    if text == "" then None
    else if |text| > 2 && text[..3] == "(?:" then ParseAlternative(text[3..], true)
    else if |text| > 3 && text[..2] == "[^" && text[3] == ']' then Some((NotChr(text[2]), text[4..]))
    else if |text| > 1 && text[0] == '\\' then Some((Chr(text[1]), text[2..]))
    else if text[0] == '.' then Some((Dot, text[1..]))
    else if Meta(text[0]) then None
    else Some((Chr(text[0]), text[1..]))
  }

  /** A sequence of quantified atoms, up to the end or the closing parenthesis. */
  function ParseAlternative(text: string, inGroup: bool): (r: Option<(Regex, string)>)
    ensures r.Some? ==> |r.value.1| <= |text|
    decreases |text|, 1
  {
    if text == "" then (if inGroup then None else Some((Empty, "")))
    else if text[0] == ')' && inGroup then Some((Empty, text[1..]))
    else
      match ParseAtom(text)
      case None => None
      case Some(atom) =>
        var q := Quantified(atom.0, atom.1);
        match ParseAlternative(q.1, inGroup)
        case None => None
        case Some(rest) => Some((Then(q.0, rest.0), rest.1))
  }

  function ParseRegex(text: string): Option<Regex> {
    match ParseAlternative(text, false)
    case None => None
    case Some(r) => Some(r.0)
  }

  /** The expression that `text` reads as matches the whole of `path`. */
  predicate Test(text: string, path: string) {
    match ParseRegex(text)
    case None => false
    case Some(r) => Matches(r, path)
  }

  /** The engine behind `new RegExp("^" + text + "$").test(path)`, which answers, or
      throws for a text that is no expression. */
  type Engine = (string, string) -> Option<bool>

  /** The engine does as `Matches` says for every text that `ParseRegex` reads. */
  ghost predicate Sound(engine: Engine) {
    forall text, path :: ParseRegex(text).Some? ==> engine(text, path) == Some(Test(text, path))
  }

  function Asked(engine: Engine, filePath: string, pattern: string): Option<bool> {
    engine(RegexText(pattern), filePath)
  }

  /** Whether some pattern matches, or nothing when the engine throws first. */
  method MatchesAnyPattern(engine: Engine, filePath: string, patterns: seq<string>) returns (found: Option<bool>)
    ensures found == Some(false) <==> forall k :: 0 <= k < |patterns| ==> Asked(engine, filePath, patterns[k]) == Some(false)
    ensures found != Some(false) ==>
              exists k :: 0 <= k < |patterns| && Asked(engine, filePath, patterns[k]) == found &&
                forall j :: 0 <= j < k ==> Asked(engine, filePath, patterns[j]) == Some(false)
  {
    for i := 0 to |patterns|
      invariant forall k :: 0 <= k < i ==> Asked(engine, filePath, patterns[k]) == Some(false)
    {
      var re := GlobToRegex(patterns[i]);
      var answer := engine(re, filePath);
      if answer != Some(false) {
        assert Asked(engine, filePath, patterns[i]) == answer;
        return answer;
      }
    }
    return Some(false);
  }

  // ---------------------------------------------------------------------
  // Reading the emitted text back

  /** A pattern whose other characters stand for themselves in an expression. */
  predicate Plain(p: string) {
    forall k :: 0 <= k < |p| ==> p[k] in "*?." || !Meta(p[k])
  }

  const DeepDirectory := Opt(Then(Plus(Dot), Then(Chr('/'), Empty)))

  /** The expression that a pattern means to be. */
  function RegexOf(p: string): Regex
    decreases |p|
  {
    if p == "" then Empty
    else if p[0] == '*' then
      if |p| > 1 && p[1] == '*' then
        if |p| > 2 && p[2] == '/' then Then(DeepDirectory, RegexOf(p[3..])) else Then(Star(Dot), RegexOf(p[2..]))
      else Then(Star(NotChr('/')), RegexOf(p[1..]))
    else if p[0] == '?' then Then(NotChr('/'), RegexOf(p[1..]))
    else Then(Chr(p[0]), RegexOf(p[1..]))
  }

  predicate NoQuantifierAt(text: string) {
    text == "" || text[0] !in "*+?"
  }

  /** An emitted text never starts with a quantifier. */
  lemma {:induction false} EmittedStart(p: string)
    requires Plain(p)
    ensures NoQuantifierAt(RegexText(p))
  {
    if p != "" {
      assert p[0] in "*?." || !Meta(p[0]);
    }
  }

  /** One emitted piece is one quantified atom. */
  lemma {:induction false} ParsePiece(text: string, atom: Regex, after: string, q: Regex, rest: string, r: Regex)
    requires text != "" && ParseAtom(text) == Some((atom, after)) && Quantified(atom, after) == (q, rest)
    requires ParseAlternative(rest, false) == Some((r, ""))
    ensures ParseAlternative(text, false) == Some((Then(q, r), ""))
  {
  }

  lemma {:induction false} ParseDeepDirectory(rest: string)
    ensures ParseAtom("(?:.+/)" + rest) == Some((Then(Plus(Dot), Then(Chr('/'), Empty)), rest))
  {
    var close := ")" + rest;
    var slash := "/" + close;
    var dots := ".+" + slash;
    assert ("(?:.+/)" + rest)[..3] == "(?:" && ("(?:.+/)" + rest)[3..] == dots;
    assert ParseAlternative(close, true) == Some((Empty, rest)) by { assert close[1..] == rest; }
    assert ParseAtom(slash) == Some((Chr('/'), close)) by { assert slash[1..] == close; }
    assert ParseAlternative(slash, true) == Some((Then(Chr('/'), Empty), rest));
    assert ParseAtom(dots) == Some((Dot, "+" + slash)) by { assert dots[1..] == "+" + slash; }
    assert Quantified(Dot, "+" + slash) == (Plus(Dot), slash) by { assert ("+" + slash)[1..] == slash; }
  }

  lemma {:induction false} ParseNotSlash(rest: string)
    ensures ParseAtom("[^/]" + rest) == Some((NotChr('/'), rest))
  {
    var text := "[^/]" + rest;
    assert text[..2] == "[^" && text[4..] == rest && text[0] == '[';
  }

  lemma {:induction false} ParseDot(rest: string)
    ensures ParseAtom("." + rest) == Some((Dot, rest))
  {
    var text := "." + rest;
    assert text[0] == '.' && text[1..] == rest;
    assert |text| > 2 ==> text[..3][0] == '.';
    assert |text| > 3 ==> text[..2][0] == '.';
  }

  /** The first character of an emitted text stands for itself. */
  predicate StandsForItself(c: char) {
    c != '*' && c != '?' && !Meta(c)
  }

  lemma {:induction false} ParseChar(c: char, rest: string)
    requires StandsForItself(c)
    ensures ParseAtom([c] + rest) == Some((Chr(c), rest))
  {
    var text := [c] + rest;
    assert text[0] == c && text[1..] == rest;
    assert |text| > 2 ==> text[..3][0] == c;
    assert |text| > 3 ==> text[..2][0] == c;
  }

  lemma {:induction false} ParseDotEscape(rest: string)
    ensures ParseAtom("\\." + rest) == Some((Chr('.'), rest))
  {
    var text := "\\." + rest;
    assert text[0] == '\\' && text[1] == '.' && text[2..] == rest;
    assert |text| > 2 ==> text[..3][0] == '\\';
    assert |text| > 3 ==> text[..2][0] == '\\';
  }

  lemma {:induction false} QuantifyStar(atom: Regex, rest: string)
    ensures Quantified(atom, "*" + rest) == (Star(atom), rest)
  {
    assert ("*" + rest)[1..] == rest;
  }

  /** `text` reads as `r`, up to its end. */
  predicate Reads(text: string, r: Regex) {
    ParseAlternative(text, false) == Some((r, ""))
  }

  lemma {:induction false} ReadDeepDirectory(rest: string, r: Regex)
    requires Reads(rest, r)
    ensures Reads("(?:.+/)?" + rest, Then(DeepDirectory, r))
  {
    ParseDeepDirectory("?" + rest);
    assert "(?:.+/)?" + rest == "(?:.+/)" + ("?" + rest) && ("?" + rest)[1..] == rest;
    ParsePiece("(?:.+/)" + ("?" + rest), DeepDirectory.r, "?" + rest, DeepDirectory, rest, r);
  }

  lemma {:induction false} ReadAnything(rest: string, r: Regex)
    requires Reads(rest, r)
    ensures Reads(".*" + rest, Then(Star(Dot), r))
  {
    ParseDot("*" + rest);
    QuantifyStar(Dot, rest);
    assert ".*" + rest == "." + ("*" + rest);
    ParsePiece("." + ("*" + rest), Dot, "*" + rest, Star(Dot), rest, r);
  }

  lemma {:induction false} ReadSegment(rest: string, r: Regex)
    requires Reads(rest, r)
    ensures Reads("[^/]*" + rest, Then(Star(NotChr('/')), r))
  {
    assert "[^/]*" + rest == "[^/]" + ("*" + rest);
    ParseNotSlash("*" + rest);
    QuantifyStar(NotChr('/'), rest);
    ParsePiece("[^/]" + ("*" + rest), NotChr('/'), "*" + rest, Star(NotChr('/')), rest, r);
  }

  lemma {:induction false} ReadOne(rest: string, r: Regex)
    requires Reads(rest, r) && NoQuantifierAt(rest)
    ensures Reads("[^/]" + rest, Then(NotChr('/'), r))
  {
    ParseNotSlash(rest);
    ParsePiece("[^/]" + rest, NotChr('/'), rest, NotChr('/'), rest, r);
  }

  lemma {:induction false} ReadDotEscape(rest: string, r: Regex)
    requires Reads(rest, r) && NoQuantifierAt(rest)
    ensures Reads("\\." + rest, Then(Chr('.'), r))
  {
    ParseDotEscape(rest);
    ParsePiece("\\." + rest, Chr('.'), rest, Chr('.'), rest, r);
  }

  lemma {:induction false} ReadChar(c: char, rest: string, r: Regex)
    requires Reads(rest, r) && NoQuantifierAt(rest) && StandsForItself(c)
    ensures Reads([c] + rest, Then(Chr(c), r))
  {
    ParseChar(c, rest);
    ParsePiece([c] + rest, Chr(c), rest, Chr(c), rest, r);
  }

  /** Every emitted text reads back as the expression it means to be. */
  lemma {:induction false} EmittedTextParses(p: string)
    requires Plain(p)
    ensures Reads(RegexText(p), RegexOf(p))
    decreases |p|
  {
    if p == "" {
    } else if p[0] == '*' && |p| > 1 && p[1] == '*' {
      if |p| > 2 && p[2] == '/' {
        EmittedTextParses(p[3..]);
        ReadDeepDirectory(RegexText(p[3..]), RegexOf(p[3..]));
      } else {
        EmittedTextParses(p[2..]);
        ReadAnything(RegexText(p[2..]), RegexOf(p[2..]));
      }
    } else {
      EmittedTextParses(p[1..]);
      EmittedStart(p[1..]);
      EmittedCharReads(p, RegexText(p[1..]), RegexOf(p[1..]));
    }
  }

  lemma {:induction false} EmittedCharReads(p: string, rest: string, r: Regex)
    requires Plain(p) && p != "" && !(p[0] == '*' && |p| > 1 && p[1] == '*')
    requires rest == RegexText(p[1..]) && r == RegexOf(p[1..]) && Reads(rest, r) && NoQuantifierAt(rest)
    ensures Reads(RegexText(p), RegexOf(p))
  {
    if p[0] == '*' {
      ReadSegment(rest, r);
    } else if p[0] == '?' {
      ReadOne(rest, r);
    } else if p[0] == '.' {
      ReadDotEscape(rest, r);
    } else {
      ReadChar(p[0], rest, r);
    }
  }

  // ---------------------------------------------------------------------
  // What a glob means

  predicate NoTerminators(s: string) {
    forall k :: 0 <= k < |s| ==> !IsLineTerminator(s[k])
  }

  /** The direct matcher: `*` and `?` stay within a segment, `**` does not, and
      `**` with a slash stands for nothing or for a directory. */
  predicate GlobMatch(p: string, path: string)
    decreases |p|
  {
    if p == "" then path == ""
    else if p[0] == '*' then
      if |p| > 1 && p[1] == '*' then
        if |p| > 2 && p[2] == '/' then
          GlobMatch(p[3..], path) ||
          exists k :: 2 <= k <= |path| && path[k - 1] == '/' && GlobMatch(p[3..], path[k..])
        else exists k :: 0 <= k <= |path| && GlobMatch(p[2..], path[k..])
      else exists k :: 0 <= k <= |path| && '/' !in path[..k] && GlobMatch(p[1..], path[k..])
    else if p[0] == '?' then path != "" && path[0] != '/' && GlobMatch(p[1..], path[1..])
    else path != "" && path[0] == p[0] && GlobMatch(p[1..], path[1..])
  }

  lemma {:induction false} StarOfNotSlash(s: string)
    ensures Matches(Star(NotChr('/')), s) <==> '/' !in s
  {
    if s != "" {
      StarOfNotSlash(s[1..]);
      assert s == s[..1] + s[1..];
      if Matches(Star(NotChr('/')), s) {
        var k :| 0 < k <= |s| && Matches(NotChr('/'), s[..k]) && Matches(Star(NotChr('/')), s[k..]);
        assert k == 1;
      }
      if '/' !in s {
        assert Matches(NotChr('/'), s[..1]);
      }
    }
  }

  lemma {:induction false} StarOfDot(s: string)
    ensures Matches(Star(Dot), s) <==> NoTerminators(s)
  {
    if s != "" {
      StarOfDot(s[1..]);
      assert s == s[..1] + s[1..];
      if Matches(Star(Dot), s) {
        var k :| 0 < k <= |s| && Matches(Dot, s[..k]) && Matches(Star(Dot), s[k..]);
        assert k == 1;
      }
      if NoTerminators(s) {
        assert Matches(Dot, s[..1]);
      }
    }
  }

  lemma {:induction false} PlusOfDot(s: string)
    ensures Matches(Plus(Dot), s) <==> s != "" && NoTerminators(s)
  {
    if s != "" {
      StarOfDot(s[1..]);
      assert s == s[..1] + s[1..];
      if Matches(Plus(Dot), s) {
        var k :| 0 <= k <= |s| && Matches(Dot, s[..k]) && Matches(Star(Dot), s[k..]);
        assert k == 1;
      }
      if NoTerminators(s) {
        assert Matches(Dot, s[..1]);
      }
    }
  }

  lemma {:induction false} ThenChar(c: char, s: string)
    ensures Matches(Then(Chr(c), Empty), s) <==> s == [c]
  {
    if s == [c] {
      assert Matches(Chr(c), s[..1]) && Matches(Empty, s[1..]);
    }
  }

  lemma {:induction false} DeepDirectoryMatches(s: string)
    requires NoTerminators(s)
    ensures Matches(DeepDirectory, s) <==> s == "" || (|s| >= 2 && s[|s| - 1] == '/')
  {
    var inner := Then(Chr('/'), Empty);
    if |s| >= 2 && s[|s| - 1] == '/' {
      var k := |s| - 1;
      PlusOfDot(s[..k]);
      ThenChar('/', s[k..]);
      assert Matches(Plus(Dot), s[..k]) && Matches(inner, s[k..]);
    }
    if s != "" && Matches(DeepDirectory, s) {
      assert Matches(Then(Plus(Dot), inner), s);
      var k :| 0 <= k <= |s| && Matches(Plus(Dot), s[..k]) && Matches(inner, s[k..]);
      PlusOfDot(s[..k]);
      ThenChar('/', s[k..]);
      assert s[k..] == ['/'];
    }
  }

  lemma {:induction false} ThenSingle(a: Regex, b: Regex, s: string)
    requires forall t :: Matches(a, t) ==> |t| == 1
    ensures Matches(Then(a, b), s) <==> s != "" && Matches(a, s[..1]) && Matches(b, s[1..])
  {
  }

  /** The expression a pattern compiles to matches what the direct matcher does. */
  lemma {:induction false} RegexIsGlob(p: string, path: string)
    requires NoTerminators(path)
    ensures Matches(RegexOf(p), path) <==> GlobMatch(p, path)
    decreases |p|
  {
    if p == "" {
    } else if p[0] == '*' && |p| > 1 && p[1] == '*' && |p| > 2 && p[2] == '/' {
      DeepDirectoryIsGlob(p, path);
    } else if p[0] == '*' && |p| > 1 && p[1] == '*' {
      DeepIsGlob(p, path);
    } else if p[0] == '*' {
      SegmentIsGlob(p, path);
    } else {
      var atom := if p[0] == '?' then NotChr('/') else Chr(p[0]);
      ThenSingle(atom, RegexOf(p[1..]), path);
      if path != "" {
        RegexIsGlob(p[1..], path[1..]);
      }
    }
  }

  lemma {:induction false} SegmentIsGlob(p: string, path: string)
    requires NoTerminators(path) && p != "" && p[0] == '*' && !(|p| > 1 && p[1] == '*')
    ensures Matches(RegexOf(p), path) <==> GlobMatch(p, path)
    decreases |p|, 0
  {
    var rest := p[1..];
    forall k | 0 <= k <= |path|
      ensures Matches(RegexOf(rest), path[k..]) <==> GlobMatch(rest, path[k..])
      ensures Matches(Star(NotChr('/')), path[..k]) <==> '/' !in path[..k]
    {
      RegexIsGlob(rest, path[k..]);
      StarOfNotSlash(path[..k]);
    }
  }

  lemma {:induction false} DeepIsGlob(p: string, path: string)
    requires NoTerminators(path) && |p| > 1 && p[0] == '*' && p[1] == '*' && !(|p| > 2 && p[2] == '/')
    ensures Matches(RegexOf(p), path) <==> GlobMatch(p, path)
    decreases |p|, 0
  {
    var rest := p[2..];
    forall k | 0 <= k <= |path|
      ensures Matches(RegexOf(rest), path[k..]) <==> GlobMatch(rest, path[k..])
      ensures Matches(Star(Dot), path[..k])
    {
      RegexIsGlob(rest, path[k..]);
      StarOfDot(path[..k]);
    }
  }

  lemma {:induction false} DeepDirectoryIsGlob(p: string, path: string)
    requires NoTerminators(path) && |p| > 2 && p[..3] == "**/"
    ensures Matches(RegexOf(p), path) <==> GlobMatch(p, path)
    decreases |p|, 0
  {
    var rest := p[3..];
    assert p[0] == '*' && p[1] == '*' && p[2] == '/';
    forall k | 0 <= k <= |path|
      ensures Matches(RegexOf(rest), path[k..]) <==> GlobMatch(rest, path[k..])
      ensures Matches(DeepDirectory, path[..k]) <==> k == 0 || (k >= 2 && path[k - 1] == '/')
    {
      RegexIsGlob(rest, path[k..]);
      DeepDirectoryMatches(path[..k]);
    }
    assert path[0..] == path;
  }

  /** Compiled, read back and matched: a plain pattern accepts a path without line
      terminators exactly when the direct matcher does. */
  lemma {:induction false} CompiledGlobMatches(p: string, path: string)
    requires Plain(p) && NoTerminators(path)
    ensures Test(RegexText(p), path) <==> GlobMatch(p, path)
  {
    EmittedTextParses(p);
    RegexIsGlob(p, path);
  }

  /** A sound engine, asked about plain patterns, always answers, and as the direct
      matcher does. */
  lemma {:induction false} PlainPatternsAreAnswered(engine: Engine, p: string, path: string)
    requires Sound(engine) && Plain(p) && NoTerminators(path)
    ensures Asked(engine, path, p) == Some(GlobMatch(p, path))
  {
    EmittedTextParses(p);
    CompiledGlobMatches(p, path);
  }

  /** The start of the path, or just after a slash. */
  predicate SegmentStart(path: string, k: nat) {
    k == 0 || (k <= |path| && path[k - 1] == '/')
  }

  /** A leading `**` with a slash skips zero or more whole segments, in a path that
      does not start with a slash. */
  lemma {:induction false} LeadingDeepDirectory(p: string, path: string)
    requires Plain(p) && NoTerminators(path) && (path == "" || path[0] != '/')
    ensures Test(RegexText("**/" + p), path) <==>
            exists k :: 0 <= k <= |path| && SegmentStart(path, k) && Test(RegexText(p), path[k..])
  {
    var q := "**/" + p;
    assert q[3..] == p;
    assert Plain(q) by {
      forall k | 0 <= k < |q| ensures q[k] in "*?." || !Meta(q[k]) {
        assert k >= 3 ==> q[k] == p[k - 3];
      }
    }
    CompiledGlobMatches(q, path);
    forall k | 0 <= k <= |path| ensures Test(RegexText(p), path[k..]) <==> GlobMatch(p, path[k..]) {
      CompiledGlobMatches(p, path[k..]);
    }
    assert path[0..] == path;
  }

  /** With a leading slash it does not. */
  lemma {:induction false} LeadingSlashIsNotSkipped()
    ensures !Test(RegexText("**/a"), "/a") && Test(RegexText("a"), "/a"[1..])
  {
    var p := "**/a";
    assert p[3..] == "a" && "/a"[1..] == "a" && "a"[1..] == "";
    assert GlobMatch("a", "a") && !GlobMatch("a", "/a") && !GlobMatch("a", "");
    assert !GlobMatch(p, "/a") by {
      assert "/a"[1] == 'a' && "/a"[2..] == "";
    }
    CompiledGlobMatches("a", "a");
    CompiledGlobMatches(p, "/a");
  }
}
