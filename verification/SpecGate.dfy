/** The gate on unfinished specs.  A spec is held back when it contains the
    placeholder marker, or when the value of an envelope bullet is tentative.  The
    second test reads the whole text with one regular expression, in which blanks and
    line ends may stand between a dash, a field's tag and its value. */
module SpecGate {
  import opened Base
  import opened Text
  import opened Lines
  import opened SpecFixes
  import opened SpecNormalizer
  import RepairGuard

  // ---------------------------------------------------------------------
  // The test

  /** A text cut at every line terminator. */
  function Pieces(s: string): (r: seq<string>)
    ensures r != []
  {
    if s == "" then [""]
    else
      var rest := Pieces(s[1..]);
      if IsLineTerminator(s[0]) then [""] + rest else [[s[0]] + rest[0]] + rest[1..]
  }

  /** The pieces that are not blank, trimmed: the expression skips the others, and
      blanks at the ends of a piece, wherever it may meet them. */
  function Trimmed(pieces: seq<string>): seq<string> {
    if pieces == [] then []
    else if Trim(pieces[0]) == "" then Trimmed(pieces[1..])
    else [Trim(pieces[0])] + Trimmed(pieces[1..])
  }

  function Texts(s: string): seq<string> {
    Trimmed(Pieces(s))
  }

  predicate StartsFolded(t: string, tag: string) {
    |tag| <= |t| && Upper(t[..|tag|]) == Upper(tag)
  }

  function Tag(field: string): string {
    "**" + field + ":**"
  }

  /** What follows the tag of an envelope field. */
  function AfterTag(t: string): Option<string> {
    if StartsFolded(t, Tag("Priority")) then Some(t[|Tag("Priority")|..])
    else if StartsFolded(t, Tag("Effort")) then Some(t[|Tag("Effort")|..])
    else if StartsFolded(t, Tag("Status")) then Some(t[|Tag("Status")|..])
    else None
  }

  /** How far the expression has matched: not at all, up to a dash, or up to a tag. */
  datatype Scan = Idle | Dashed | Tagged

  function OfTag(rest: string): (Scan, Option<string>) {
    if Trim(rest) == "" then (Tagged, None) else (Idle, Some(Trim(rest)))
  }

  function OfBullet(t: string): (Scan, Option<string>) {
    if !StartsWith(t, "-") then (Idle, None)
    else
      var u := TrimStart(t[1..]);
      if u == "" then (Dashed, None)
      else
        match AfterTag(u)
        case Some(rest) => OfTag(rest)
        case None => (Idle, None)
  }

  /** One more text: how far the expression has matched then, and the value that
      completes a match. */
  function Step(scan: Scan, t: string): (Scan, Option<string>) {
    match scan
    case Idle => OfBullet(t)
    case Dashed => (match AfterTag(t) case Some(rest) => OfTag(rest) case None => OfBullet(t))
    case Tagged => (Idle, Some(t))
  }

  /** TBD as a whole word, at the start or after a space. */
  predicate TbdAt(v: string, i: int) {
    OccursAt(Upper(v), "TBD", i) && (i == 0 || IsSpace(v[i - 1])) && (i + 3 == |v| || !IsWord(v[i + 3]))
  }

  predicate Tentative(v: string) {
    (exists i :: 0 <= i <= |v| && TbdAt(v, i)) || Contains(Upper(v), "PLACEHOLDER")
  }

  function Mark(r: (Scan, Option<string>)): nat {
    if r.1.Some? && Tentative(r.1.value) then 1 else 0
  }

  /** How many tentative values the expression finds. */
  function Found(scan: Scan, texts: seq<string>): nat
    decreases |texts|
  {
    if texts == [] then 0
    else
      var r := Step(scan, texts[0]);
      Mark(r) + Found(r.0, texts[1..])
  }

  /** The tentative envelope values of a text. */
  function Unfinished(content: string): nat {
    Found(Idle, Texts(content))
  }

  predicate HasUnresolvedRepairMarkers(content: string) {
    content != "" && (Contains(content, MARKER) || Unfinished(content) > 0)
  }

  // ---------------------------------------------------------------------
  // Texts of lines

  lemma {:induction false} PiecesBreak(a: string, c: char, b: string)
    requires IsLineTerminator(c)
    ensures Pieces(a + [c] + b) == Pieces(a) + Pieces(b)
  {
    var s := a + [c] + b;
    if a == "" {
      assert s[1..] == b;
    } else {
      PiecesBreak(a[1..], c, b);
      assert s[1..] == a[1..] + [c] + b;
    }
  }

  lemma {:induction false} TrimmedAppend(p: seq<string>, q: seq<string>)
    ensures Trimmed(p + q) == Trimmed(p) + Trimmed(q)
  {
    if p == [] {
      assert p + q == q;
    } else {
      TrimmedAppend(p[1..], q);
      assert (p + q)[1..] == p[1..] + q;
    }
  }

  lemma {:induction false} TextsBreak(a: string, c: char, b: string)
    requires IsLineTerminator(c)
    ensures Texts(a + [c] + b) == Texts(a) + Texts(b)
  {
    PiecesBreak(a, c, b);
    TrimmedAppend(Pieces(a), Pieces(b));
  }

  lemma {:induction false} NoTexts()
    ensures Texts("") == []
  {
    assert Trim("") == "";
    assert [""][1..] == [];
  }

  lemma {:induction false} TextsWithoutCr(a: string)
    ensures Texts(DropCr(a)) == Texts(a)
  {
    if EndsInCr(a) {
      assert a == a[..|a| - 1] + ['\r'] + "";
      TextsBreak(a[..|a| - 1], '\r', "");
      NoTexts();
    }
  }

  function TextsOfLines(lines: seq<string>): seq<string> {
    if lines == [] then [] else Texts(lines[0]) + TextsOfLines(lines[1..])
  }

  lemma {:induction false} TextsOfSplit(s: string)
    ensures TextsOfLines(SplitLines(s)) == Texts(s)
    decreases |s|
  {
    var a, rest := FirstLineOf(s);
    if FirstLf(s) == |s| {
      SplitLast(s);
      assert [s][1..] == [];
      assert Texts(s) + [] == Texts(s);
    } else {
      SplitFirst(a, rest);
      TextsOfSplit(rest);
      TextsWithoutCr(a);
      assert a + "\n" + rest == a + ['\n'] + rest;
      TextsBreak(a, '\n', rest);
      assert ([DropCr(a)] + SplitLines(rest))[1..] == SplitLines(rest);
    }
  }

  lemma {:induction false} TextsOfJoin(lines: seq<string>)
    requires lines != []
    ensures Texts(JoinLines(lines)) == TextsOfLines(lines)
  {
    if |lines| == 1 {
      assert lines[1..] == [];
      assert Texts(lines[0]) + [] == Texts(lines[0]);
    } else {
      TextsOfJoin(lines[1..]);
      assert lines[0] + "\n" + JoinLines(lines[1..]) == lines[0] + ['\n'] + JoinLines(lines[1..]);
      TextsBreak(lines[0], '\n', JoinLines(lines[1..]));
    }
  }

  lemma {:induction false} CrlfKeepsTexts(s: string)
    ensures Texts(ToCrlf(s)) == Texts(s)
    decreases |s|
  {
    var a, rest := FirstLineOf(s);
    if FirstLf(s) == |s| {
      CrlfOfOneLine(s);
    } else {
      CrlfOfFirstLine(a, rest);
      CrlfKeepsTexts(rest);
      assert a + "\r\n" + ToCrlf(rest) == (a + ['\r'] + "") + ['\n'] + ToCrlf(rest);
      assert a + "\n" + rest == a + ['\n'] + rest;
      TextsBreak(a + ['\r'] + "", '\n', ToCrlf(rest));
      TextsBreak(a, '\r', "");
      NoTexts();
      TextsBreak(a, '\n', rest);
    }
  }

  lemma {:induction false} OnePiece(s: string)
    requires NoTerminator(s)
    ensures Pieces(s) == [s]
  {
    if s != "" {
      assert s[0] in s && forall c :: c in s[1..] ==> c in s;
      OnePiece(s[1..]);
      assert [s[0]] + s[1..] == s;
      assert [s[1..]][1..] == [];
    }
  }

  lemma {:induction false} TextsOfLine(s: string)
    requires NoTerminator(s)
    ensures Texts(s) == if Trim(s) == "" then [] else [Trim(s)]
  {
    OnePiece(s);
    assert [s][1..] == [] && Trimmed([]) == [];
  }

  // ---------------------------------------------------------------------
  // Lines on which a bullet ends

  /** A line without other line terminators that leaves nothing open: it is no bare
      dash and no envelope bullet without a value. */
  predicate Closed(line: string) {
    NoTerminator(line) && OfBullet(Trim(line)).0 == Idle
  }

  ghost predicate ClosedLines(lines: seq<string>) {
    forall k :: 0 <= k < |lines| ==> Closed(lines[k])
  }

  /** Whether the line is an envelope bullet with a tentative value. */
  function Flag(line: string): nat {
    Mark(OfBullet(Trim(line)))
  }

  function Flags(lines: seq<string>): nat {
    if lines == [] then 0 else Flag(lines[0]) + Flags(lines[1..])
  }

  /** When every bullet ends on its line, the tentative values are those of single
      lines. */
  lemma {:induction false} FoundByLine(lines: seq<string>)
    requires ClosedLines(lines)
    ensures Found(Idle, TextsOfLines(lines)) == Flags(lines)
  {
    if lines != [] {
      var rest := TextsOfLines(lines[1..]);
      assert Closed(lines[0]);
      FoundByLine(lines[1..]);
      TextsOfLine(lines[0]);
      if Trim(lines[0]) == "" {
        assert [] + rest == rest;
      } else {
        assert ([Trim(lines[0])] + rest)[1..] == rest;
      }
    }
  }

  lemma {:induction false} FlagsAppend(a: seq<string>, b: seq<string>)
    ensures Flags(a + b) == Flags(a) + Flags(b)
  {
    if a == [] {
      assert a + b == b;
    } else {
      FlagsAppend(a[1..], b);
      assert (a + b)[1..] == a[1..] + b;
    }
  }

  lemma {:induction false} FlagsOfSplice(lines: seq<string>, at: nat, removed: nat, inserted: seq<string>)
    requires at + removed <= |lines|
    ensures Flags(Splice(lines, at, removed, inserted)) + Flags(lines[at..at + removed]) ==
            Flags(lines) + Flags(inserted)
  {
    var a, x, b := lines[..at], lines[at..at + removed], lines[at + removed..];
    assert lines == a + x + b;
    FlagsAppend(a + x, b);
    FlagsAppend(a, x);
    FlagsAppend(a + inserted, b);
    FlagsAppend(a, inserted);
  }

  lemma {:induction false} OneFlag(line: string)
    ensures Flags([line]) == Flag(line)
  {
    assert [line][1..] == [];
  }

  lemma {:induction false} TwoFlags(x: string, y: string)
    ensures Flags([x, y]) == Flag(x) + Flag(y)
  {
    assert [x, y][1..] == [y];
    OneFlag(y);
  }

  // ---------------------------------------------------------------------
  // The shape of an envelope bullet

  datatype Parts = Parts(before: string, gap: string, tag: string, between: string)

  /** The parts of a line up to the value of its field. */
  predicate PartsOf(p: Parts, field: string) {
    AllSpace(p.before) && AllSpace(p.gap) && AllSpace(p.between) && Upper(p.tag) == Upper(Tag(field))
  }

  function Prefix(p: Parts): string {
    p.before + "-" + p.gap + p.tag + p.between
  }

  lemma {:induction false} TagStarts(tag: string, field: string)
    requires Upper(tag) == Upper(Tag(field))
    ensures |tag| == |Tag(field)| && |tag| >= 2 && tag[0] == '*'
  {
    assert |Upper(tag)| == |tag| && |Upper(Tag(field))| == |Tag(field)|;
    assert Upper(tag)[0] == UpperChar(tag[0]) && Upper(Tag(field))[0] == '*';
  }

  lemma {:induction false} ValueMeans(line: string, field: string)
    requires ValueOf(line, field).Some? && Trim(ValueOf(line, field).value) != ""
    ensures
      var b, n, v := TrimStart(line), |Tag(field)|, ValueOf(line, field).value;
      && StartsWith(b, "-")
      && var c := TrimStart(b[1..]);
         n <= |c| && Upper(c[..n]) == Upper(Tag(field)) && v == TrimStart(c[n..]) && v != "" && !IsSpace(v[0]) &&
         NoTerminator(v)
  {
    var rest := TrimStart(TrimStart(line)[1..])[|Tag(field)|..];
    TrimStartLemma(rest);
    var ws := TrimStartSplits(rest);
    BlankValue(ValueOf(line, field).value);
  }

  lemma {:induction false} PrefixOf(line: string, before: string, b: string, gap: string, c: string, n: nat,
                                    between: string, v: string)
    requires line == before + b && b != "" && b[0] == '-' && b[1..] == gap + c && n <= |c| && c[n..] == between + v
    ensures line == Prefix(Parts(before, gap, c[..n], between)) + v
  {
    assert b == "-" + b[1..] && c == c[..n] + c[n..];
  }

  /** A value that is not blank comes after such parts. */
  lemma {:induction false} ValueHasParts(line: string, field: string) returns (p: Parts)
    requires ValueOf(line, field).Some? && Trim(ValueOf(line, field).value) != ""
    ensures PartsOf(p, field) && line == Prefix(p) + ValueOf(line, field).value
    ensures !IsSpace(ValueOf(line, field).value[0]) && NoTerminator(ValueOf(line, field).value)
  {
    ValueMeans(line, field);
    var b, n := TrimStart(line), |Tag(field)|;
    var c := TrimStart(b[1..]);
    var before := TrimStartSplits(line);
    var gap := TrimStartSplits(b[1..]);
    var between := TrimStartSplits(c[n..]);
    p := Parts(before, gap, c[..n], between);
    PrefixOf(line, before, b, gap, c, n, between, ValueOf(line, field).value);
  }

  /** The value of nothing but blanks is one blank. */
  lemma {:induction false} BlankValue(v: string)
    ensures |v| == 1 && IsSpace(v[0]) ==> Trim(v) == ""
  {
    if |v| == 1 && IsSpace(v[0]) {
      assert v[1..] == "" && TrimStart(v) == "" && TrimEnd("") == "";
    }
  }

  lemma {:induction false} PartsGiveValue(p: Parts, field: string, v: string)
    requires PartsOf(p, field) && v != "" && !IsSpace(v[0]) && NoTerminator(v)
    ensures ValueOf(Prefix(p) + v, field) == Some(v)
  {
    var line, n := Prefix(p) + v, |Tag(field)|;
    TagStarts(p.tag, field);
    var c := p.tag + (p.between + v);
    var b := "-" + (p.gap + c);
    assert line == p.before + b;
    TrimStartDrops(p.before, b);
    assert b[1..] == p.gap + c;
    TrimStartDrops(p.gap, c);
    assert c[..n] == p.tag && c[n..] == p.between + v;
    TrimStartDrops(p.between, v);
  }

  /** What the test makes of such a line. */
  lemma {:induction false} PartsAreRead(p: Parts, field: string, v: string)
    requires PartsOf(p, field) && v != "" && !IsSpace(v[0]) && (field == "Priority" || field == "Status")
    ensures OfBullet(Trim(Prefix(p) + v)) == (Idle, Some(Trim(v)))
  {
    var raw := Trim(v);
    TrimEndKeepsFirst(v);
    TagStarts(p.tag, field);
    TrimmedLine(p, v);
    var u := p.tag + (p.between + raw);
    assert ("-" + (p.gap + u))[1..] == p.gap + u;
    TrimStartDrops(p.gap, u);
    TagIsFound(p.tag, field, p.between + raw);
    TrimStartDrops(p.between, raw);
    TrimmedEnds(v);
    TrimmedEnds(raw);
  }

  lemma {:induction false} TrimmedLine(p: Parts, v: string)
    requires AllSpace(p.before) && v != "" && !IsSpace(v[0])
    ensures Trim(Prefix(p) + v) == "-" + (p.gap + (p.tag + (p.between + Trim(v))))
  {
    var rest := "-" + p.gap + p.tag + p.between;
    TrimEndKeepsFirst(v);
    assert Prefix(p) + v == p.before + (rest + v);
    TrimStartDrops(p.before, rest + v);
    TrimEndOfConcat(rest, v);
    assert rest + Trim(v) == "-" + (p.gap + (p.tag + (p.between + Trim(v))));
  }

  lemma {:induction false} OtherTag(u: string, tag: string, other: string, i: nat)
    requires StartsFolded(u, tag) && i < |tag| && i < |other| && UpperChar(tag[i]) != UpperChar(other[i])
    ensures !StartsFolded(u, other)
  {
    assert Upper(u[..|tag|])[i] == UpperChar(u[i]) == Upper(tag)[i];
    if |other| <= |u| {
      assert Upper(u[..|other|])[i] == UpperChar(u[i]) && Upper(other)[i] == UpperChar(other[i]);
    }
  }

  lemma {:induction false} TagIsFound(tag: string, field: string, rest: string)
    requires Upper(tag) == Upper(Tag(field)) && (field == "Priority" || field == "Status")
    ensures AfterTag(tag + rest) == Some(rest)
  {
    var u := tag + rest;
    TagStarts(tag, field);
    assert u[..|tag|] == tag && u[|tag|..] == rest;
    assert StartsFolded(u, Tag(field));
    if field == "Status" {
      OtherTag(u, Tag("Status"), Tag("Priority"), 2);
      OtherTag(u, Tag("Status"), Tag("Effort"), 2);
    }
  }

  // ---------------------------------------------------------------------
  // Names are not tentative

  /** A name in capitals without the letters of TBD or PLACEHOLDER. */
  predicate PlainName(name: string) {
    name != "" && IsUpper(name[0]) &&
    (forall c :: c in name ==> IsUpper(c) || IsDigit(c) || c == '-' || c == '_') &&
    ('T' !in name || 'B' !in name) && ('P' !in name || 'H' !in name || 'D' !in name)
  }

  lemma {:induction false} CharsOf(s: string, p: string, i: int, c: char)
    requires OccursAt(s, p, i) && c in p
    ensures c in s
  {
    var k :| 0 <= k < |p| && p[k] == c;
    assert s[i..i + |p|][k] == s[i + k];
  }

  lemma {:induction false} TentativeLetters(v: string)
    requires Tentative(v)
    ensures ('T' in Upper(v) && 'B' in Upper(v)) || ('P' in Upper(v) && 'H' in Upper(v) && 'D' in Upper(v))
  {
    if i :| 0 <= i <= |v| && TbdAt(v, i) {
      CharsOf(Upper(v), "TBD", i, 'T');
      CharsOf(Upper(v), "TBD", i, 'B');
    } else {
      var i :| 0 <= i <= |Upper(v)| && OccursAt(Upper(v), "PLACEHOLDER", i);
      CharsOf(Upper(v), "PLACEHOLDER", i, 'P');
      CharsOf(Upper(v), "PLACEHOLDER", i, 'H');
      CharsOf(Upper(v), "PLACEHOLDER", i, 'D');
    }
  }

  lemma {:induction false} PlainIsFirm(name: string)
    requires PlainName(name)
    ensures !Tentative(name) && Trim(name) == name && NoTerminator(name)
  {
    assert Upper(name) == name by {
      forall k | 0 <= k < |name| ensures UpperChar(name[k]) == name[k] {
        assert name[k] in name;
      }
    }
    assert name[|name| - 1] in name;
    TrimmedEnds(name);
    if Tentative(name) {
      TentativeLetters(name);
    }
  }

  predicate IsName(x: string) {
    IsPriority(x) || IsOpenStatus(x) || IsLateStatus(x)
  }

  predicate IsPriority(x: string) {
    x == "P0-CRITICAL" || x == "P1-HIGH" || x == "P2-MEDIUM" || x == "P3-LOW"
  }

  predicate IsOpenStatus(x: string) {
    x == "BACKLOG" || x == "READY" || x == "IN_PROGRESS" || x == "BLOCKED" || x == "ON_HOLD"
  }

  predicate IsLateStatus(x: string) {
    x == "DECOMPOSED" || x == "VERIFYING" || x == "COMPLETE" || x == "VERIFIED" || x == "REJECTED"
  }

  /** The candidates stand for these names and begin with a letter. */
  predicate StandFor(candidates: seq<Candidate>) {
    forall k :: 0 <= k < |candidates| ==>
      IsName(candidates[k].1) && candidates[k].0 != "" && IsUpper(candidates[k].0[0])
  }

  lemma {:induction false} InsertByLengthStands(c: Candidate, sorted: seq<Candidate>)
    requires StandFor(sorted) && IsName(c.1) && c.0 != "" && IsUpper(c.0[0])
    ensures StandFor(InsertByLength(c, sorted))
  {
    if sorted != [] && |sorted[0].0| >= |c.0| {
      InsertByLengthStands(c, sorted[1..]);
    }
  }

  lemma {:induction false} LongestFirstStands(candidates: seq<Candidate>)
    requires StandFor(candidates)
    ensures StandFor(LongestFirst(candidates))
  {
    if candidates != [] {
      var n := |candidates| - 1;
      LongestFirstStands(candidates[..n]);
      InsertByLengthStands(candidates[n], LongestFirst(candidates[..n]));
    }
  }

  /** A leading token stands for a name, and the value starts with a letter. */
  lemma {:induction false} FirstTokenStands(trimmed: string, candidates: seq<Candidate>)
    requires StandFor(candidates) && FirstToken(trimmed, candidates).Some?
    ensures IsName(FirstToken(trimmed, candidates).value)
    ensures trimmed != "" && IsUpper(UpperChar(trimmed[0]))
  {
    var name := candidates[0].0;
    if StartsWith(Upper(trimmed), name) && IsAdminSuffix(trimmed[|name|..]) {
      assert Upper(trimmed)[0] == name[0];
    } else {
      FirstTokenStands(trimmed, candidates[1..]);
    }
  }

  lemma {:induction false} TokenStands(raw: string, candidates: seq<Candidate>)
    requires StandFor(candidates) && ExtractLeadingToken(raw, candidates).Some?
    ensures PlainName(ExtractLeadingToken(raw, candidates).value)
    ensures Trim(raw) != "" && IsUpper(UpperChar(Trim(raw)[0]))
  {
    LongestFirstStands(candidates);
    FirstTokenStands(Trim(raw), LongestFirst(candidates));
    NamesPlain(ExtractLeadingToken(raw, candidates).value);
  }

  lemma {:induction false} HighNamesPlain()
    ensures PlainName("P0-CRITICAL") && PlainName("P1-HIGH")
  {
  }

  lemma {:induction false} LowNamesPlain()
    ensures PlainName("P2-MEDIUM") && PlainName("P3-LOW")
  {
  }

  lemma {:induction false} OpenNamesPlain()
    ensures PlainName("BACKLOG") && PlainName("READY") && PlainName("IN_PROGRESS")
  {
  }

  lemma {:induction false} HeldNamesPlain()
    ensures PlainName("BLOCKED") && PlainName("ON_HOLD") && PlainName("DECOMPOSED")
  {
  }

  lemma {:induction false} ReviewNamesPlain()
    ensures PlainName("VERIFYING") && PlainName("COMPLETE")
  {
  }

  lemma {:induction false} ClosedNamesPlain()
    ensures PlainName("VERIFIED") && PlainName("REJECTED")
  {
  }

  lemma {:induction false} NamesPlain(x: string)
    requires IsName(x)
    ensures PlainName(x)
  {
    HighNamesPlain();
    LowNamesPlain();
    OpenNamesPlain();
    HeldNamesPlain();
    ReviewNamesPlain();
    ClosedNamesPlain();
  }

  lemma {:induction false} PrioritiesStand()
    ensures StandFor(PRIORITIES)
  {
  }

  lemma {:induction false} StatusesStand()
    ensures StandFor(STATUSES) && StandFor(STATUS_ALIASES)
    ensures StandFor(EXTENDED_STATUS_ALIASES)
  {
  }
}
