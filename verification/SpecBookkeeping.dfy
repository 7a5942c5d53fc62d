/** Which writes to a spec leave the artifacts built from it consumable, told from the
    shapes of the lines: the Status, Status-Note and Repaired bullets of an unfenced
    Metadata section may change, no other bullet may. */
module SpecBookkeeping {
  import opened Base
  import opened Text
  import opened Lines
  import opened Words
  import opened SpecContract
  import opened SpecIdentity
  import SpecFixes

  // ---------------------------------------------------------------------
  // The shapes of lines

  ghost predicate FenceShape(line: string) {
    exists ws, rest :: AllSpace(ws) && (line == ws + ("```" + rest) || line == ws + ("~~~" + rest))
  }

  predicate Hashes(s: string) {
    1 <= |s| <= 6 && forall k :: 0 <= k < |s| ==> s[k] == '#'
  }

  /** One to six hashes, whitespace, and then `title`. */
  ghost predicate HeadingOf(line: string, title: string) {
    exists ws, hashes, gap ::
      AllSpace(ws) && Hashes(hashes) && gap != "" && AllSpace(gap) && line == ws + (hashes + (gap + title))
  }

  ghost predicate HeadingShape(line: string) {
    exists title :: HeadingOf(line, title)
  }

  ghost predicate MetadataShape(line: string) {
    exists word, tail :: SameButCase(word, "Metadata") && AllSpace(tail) && HeadingOf(line, word + tail)
  }

  predicate Dash(s: string) { s == "" || s == "-" }

  /** A bullet of the field, or the field without a dash. */
  ghost predicate Names(line: string, field: string) {
    exists ws, dash, gap, rest ::
      AllSpace(ws) && Dash(dash) && AllSpace(gap) && line == ws + (dash + (gap + ("**" + field + ":**" + rest)))
  }

  predicate BookkeepingField(field: string) {
    field == "Status" || field == "Status-Note" || field == "Repaired"
  }

  ghost predicate BookkeepingShape(line: string) {
    exists field :: BookkeepingField(field) && Names(line, field)
  }

  lemma {:induction false} SpacesEndIs(s: string, i: nat, e: nat)
    requires i <= e <= |s|
    ensures SpacesEnd(s, i) == e <==> (forall k :: i <= k < e ==> IsSpace(s[k])) && (e < |s| ==> !IsSpace(s[e]))
    decreases |s| - i
  {
    if i < e && IsSpace(s[i]) {
      SpacesEndIs(s, i + 1, e);
    }
  }

  /** Where the whitespace at the start of a piece ends. */
  lemma {:induction false} SpacesThen(before: string, ws: string, rest: string)
    requires AllSpace(ws) && (rest == "" || !IsSpace(rest[0]))
    ensures SpacesEnd(before + (ws + rest), |before|) == |before| + |ws|
    ensures (before + (ws + rest))[|before| + |ws|..] == rest
  {
    var s := before + (ws + rest);
    assert forall k :: |before| <= k < |before| + |ws| ==> s[k] == ws[k - |before|];
    SpacesEndIs(s, |before|, |before| + |ws|);
  }

  lemma {:induction false} SpacesSplit(s: string, i: nat) returns (ws: string)
    requires i <= |s|
    ensures var e := SpacesEnd(s, i); ws == s[i..e] && AllSpace(ws) && s[i..] == ws + s[e..]
    ensures SpacesEnd(s, i) < |s| ==> !IsSpace(s[SpacesEnd(s, i)])
  {
    var e := SpacesEnd(s, i);
    SpacesEndIs(s, i, e);
    ws := s[i..e];
    assert forall k :: 0 <= k < |ws| ==> ws[k] == s[i + k];
  }

  /** The tag at the position, in two pieces. */
  lemma {:induction false} TagAt(s: string, tag: string, i: nat)
    requires i <= |s|
    ensures OccursAt(s, tag, i) <==> exists rest :: s[i..] == tag + rest
  {
    if OccursAt(s, tag, i) {
      assert s[i..] == tag + s[i + |tag|..];
    }
    forall rest | s[i..] == tag + rest ensures OccursAt(s, tag, i) {
      assert s[i..i + |tag|] == s[i..][..|tag|];
    }
  }

  // ---------------------------------------------------------------------
  // Fences

  lemma {:induction false} FenceExactly(line: string)
    ensures IsFence(line) <==> FenceShape(line)
  {
    var i := SpacesEnd(line, 0);
    var ws := SpacesSplit(line, 0);
    TagAt(line, "```", i);
    TagAt(line, "~~~", i);
    assert line[0..] == line;
    forall ws, rest | AllSpace(ws) && (line == ws + ("```" + rest) || line == ws + ("~~~" + rest))
      ensures i == |ws| && (line[i..] == "```" + rest || line[i..] == "~~~" + rest)
    {
      var t := if line == ws + ("```" + rest) then "```" + rest else "~~~" + rest;
      SpacesThen("", ws, t);
      assert "" + (ws + t) == line;
    }
  }

  // ---------------------------------------------------------------------
  // Headings

  lemma {:induction false} HashesEndIs(s: string, i: nat, e: nat)
    requires i <= e <= |s|
    ensures HashesEnd(s, i) == e <==> (forall k :: i <= k < e ==> s[k] == '#') && (e < |s| ==> s[e] != '#')
    decreases |s| - i
  {
    if i < e && s[i] == '#' {
      HashesEndIs(s, i + 1, e);
    }
  }

  lemma {:induction false} HashesThen(ws: string, hashes: string, rest: string)
    requires Hashes(hashes) && rest != "" && IsSpace(rest[0])
    ensures HashesEnd(ws + (hashes + rest), |ws|) == |ws| + |hashes|
    ensures (ws + (hashes + rest))[|ws| + |hashes|..] == rest
  {
    var s := ws + (hashes + rest);
    assert forall k :: |ws| <= k < |ws| + |hashes| ==> s[k] == hashes[k - |ws|];
    assert s[|ws| + |hashes|] == rest[0];
    HashesEndIs(s, |ws|, |ws| + |hashes|);
  }

  /** Where the hashes of a line end, if it is a heading. */
  function AfterHashes(line: string): (e: nat)
    ensures e <= |line|
  {
    HashesEnd(line, SpacesEnd(line, 0))
  }

  lemma {:induction false} HeadingIsRead(line: string, ws: string, hashes: string, rest: string)
    requires AllSpace(ws) && Hashes(hashes) && rest != "" && IsSpace(rest[0]) && line == ws + (hashes + rest)
    ensures IsHeading(line) && line[AfterHashes(line)..] == rest
  {
    var t := hashes + rest;
    assert "" + (ws + t) == line && t[0] == hashes[0] == '#';
    SpacesThen("", ws, t);
    HashesThen(ws, hashes, rest);
    var e := |ws| + |hashes|;
    assert SpacesEnd(line, 0) == |ws| && HashesEnd(line, |ws|) == e;
    assert line[e] == line[e..][0] == rest[0];
  }

  lemma {:induction false} HashesSplit(line: string, i: nat, e: nat)
    requires i <= e <= |line| && e == HashesEnd(line, i) && 1 <= e - i <= 6
    ensures Hashes(line[i..e]) && line[i..] == line[i..e] + line[e..]
  {
    HashesEndIs(line, i, e);
    assert forall k :: 0 <= k < e - i ==> line[i..e][k] == line[i + k];
  }

  lemma {:induction false} HeadingSplits(line: string) returns (ws: string, hashes: string, rest: string)
    requires IsHeading(line)
    ensures AllSpace(ws) && Hashes(hashes) && rest != "" && IsSpace(rest[0]) && line == ws + (hashes + rest)
    ensures rest == line[AfterHashes(line)..]
  {
    var i := SpacesEnd(line, 0);
    var e := HashesEnd(line, i);
    ws := SpacesSplit(line, 0);
    hashes, rest := line[i..e], line[e..];
    HashesSplit(line, i, e);
    assert line[0..] == line;
  }

  lemma {:induction false} GapThenTitle(line: string, title: string)
    requires HeadingOf(line, title)
    ensures IsHeading(line)
    ensures exists gap :: gap != "" && AllSpace(gap) && line[AfterHashes(line)..] == gap + title
  {
    var ws, hashes, gap :|
      AllSpace(ws) && Hashes(hashes) && gap != "" && AllSpace(gap) && line == ws + (hashes + (gap + title));
    HeadingIsRead(line, ws, hashes, gap + title);
  }

  lemma {:induction false} TitleAfterGap(line: string, gap: string, title: string)
    requires IsHeading(line) && gap != "" && AllSpace(gap) && line[AfterHashes(line)..] == gap + title
    ensures HeadingOf(line, title)
  {
    var ws, hashes, rest := HeadingSplits(line);
    assert line == ws + (hashes + (gap + title));
  }

  lemma {:induction false} HeadingExactly(line: string)
    ensures IsHeading(line) <==> HeadingShape(line)
  {
    if IsHeading(line) {
      var ws, hashes, rest := HeadingSplits(line);
      assert rest == rest[..1] + rest[1..] && AllSpace(rest[..1]);
      TitleAfterGap(line, rest[..1], rest[1..]);
    } else if HeadingShape(line) {
      var title :| HeadingOf(line, title);
      GapThenTitle(line, title);
    }
  }

  lemma {:induction false} WordIsTrimmed(gap: string, word: string, tail: string)
    requires AllSpace(gap) && AllSpace(tail) && SameButCase(word, "Metadata")
    ensures Lower(Trim(gap + (word + tail))) == "metadata"
  {
    var m := "Metadata";
    assert m[0] == 'M' && m[7] == 'a';
    TrimIs(gap, word, tail);
    assert gap + word + tail == gap + (word + tail);
    assert Lower(m) == "metadata";
    LowerFoldsCase(word, m);
  }

  lemma {:induction false} MetadataExactly(line: string)
    ensures SpecContract.IsMetadataHeading(line) <==> MetadataShape(line)
  {
    if SpecContract.IsMetadataHeading(line) {
      TitleIsMetadata(line);
    } else if MetadataShape(line) {
      var word, tail :| SameButCase(word, "Metadata") && AllSpace(tail) && HeadingOf(line, word + tail);
      GapThenTitle(line, word + tail);
      var gap :| gap != "" && AllSpace(gap) && line[AfterHashes(line)..] == gap + (word + tail);
      WordIsTrimmed(gap, word, tail);
    }
  }

  lemma {:induction false} TitleIsMetadata(line: string)
    requires SpecContract.IsMetadataHeading(line)
    ensures MetadataShape(line)
  {
    var rest := line[AfterHashes(line)..];
    var gap := TrimStartSplits(rest);
    var tail := TrimEndSplits(TrimStart(rest));
    var word := Trim(rest);
    assert Lower("Metadata") == "metadata";
    LowerFoldsCase(word, "Metadata");
    assert rest == gap + (word + tail);
    TrimStartLemma(rest);
    assert gap != "" by { assert IsSpace(rest[0]); assert gap == "" ==> rest == TrimStart(rest); }
    TitleAfterGap(line, gap, word + tail);
  }

  // ---------------------------------------------------------------------
  // Bookkeeping bullets

  function TagOf(field: string): string {
    "**" + field + ":**"
  }

  /** Where a tag must stand in a line. */
  function TagStart(line: string): (j: nat)
    ensures j <= |line|
  {
    var i := SpacesEnd(line, 0);
    if i < |line| && line[i] == '-' then SpacesEnd(line, i + 1) else i
  }

  lemma {:induction false} DashIsRead(line: string, ws: string, gap: string, rest: string)
    requires AllSpace(ws) && AllSpace(gap) && rest != "" && rest[0] == '*' && line == ws + ("-" + (gap + rest))
    ensures line[TagStart(line)..] == rest
  {
    SpacesThen("", ws, "-" + (gap + rest));
    assert "" + (ws + ("-" + (gap + rest))) == line;
    var before := ws + "-";
    assert before + (gap + rest) == line;
    SpacesThen(before, gap, rest);
  }

  lemma {:induction false} TagIsRead(line: string, ws: string, dash: string, gap: string, rest: string)
    requires AllSpace(ws) && Dash(dash) && AllSpace(gap) && rest != "" && rest[0] == '*'
    requires line == ws + (dash + (gap + rest))
    ensures line[TagStart(line)..] == rest
  {
    if dash == "" {
      var both := ws + gap;
      assert line == both + rest;
      SpacesThen("", both, rest);
      assert "" + (both + rest) == line;
    } else {
      DashIsRead(line, ws, gap, rest);
    }
  }

  lemma {:induction false} DashSplits(line: string, i: nat) returns (gap: string)
    requires i < |line| && line[i] == '-'
    ensures AllSpace(gap) && line[i..] == "-" + (gap + line[SpacesEnd(line, i + 1)..])
  {
    gap := SpacesSplit(line, i + 1);
    assert line[i..] == "-" + line[i + 1..];
  }

  lemma {:induction false} TagSplits(line: string) returns (ws: string, dash: string, gap: string)
    ensures AllSpace(ws) && Dash(dash) && AllSpace(gap) && line == ws + (dash + (gap + line[TagStart(line)..]))
  {
    var i := SpacesEnd(line, 0);
    ws := SpacesSplit(line, 0);
    assert line[0..] == line;
    if i < |line| && line[i] == '-' {
      dash := "-";
      gap := DashSplits(line, i);
    } else {
      dash, gap := "", "";
      assert "" + ("" + line[i..]) == line[i..];
    }
  }

  lemma {:induction false} NamesExactly(line: string, field: string)
    ensures OccursAt(line, TagOf(field), TagStart(line)) <==> Names(line, field)
  {
    var tag, j := TagOf(field), TagStart(line);
    TagAt(line, tag, j);
    if OccursAt(line, tag, j) {
      var ws, dash, gap := TagSplits(line);
      var rest :| line[j..] == tag + rest;
      assert line == ws + (dash + (gap + (tag + rest)));
    }
    forall ws, dash, gap, rest |
      AllSpace(ws) && Dash(dash) && AllSpace(gap) && line == ws + (dash + (gap + (tag + rest)))
      ensures line[j..] == tag + rest
    {
      TagIsRead(line, ws, dash, gap, tag + rest);
    }
  }

  lemma {:induction false} BookkeepingExactly(line: string)
    ensures IsOperational(line) <==> BookkeepingShape(line)
  {
    NamesExactly(line, "Status");
    NamesExactly(line, "Status-Note");
    NamesExactly(line, "Repaired");
    OperationalTags(line);
  }

  lemma {:induction false} OperationalTags(line: string)
    ensures IsOperational(line) <==>
            exists field :: BookkeepingField(field) && OccursAt(line, TagOf(field), TagStart(line))
  {
    assert TagOf("Status") == "**Status:**" && TagOf("Status-Note") == "**Status-Note:**";
    assert TagOf("Repaired") == "**Repaired:**";
    assert BookkeepingField("Status") && BookkeepingField("Status-Note") && BookkeepingField("Repaired");
  }

  // ---------------------------------------------------------------------
  // The open Metadata section

  /** How many of the first `n` lines are fences. */
  ghost function FenceCount(lines: seq<string>, n: nat): nat
    requires n <= |lines|
  {
    if n == 0 then 0 else FenceCount(lines, n - 1) + if FenceShape(lines[n - 1]) then 1 else 0
  }

  /** After these lines one is outside fences, and the last heading outside fences is a
      Metadata heading. */
  ghost predicate OpenMetadata(lines: seq<string>) {
    FenceCount(lines, |lines|) % 2 == 0 && exists h :: OpenedAt(lines, h)
  }

  ghost predicate OpenedAt(lines: seq<string>, h: int) {
    0 <= h < |lines| && MetadataShape(lines[h]) && FenceCount(lines, h) % 2 == 0 &&
    forall k :: h < k < |lines| && HeadingShape(lines[k]) ==> FenceCount(lines, k) % 2 == 1
  }

  lemma {:induction false} FenceCountExactly(lines: seq<string>, n: nat)
    requires n <= |lines|
    ensures FenceCount(lines, n) == FencesBefore(Kinds(lines), n)
  {
    if n > 0 {
      FenceCountExactly(lines, n - 1);
      FenceExactly(lines[n - 1]);
      KindsAreExclusive(lines[n - 1]);
    }
  }

  lemma {:induction false} OpensExactly(lines: seq<string>, k: nat)
    requires k < |lines|
    ensures OpensSection(Kinds(lines), k) <==> HeadingShape(lines[k]) && FenceCount(lines, k) % 2 == 0
    ensures Kinds(lines)[k] == MetadataHeading <==> MetadataShape(lines[k])
  {
    HeadingExactly(lines[k]);
    MetadataExactly(lines[k]);
    KindsAreExclusive(lines[k]);
    FenceCountExactly(lines, k);
  }

  lemma {:induction false} MetadataOpens(line: string)
    requires MetadataShape(line)
    ensures HeadingShape(line)
  {
    var word, tail :| SameButCase(word, "Metadata") && AllSpace(tail) && HeadingOf(line, word + tail);
  }

  lemma {:induction false} OpenedExactly(lines: seq<string>, h: nat)
    requires h < |lines|
    ensures MetadataOpenedAt(Kinds(lines), h, |lines|) <==> OpenedAt(lines, h)
  {
    var ks := Kinds(lines);
    forall k | 0 <= k < |lines|
      ensures OpensSection(ks, k) <==> HeadingShape(lines[k]) && FenceCount(lines, k) % 2 == 0
    {
      OpensExactly(lines, k);
    }
    OpensExactly(lines, h);
    if MetadataShape(lines[h]) {
      MetadataOpens(lines[h]);
    }
  }

  lemma {:induction false} OpenExactly(lines: seq<string>)
    ensures EndsInMetadata(lines) <==> OpenMetadata(lines)
  {
    var ks := Kinds(lines);
    FenceCountExactly(lines, |lines|);
    forall h | 0 <= h < |lines| ensures MetadataOpenedAt(ks, h, |lines|) <==> OpenedAt(lines, h) {
      OpenedExactly(lines, h);
    }
    if OpenMetadata(lines) {
      var h :| OpenedAt(lines, h);
      assert MetadataOpenedAt(ks, h, |lines|);
    }
  }

  // ---------------------------------------------------------------------
  // Bookkeeping lines may change

  lemma {:induction false} FirstOut(a: seq<string>, x: seq<string>, b: seq<string>)
    requires x != []
    ensures a + x + b == a + [x[0]] + (x[1..] + b) && a + (x[1..] + b) == a + x[1..] + b
  {
  }

  lemma {:induction false} FirstIsNeutral(a: seq<string>, x: seq<string>, b: seq<string>)
    requires OpenMetadata(a) && x != [] && BookkeepingShape(x[0])
    ensures ContractLines(a + x + b) == ContractLines(a + x[1..] + b)
  {
    OpenExactly(a);
    BookkeepingExactly(x[0]);
    KindsAreExclusive(x[0]);
    OperationalLineIsNeutral(a, x[0], x[1..] + b);
    FirstOut(a, x, b);
  }

  lemma {:induction false} BookkeepingLinesAreNeutral(a: seq<string>, x: seq<string>, b: seq<string>)
    requires OpenMetadata(a) && forall k :: 0 <= k < |x| ==> BookkeepingShape(x[k])
    ensures ContractLines(a + x + b) == ContractLines(a + b)
    decreases |x|
  {
    if x == [] {
      assert a + x + b == a + b;
    } else {
      FirstIsNeutral(a, x, b);
      BookkeepingLinesAreNeutral(a, x[1..], b);
    }
  }

  lemma {:induction false} SameContractMatches(hash: Hash, stamped: string, now: string, versioned: bool)
    requires Faithful(hash) && ContractLines(SplitLines(stamped)) == ContractLines(SplitLines(now))
    ensures Verdict(hash, stamped, now, versioned) == Match(stamped != now)
  {
    ContractsEqualExactly(stamped, now);
  }

  /** The verdict on an artifact that was built from the text it is stamped with. */
  function Verdict(hash: Hash, stamped: string, now: string, versioned: bool): SpecIdentity.Verdict {
    CompareSpecIdentity(ComputeSpecIdentity(hash, stamped, Some(stamped), None),
                        ComputeSpecIdentity(hash, now, None, None), versioned)
  }

  /** Replacing any Status, Status-Note and Repaired bullets of an open Metadata section
      by any others leaves a stamped artifact consumable. */
  lemma {:induction false} BookkeepingStaysConsumable(hash: Hash, stamped: string, now: string, versioned: bool,
                                                      a: seq<string>, x: seq<string>, y: seq<string>, b: seq<string>)
    requires Faithful(hash) && OpenMetadata(a)
    requires forall k :: 0 <= k < |x| ==> BookkeepingShape(x[k])
    requires forall k :: 0 <= k < |y| ==> BookkeepingShape(y[k])
    requires SplitLines(stamped) == a + x + b && SplitLines(now) == a + y + b
    ensures Verdict(hash, stamped, now, versioned) == Match(stamped != now)
  {
    BookkeepingLinesAreNeutral(a, x, b);
    BookkeepingLinesAreNeutral(a, y, b);
    SameContractMatches(hash, stamped, now, versioned);
  }

  // ---------------------------------------------------------------------
  // One bullet, exactly

  predicate Blanks(s: string) {
    forall k :: 0 <= k < |s| ==> s[k] == ' ' || s[k] == '\t'
  }

  /** Equal up to blanks at the end. */
  ghost predicate BlanksApart(v: string, w: string) {
    exists core, s, t :: Blanks(s) && Blanks(t) && v == core + s && w == core + t
  }

  lemma {:induction false} TrimBlanksDrops(core: string, s: string)
    requires Blanks(s)
    ensures TrimBlanks(core + s) == TrimBlanks(core)
    decreases |s|
  {
    if s == "" {
      assert core + s == core;
    } else {
      assert (core + s)[..|core + s| - 1] == core + s[..|s| - 1];
      TrimBlanksDrops(core, s[..|s| - 1]);
    }
  }

  lemma {:induction false} TrimBlanksSplits(v: string) returns (s: string)
    ensures Blanks(s) && v == TrimBlanks(v) + s
  {
    s := "";
    if v != "" && (v[|v| - 1] == ' ' || v[|v| - 1] == '\t') {
      s := TrimBlanksSplits(v[..|v| - 1]);
      s := s + [v[|v| - 1]];
    }
  }

  lemma {:induction false} BlanksApartExactly(v: string, w: string)
    ensures TrimBlanks(v) == TrimBlanks(w) <==> BlanksApart(v, w)
  {
    var s := TrimBlanksSplits(v);
    var t := TrimBlanksSplits(w);
    if BlanksApart(v, w) {
      var core, s, t :| Blanks(s) && Blanks(t) && v == core + s && w == core + t;
      TrimBlanksDrops(core, s);
      TrimBlanksDrops(core, t);
    }
  }

  /** Blanks behind a value are blanks behind its line. */
  lemma {:induction false} BlanksOfLine(start: string, v: string, w: string)
    ensures BlanksApart(start + v, start + w) <==> BlanksApart(v, w)
  {
    BlanksApartExactly(v, w);
    BlanksApartExactly(start + v, start + w);
    TrimBlanksOfLine(start, v);
    TrimBlanksOfLine(start, w);
    var s := TrimBlanksSplits(start);
    var p, q := TrimBlanks(v), TrimBlanks(w);
    assert |TrimBlanks(start)| <= |start|;
    if p != "" && q != "" && start + p == start + q {
      assert p == (start + p)[|start|..] == (start + q)[|start|..] == q;
    }
  }

  lemma {:induction false} TrimBlanksOfLine(start: string, v: string)
    ensures TrimBlanks(start + v) == if TrimBlanks(v) == "" then TrimBlanks(start) else start + TrimBlanks(v)
    decreases |v|
  {
    if v == "" {
      assert start + v == start;
    } else if v[|v| - 1] == ' ' || v[|v| - 1] == '\t' {
      assert (start + v)[..|start + v| - 1] == start + v[..|v| - 1];
      TrimBlanksOfLine(start, v[..|v| - 1]);
    }
  }

  lemma {:induction false} SameTag(f: string, g: string, s: string, t: string)
    requires ':' !in f && ':' !in g && TagOf(f) + s == TagOf(g) + t
    ensures f == g
  {
    var x := TagOf(f) + s;
    assert x[2 + |f|] == ':' && x[2 + |g|] == ':';
    assert forall k :: 0 <= k < |f| ==> x[2 + k] == f[k];
    assert forall k :: 0 <= k < |g| ==> x[2 + k] == g[k];
    assert |f| == |g|;
  }

  lemma {:induction false} BulletIs(field: string, v: string)
    ensures SpecFixes.Bullet(field, v) == "" + ("-" + (" " + (TagOf(field) + (" " + v))))
  {
  }

  lemma {:induction false} BulletTag(field: string, v: string)
    ensures SpecFixes.Bullet(field, v)[TagStart(SpecFixes.Bullet(field, v))..] == TagOf(field) + (" " + v)
  {
    BulletIs(field, v);
    DashIsRead(SpecFixes.Bullet(field, v), "", " ", TagOf(field) + (" " + v));
  }

  /** A bullet names its own field and no other. */
  lemma {:induction false} BulletNames(field: string, v: string, other: string)
    requires ':' !in field && ':' !in other
    ensures Names(SpecFixes.Bullet(field, v), other) <==> other == field
  {
    var line := SpecFixes.Bullet(field, v);
    BulletTag(field, v);
    NamesExactly(line, other);
    TagAt(line, TagOf(other), TagStart(line));
    if Names(line, other) {
      var rest :| line[TagStart(line)..] == TagOf(other) + rest;
      SameTag(field, other, " " + v, rest);
    }
  }

  /** Exactly the bullets of Status, Status-Note and Repaired are bookkeeping. */
  lemma {:induction false} BulletIsBookkeepingExactly(field: string, v: string)
    requires ':' !in field
    ensures IsOperational(SpecFixes.Bullet(field, v)) <==>
            field == "Status" || field == "Status-Note" || field == "Repaired"
  {
    BookkeepingExactly(SpecFixes.Bullet(field, v));
    BulletNames(field, v, "Status");
    BulletNames(field, v, "Status-Note");
    BulletNames(field, v, "Repaired");
    assert forall f :: BookkeepingField(f) <==> f == "Status" || f == "Status-Note" || f == "Repaired";
  }

  lemma {:induction false} BulletStart(field: string, v: string)
    ensures SpacesEnd(SpecFixes.Bullet(field, v), 0) == 0 && SpecFixes.Bullet(field, v)[0] == '-'
  {
    assert SpecFixes.Bullet(field, v)[0] == '-';
  }

  lemma {:induction false} BulletKind(field: string, v: string)
    requires ':' !in field
    ensures KindOf(SpecFixes.Bullet(field, v)) == if BookkeepingField(field) then Operational else SpecContract.Plain
  {
    var line := SpecFixes.Bullet(field, v);
    BulletIsBookkeepingExactly(field, v);
    BulletStart(field, v);
    KindsAreExclusive(line);
    if IsFence(line) {
      FenceStart(line);
    }
    if IsHeading(line) {
      HeadingStart(line);
    }
  }

  /** A line is dropped by what stands before it. */
  lemma {:induction false} DroppedAfter(a: seq<string>, x: string, b: seq<string>)
    ensures Dropped(Kinds(a + [x] + b), |a|) <==> KindOf(x) == Operational && OpenMetadata(a)
  {
    var ks := Kinds(a + [x] + b);
    OpenExactly(a);
    KindsAround(a, x, b, KindOf(x));
    DroppedByState(ks, |a|);
    assert ks[..|a|] == Kinds(a) == Kinds(a)[..|a|];
    StateOfPrefix(ks, Kinds(a), |a|);
    StateMeans(Kinds(a), |a|);
  }

  lemma {:induction false} KeptAlike(lines: seq<string>, i: nat, x: string, ks: seq<Kind>, n: nat)
    requires i < |lines| == |ks| && n <= |lines| && TrimBlanks(x) == TrimBlanks(lines[i])
    ensures Kept(lines[i := x], ks, n) == Kept(lines, ks, n)
  {
    if n > 0 {
      KeptAlike(lines, i, x, ks, n - 1);
    }
  }

  lemma {:induction false} SpliceIsUpdate(a: seq<string>, x: string, y: string, b: seq<string>)
    ensures a + [y] + b == (a + [x] + b)[|a| := y]
    ensures (a + [x] + b)[|a|] == x && (a + [y] + b)[|a|] == y && |a + [x] + b| == |a + [y] + b| > |a|
  {
  }

  lemma {:induction false} DroppedMaySwap(a: seq<string>, x: string, y: string, b: seq<string>)
    requires KindOf(x) == KindOf(y) == Operational && OpenMetadata(a)
    ensures ContractLines(a + [x] + b) == ContractLines(a + [y] + b)
  {
    OpenExactly(a);
    OperationalLineIsNeutral(a, x, b);
    OperationalLineIsNeutral(a, y, b);
  }

  lemma {:induction false} BlankTailMaySwap(a: seq<string>, x: string, y: string, b: seq<string>)
    requires KindOf(x) == KindOf(y) && TrimBlanks(x) == TrimBlanks(y)
    ensures ContractLines(a + [x] + b) == ContractLines(a + [y] + b)
  {
    var before := a + [x] + b;
    SpliceIsUpdate(a, x, y, b);
    SameKinds(a, x, y, b);
    KeptAlike(before, |a|, y, Kinds(before), |before|);
  }

  lemma {:induction false} KeptMayNotSwap(a: seq<string>, x: string, y: string, b: seq<string>)
    requires KindOf(x) == KindOf(y) && !(KindOf(x) == Operational && OpenMetadata(a))
    requires TrimBlanks(x) != TrimBlanks(y)
    ensures ContractLines(a + [x] + b) != ContractLines(a + [y] + b)
  {
    SpliceIsUpdate(a, x, y, b);
    DroppedAfter(a, x, b);
    DroppedAfter(a, y, b);
    AmendmentMovesContract(a + [x] + b, a + [y] + b, |a|);
  }

  /** Rewriting a bullet's value, in whatever surroundings, moves the contract exactly
      when it is no bookkeeping bullet of an open Metadata section and the values differ
      by more than blanks at the end. */
  lemma {:induction false} BulletMovesExactly(a: seq<string>, field: string, v: string, w: string, b: seq<string>)
    requires ':' !in field
    ensures
      ContractLines(a + [SpecFixes.Bullet(field, v)] + b) == ContractLines(a + [SpecFixes.Bullet(field, w)] + b) <==>
        (BookkeepingField(field) && OpenMetadata(a)) || BlanksApart(v, w)
  {
    var x, y := SpecFixes.Bullet(field, v), SpecFixes.Bullet(field, w);
    BulletKind(field, v);
    BulletKind(field, w);
    BlanksOfBullet(field, v, w);
    BlanksApartExactly(x, y);
    if KindOf(x) == Operational && OpenMetadata(a) {
      DroppedMaySwap(a, x, y, b);
    } else if TrimBlanks(x) == TrimBlanks(y) {
      BlankTailMaySwap(a, x, y, b);
    } else {
      KeptMayNotSwap(a, x, y, b);
    }
  }

  lemma {:induction false} SameKinds(a: seq<string>, x: string, y: string, b: seq<string>)
    requires KindOf(x) == KindOf(y)
    ensures Kinds(a + [x] + b) == Kinds(a + [y] + b)
  {
  }


  lemma {:induction false} BlanksOfBullet(field: string, v: string, w: string)
    ensures BlanksApart(SpecFixes.Bullet(field, v), SpecFixes.Bullet(field, w)) <==> BlanksApart(v, w)
  {
    var start := "- **" + field + ":** ";
    assert SpecFixes.Bullet(field, v) == start + v && SpecFixes.Bullet(field, w) == start + w;
    BlanksOfLine(start, v, w);
  }

  /** The verdict on a stamped artifact after one bullet of its spec was rewritten. */
  lemma {:induction false} BulletWriteExactly(hash: Hash, stamped: string, now: string, versioned: bool,
                                              a: seq<string>, field: string, v: string, w: string, b: seq<string>)
    requires Faithful(hash) && ':' !in field
    requires SplitLines(stamped) == a + [SpecFixes.Bullet(field, v)] + b
    requires SplitLines(now) == a + [SpecFixes.Bullet(field, w)] + b
    ensures
      var bookkeeping := field == "Status" || field == "Status-Note" || field == "Repaired";
      Verdict(hash, stamped, now, versioned) ==
        if (bookkeeping && OpenMetadata(a)) || BlanksApart(v, w) then Match(stamped != now) else Stale
  {
    BulletMovesExactly(a, field, v, w, b);
    ContractsEqualExactly(stamped, now);
    if ContractLines(SplitLines(stamped)) == ContractLines(SplitLines(now)) {
      SameContractMatches(hash, stamped, now, versioned);
    } else {
      MovedIsStale(hash, stamped, now, versioned);
    }
  }
}
