/** What repairs do to the gate.  Where every bullet ends on its line, a repair that
    invents nothing takes exactly those tentative values out of the second test that
    it extracts a token from. */
module SpecGateRuns {
  import opened Base
  import opened Text
  import opened Lines
  import opened SpecFixes
  import opened SpecNormalizer
  import opened SpecGate
  import RepairGuard
  import SpecReturns

  // ---------------------------------------------------------------------
  // Lines that the fixes write

  lemma {:induction false} NotTag(u: string, tag: string, i: nat)
    requires i < |u| && i < |tag| && UpperChar(u[i]) != UpperChar(tag[i])
    ensures !StartsFolded(u, tag)
  {
    if |tag| <= |u| {
      assert Upper(u[..|tag|])[i] == UpperChar(u[i]) && Upper(tag)[i] == UpperChar(tag[i]);
    }
  }

  lemma {:induction false} TrimEndKeepsPrefix(a: string, b: string)
    requires a != "" && !IsSpace(a[|a| - 1])
    ensures a <= TrimEnd(a + b)
    decreases |b|
  {
    if b == "" {
      assert a + b == a;
    } else if IsSpace(b[|b| - 1]) {
      assert (a + b)[..|a + b| - 1] == a + b[..|b| - 1];
      TrimEndKeepsPrefix(a, b[..|b| - 1]);
    }
  }

  lemma {:induction false} BulletStart(field: string, text: string) returns (rest: string)
    ensures Trim(Bullet(field, text)) == "- " + Tag(field) + rest
  {
    var start := "- " + Tag(field);
    assert Bullet(field, text) == start + (" " + text) && start[|start| - 1] == '*';
    TrimEndKeepsPrefix(start, " " + text);
    TrimEndKeepsFirst(Bullet(field, text));
    rest := Trim(Bullet(field, text))[|start|..];
  }

  /** A bullet whose field is no envelope field is read as nothing. */
  lemma {:induction false} OtherBullet(field: string, text: string)
    requires field == "Priority-Note" || field == "Status-Note" || field == "Repaired"
    ensures OfBullet(Trim(Bullet(field, text))) == (Idle, None)
  {
    var rest := BulletStart(field, text);
    var u := Tag(field) + rest;
    var t := "-" + (" " + u);
    assert "- " + Tag(field) + rest == t && t[1..] == " " + u;
    TrimStartDrops(" ", u);
    OtherTags(field, u);
  }

  lemma {:induction false} OtherTags(field: string, u: string)
    requires field == "Priority-Note" || field == "Status-Note" || field == "Repaired"
    requires StartsWith(u, Tag(field))
    ensures AfterTag(u) == None
  {
    var i := if field == "Priority-Note" then 10 else 2;
    var k := if field == "Status-Note" then 8 else 2;
    assert u[i] == Tag(field)[i] && u[k] == Tag(field)[k] && u[2] == Tag(field)[2];
    NotTag(u, Tag("Priority"), i);
    NotTag(u, Tag("Effort"), 2);
    NotTag(u, Tag("Status"), k);
  }

  lemma {:induction false} ConcatNoTerminator(a: string, b: string)
    requires NoTerminator(a) && NoTerminator(b)
    ensures NoTerminator(a + b)
  {
  }

  lemma {:induction false} OtherBulletIsClosed(field: string, text: string)
    requires field == "Priority-Note" || field == "Status-Note" || field == "Repaired"
    requires NoTerminator(text)
    ensures Closed(Bullet(field, text)) && Flag(Bullet(field, text)) == 0
  {
    OtherBullet(field, text);
    FieldNoTerminator(field);
    ConcatNoTerminator("- **" + field + ":** ", text);
  }

  lemma {:induction false} FieldNoTerminator(field: string)
    requires field == "Priority-Note" || field == "Status-Note" || field == "Repaired"
    ensures NoTerminator("- **" + field + ":** ")
  {
  }

  lemma {:induction false} SliceNoTerminator(s: string, i: nat, j: nat)
    requires i <= j <= |s| && NoTerminator(s)
    ensures NoTerminator(s[i..j])
  {
  }

  lemma {:induction false} TrimNoTerminator(s: string)
    requires NoTerminator(s)
    ensures NoTerminator(Trim(s))
  {
    var ws := TrimStartSplits(s);
    assert TrimStart(s) == s[|ws|..];
    TrimEndLemma(TrimStart(s));
    assert Trim(s) == TrimStart(s)[..|Trim(s)|];
  }

  /** A heading is no bullet. */
  lemma {:induction false} HeadingIsClosed(line: string)
    requires NoTerminator(line) && StartsWith(Trim(line), "#")
    ensures Closed(line) && Flag(line) == 0
  {
    assert Trim(line)[0] == '#' && "-"[0] == '-';
    assert !StartsWith(Trim(line), "-");
  }

  lemma {:induction false} SeparatorLine(t: string, i: nat, e: nat, p: nat)
    requires NoTerminator(t) && i <= e <= |t| && p <= |t|
    ensures var line := "# " + t[i..e] + ": " + t[p..]; Closed(line) && Flag(line) == 0
  {
    var line := "# " + t[i..e] + ": " + t[p..];
    SliceNoTerminator(t, i, e);
    SliceNoTerminator(t, p, |t|);
    ConcatNoTerminator("# ", t[i..e]);
    ConcatNoTerminator("# " + t[i..e], ": ");
    ConcatNoTerminator("# " + t[i..e] + ": ", t[p..]);
    TrimEndKeepsFirst(line);
    HeadingIsClosed(line);
  }

  lemma {:induction false} SpliceClosed(lines: seq<string>, at: nat, removed: nat, inserted: seq<string>)
    requires at + removed <= |lines| && ClosedLines(lines) && ClosedLines(inserted)
    ensures ClosedLines(Splice(lines, at, removed, inserted))
  {
  }

  /** The H1 fix changes nothing the test looks at. */
  lemma {:induction false} SeparatorFixFlags(lines: seq<string>)
    requires ClosedLines(lines) && FixH1Separator(lines).Some?
    ensures var fixed := FixH1Separator(lines).value; ClosedLines(fixed) && Flags(fixed) == Flags(lines)
  {
    var k := FindH1(lines, 0);
    var t := Trim(lines[k]);
    var i := SpacesEnd(t, 1);
    var line := "# " + t[i..HeadingIdEnd(t, i)] + ": " + t[TitleStart(t)..];
    assert Closed(lines[k]);
    TrimNoTerminator(lines[k]);
    SeparatorLine(t, i, HeadingIdEnd(t, i), TitleStart(t));
    HeadingIsClosed(lines[k]);
    ReplaceFlags(lines, k, line, []);
    assert [line] + [] == [line];
  }

  // ---------------------------------------------------------------------
  // Rewriting a value

  predicate Rewritable(field: string) {
    field == "Priority" || field == "Status"
  }

  lemma {:induction false} NotesFlags(field: string, note: Option<string>)
    requires Rewritable(field) && (note.Some? ==> NoTerminator(note.value))
    ensures ClosedLines(NoteLines(field, note)) && Flags(NoteLines(field, note)) == 0
  {
    if note.Some? {
      OtherBulletIsClosed(field + "-Note", note.value);
      OneFlag(Bullet(field + "-Note", note.value));
    }
  }

  /** The line of a value that is not blank, and the line with another value. */
  lemma {:induction false} RewrittenLine(line: string, field: string, name: string)
    requires Rewritable(field) && ValueOf(line, field).Some? && Trim(ValueOf(line, field).value) != ""
    requires NoTerminator(line) && PlainName(name)
    ensures
      var v := ValueOf(line, field).value;
      var fixed := line[..|line| - |v|] + name;
      && Flag(line) == (if Tentative(Trim(v)) then 1 else 0)
      && Closed(fixed) && Flag(fixed) == 0 && ValueOf(fixed, field) == Some(name)
  {
    var v := ValueOf(line, field).value;
    var p := ValueHasParts(line, field);
    PartsAreRead(p, field, v);
    assert line[..|line| - |v|] == Prefix(p);
    PlainIsFirm(name);
    PartsAreRead(p, field, name);
    PartsGiveValue(p, field, name);
    SliceNoTerminator(line, 0, |line| - |v|);
    ConcatNoTerminator(Prefix(p), name);
  }

  lemma {:induction false} ReplaceFlags(lines: seq<string>, k: nat, line: string, rest: seq<string>)
    requires k < |lines| && ClosedLines(lines) && Closed(line) && ClosedLines(rest)
    ensures var fixed := Splice(lines, k, 1, [line] + rest);
            ClosedLines(fixed) && Flags(fixed) + Flag(lines[k]) == Flags(lines) + Flag(line) + Flags(rest)
  {
    SpliceClosed(lines, k, 1, [line] + rest);
    FlagsOfSplice(lines, k, 1, [line] + rest);
    assert lines[k..k + 1] == [lines[k]];
    OneFlag(lines[k]);
    FlagsAppend([line], rest);
    OneFlag(line);
  }

  lemma {:induction false} RewriteFlags(lines: seq<string>, field: string, name: string, note: Option<string>)
    requires ClosedLines(lines) && Rewritable(field) && FieldValue(lines, field).Some?
    requires FieldValue(lines, field).value != "" && PlainName(name) && (note.Some? ==> NoTerminator(note.value))
    requires RewriteValue(lines, field, name, note).Some?
    ensures
      var fixed := RewriteValue(lines, field, name, note).value;
      ClosedLines(fixed) &&
      Flags(fixed) + (if Tentative(FieldValue(lines, field).value) then 1 else 0) == Flags(lines)
  {
    var k := FieldLine(lines, field).value;
    assert Closed(lines[k]);
    RewrittenLine(lines[k], field, name);
    NotesFlags(field, note);
    ReplaceFlags(lines, k, lines[k][..|lines[k]| - |ValueOf(lines[k], field).value|] + name, NoteLines(field, note));
  }

  // ---------------------------------------------------------------------
  // Values that a fix does not touch

  /** The first value of a field before the next H2. */
  function SectionValue(field: string, lines: seq<string>): Option<string> {
    if lines == [] || IsH2(lines[0]) then None
    else
      match ValueOf(lines[0], field)
      case Some(v) => Some(Trim(v))
      case None => SectionValue(field, lines[1..])
  }

  /** The first value of a field below the first Metadata heading. */
  function MetaValue(field: string, lines: seq<string>): Option<string> {
    if lines == [] then None
    else if IsMetadataHeading(lines[0]) then SectionValue(field, lines[1..])
    else MetaValue(field, lines[1..])
  }

  lemma {:induction false} SectionValueIs(lines: seq<string>, field: string, i: nat)
    requires i <= |lines|
    ensures
      var end := SectionEnd(lines, i);
      var k := FindField(lines, field, i, end);
      SectionValue(field, lines[i..]) == if k < end then Some(Trim(ValueOf(lines[k], field).value)) else None
    decreases |lines| - i
  {
    if i < |lines| {
      assert lines[i..][0] == lines[i] && lines[i..][1..] == lines[i + 1..];
      if !IsH2(lines[i]) && ValueOf(lines[i], field).None? {
        SectionValueIs(lines, field, i + 1);
      }
    }
  }

  lemma {:induction false} MetaValueIs(lines: seq<string>, field: string, i: nat)
    requires i <= |lines|
    ensures
      var h := FindMetadataHeading(lines, i);
      MetaValue(field, lines[i..]) == if h == |lines| then None else SectionValue(field, lines[h + 1..])
    decreases |lines| - i
  {
    if i < |lines| {
      assert lines[i..][0] == lines[i] && lines[i..][1..] == lines[i + 1..];
      if !IsMetadataHeading(lines[i]) {
        MetaValueIs(lines, field, i + 1);
      }
    }
  }

  lemma {:induction false} FieldValueIs(lines: seq<string>, field: string)
    ensures FieldValue(lines, field) == MetaValue(field, lines)
  {
    var h := FindMetadataHeading(lines, 0);
    MetaValueIs(lines, field, 0);
    assert lines[0..] == lines;
    if h < |lines| {
      SectionValueIs(lines, field, h + 1);
    }
  }

  /** The line has no part in finding a field's value. */
  predicate Neutral(field: string, line: string) {
    !IsMetadataHeading(line) && !IsH2(line) && ValueOf(line, field).None?
  }

  ghost predicate NeutralLines(field: string, lines: seq<string>) {
    forall k :: 0 <= k < |lines| ==> Neutral(field, lines[k])
  }

  lemma {:induction false} NeutralFirst(field: string, x: seq<string>, b: seq<string>)
    requires NeutralLines(field, x)
    ensures SectionValue(field, x + b) == SectionValue(field, b) && MetaValue(field, x + b) == MetaValue(field, b)
  {
    if x == [] {
      assert x + b == b;
    } else {
      assert Neutral(field, x[0]) && (x + b)[0] == x[0] && (x + b)[1..] == x[1..] + b;
      NeutralFirst(field, x[1..], b);
    }
  }

  lemma {:induction false} NeutralInside(field: string, a: seq<string>, x: seq<string>, b: seq<string>)
    requires NeutralLines(field, x)
    ensures SectionValue(field, a + x + b) == SectionValue(field, a + b)
    ensures MetaValue(field, a + x + b) == MetaValue(field, a + b)
  {
    if a == [] {
      assert a + x + b == x + b && a + b == b;
      NeutralFirst(field, x, b);
    } else {
      assert (a + x + b)[1..] == a[1..] + x + b && (a + b)[1..] == a[1..] + b;
      assert (a + x + b)[0] == a[0] == (a + b)[0];
      NeutralInside(field, a[1..], x, b);
    }
  }

  /** Putting neutral lines in the place of neutral ones does not move a value. */
  lemma {:induction false} SpliceKeepsValue(lines: seq<string>, field: string, at: nat, removed: nat,
                                            inserted: seq<string>)
    requires at + removed <= |lines|
    requires NeutralLines(field, lines[at..at + removed]) && NeutralLines(field, inserted)
    ensures FieldValue(Splice(lines, at, removed, inserted), field) == FieldValue(lines, field)
  {
    var a, x, b := lines[..at], lines[at..at + removed], lines[at + removed..];
    assert lines == a + x + b;
    NeutralInside(field, a, x, b);
    NeutralInside(field, a, inserted, b);
    FieldValueIs(lines, field);
    FieldValueIs(Splice(lines, at, removed, inserted), field);
  }

  lemma {:induction false} TrimStartsLike(line: string)
    requires Trim(line) != ""
    ensures TrimStart(line) != "" && TrimStart(line)[0] == Trim(line)[0]
  {
    TrimEndLemma(TrimStart(line));
  }

  /** A bullet is no heading. */
  lemma {:induction false} BulletIsNoHeading(line: string)
    requires StartsWith(Trim(line), "-")
    ensures !IsH2(line) && !IsMetadataHeading(line)
  {
    var t := Trim(line);
    assert t[0] == '-' && "## "[0] == '#' && "## metadata"[0] == '#';
    assert "## metadata ("[0] == "## metadata:"[0] == "## metadata -"[0] == '#';
    CollapseStart(Lower(t));
  }

  lemma {:induction false} CollapseStart(s: string)
    requires s != "" && !IsSpace(s[0])
    ensures RepairGuard.CollapseSpaces(s) != "" && RepairGuard.CollapseSpaces(s)[0] == s[0]
  {
  }

  /** An H1 line has no part in finding a field's value. */
  lemma {:induction false} H1IsNeutral(field: string, line: string)
    requires IsH1(line)
    ensures Neutral(field, line)
  {
    var t := Trim(line);
    assert t[0] == '#' && t[1] == ' ' && "## "[1] == '#';
    TrimStartsLike(line);
    assert "-"[0] == '-';
    SpecReturns.CollapseFirst(Lower(t)[1..]);
    assert RepairGuard.CollapseSpaces(Lower(t)) == "#" + RepairGuard.CollapseSpaces(Lower(t)[1..]);
    assert RepairGuard.CollapseSpaces(Lower(t))[1] == ' ';
    assert "## metadata"[1] == "## metadata ("[1] == "## metadata:"[1] == "## metadata -"[1] == '#';
  }

  function OtherField(field: string): string {
    if field == "Priority" then "Status" else "Priority"
  }

  lemma {:induction false} ForeignTag(c: string, tag: string, field: string)
    requires Rewritable(field) && Upper(tag) == Upper(Tag(field)) && StartsWith(c, tag)
    ensures !StartsFolded(c, Tag(OtherField(field)))
  {
    TagStarts(tag, field);
    assert c[2] == tag[2] && Upper(tag)[2] == UpperChar(tag[2]) && Upper(Tag(field))[2] == UpperChar(Tag(field)[2]);
    NotTag(c, Tag(OtherField(field)), 2);
  }

  /** A bullet of one field has no part in finding another. */
  lemma {:induction false} PartsAreNeutral(p: Parts, field: string, v: string)
    requires Rewritable(field) && PartsOf(p, field) && v != "" && !IsSpace(v[0])
    ensures Neutral(OtherField(field), Prefix(p) + v) && !IsH2(Prefix(p) + v)
  {
    var line, c := Prefix(p) + v, p.tag + (p.between + v);
    var b := "-" + (p.gap + c);
    TagStarts(p.tag, field);
    assert line == p.before + b;
    TrimStartDrops(p.before, b);
    assert b[1..] == p.gap + c;
    TrimStartDrops(p.gap, c);
    ForeignTag(c, p.tag, field);
    TrimmedLine(p, v);
    BulletIsNoHeading(line);
  }

  lemma {:induction false} ValueIsNeutral(line: string, field: string)
    requires Rewritable(field) && ValueOf(line, field).Some? && Trim(ValueOf(line, field).value) != ""
    ensures Neutral(OtherField(field), line)
  {
    var p := ValueHasParts(line, field);
    PartsAreNeutral(p, field, ValueOf(line, field).value);
  }

  lemma {:induction false} NoteIsNeutral(field: string, text: string)
    requires Rewritable(field)
    ensures Neutral(OtherField(field), Bullet(field + "-Note", text))
  {
    var line := Bullet(field + "-Note", text);
    var c := Tag(field + "-Note") + " " + text;
    assert line == "- " + c && line[1..] == " " + c;
    TrimStartDrops(" ", c);
    assert c[2] == field[0];
    NotTag(c, Tag(OtherField(field)), 2);
    TrimEndKeepsFirst(line);
    BulletIsNoHeading(line);
  }

  // ---------------------------------------------------------------------
  // Where a value is found

  /** The line is the first one of its field in the Metadata section. */
  ghost predicate FirstOfField(lines: seq<string>, field: string, h: nat, k: nat) {
    h < k < |lines| && IsMetadataHeading(lines[h]) && (forall j :: 0 <= j < h ==> !IsMetadataHeading(lines[j])) &&
    (forall j :: h < j < k ==> !IsH2(lines[j]) && ValueOf(lines[j], field).None?) &&
    !IsH2(lines[k]) && ValueOf(lines[k], field).Some?
  }

  lemma {:induction false} HeadingAt(lines: seq<string>, i: nat, h: nat)
    requires i <= h < |lines| && IsMetadataHeading(lines[h]) && forall j :: i <= j < h ==> !IsMetadataHeading(lines[j])
    ensures FindMetadataHeading(lines, i) == h
    decreases h - i
  {
    if i < h {
      HeadingAt(lines, i + 1, h);
    }
  }

  lemma {:induction false} HeadingIsFirst(lines: seq<string>, i: nat)
    requires i <= |lines|
    ensures forall j :: i <= j < FindMetadataHeading(lines, i) ==> !IsMetadataHeading(lines[j])
    decreases |lines| - i
  {
    if i < |lines| && !IsMetadataHeading(lines[i]) {
      HeadingIsFirst(lines, i + 1);
    }
  }

  lemma {:induction false} SectionPast(lines: seq<string>, i: nat, k: nat)
    requires i <= k < |lines| && forall j :: i <= j <= k ==> !IsH2(lines[j])
    ensures k < SectionEnd(lines, i)
    decreases k - i
  {
    if i < k {
      SectionPast(lines, i + 1, k);
    }
  }

  lemma {:induction false} FieldAt(lines: seq<string>, field: string, i: nat, end: nat, k: nat)
    requires i <= k < end <= |lines| && ValueOf(lines[k], field).Some?
    requires forall j :: i <= j < k ==> ValueOf(lines[j], field).None?
    ensures FindField(lines, field, i, end) == k
    decreases k - i
  {
    if i < k {
      FieldAt(lines, field, i + 1, end, k);
    }
  }

  lemma {:induction false} FieldIsFirst(lines: seq<string>, field: string, i: nat, end: nat)
    requires i <= end <= |lines|
    ensures forall j :: i <= j < FindField(lines, field, i, end) ==> ValueOf(lines[j], field).None?
    decreases end - i
  {
    if i < end && ValueOf(lines[i], field).None? {
      FieldIsFirst(lines, field, i + 1, end);
    }
  }

  lemma {:induction false} FieldLineIs(lines: seq<string>, field: string, h: nat, k: nat)
    requires FirstOfField(lines, field, h, k)
    ensures FieldLine(lines, field) == Some(k)
  {
    HeadingAt(lines, 0, h);
    SectionPast(lines, h + 1, k);
    FieldAt(lines, field, h + 1, SectionEnd(lines, h + 1), k);
  }

  lemma {:induction false} FieldLineMeans(lines: seq<string>, field: string) returns (h: nat)
    requires FieldLine(lines, field).Some?
    ensures FirstOfField(lines, field, h, FieldLine(lines, field).value)
  {
    h := FindMetadataHeading(lines, 0);
    var k := FieldLine(lines, field).value;
    FindMetadataHeadingFinds(lines, 0);
    HeadingIsFirst(lines, 0);
    SectionEndIsFirst(lines, h + 1);
    FieldIsFirst(lines, field, h + 1, SectionEnd(lines, h + 1));
  }

  function Renamed(line: string, field: string, name: string): string
    requires ValueOf(line, field).Some?
  {
    line[..|line| - |ValueOf(line, field).value|] + name
  }

  lemma {:induction false} RenamedLine(line: string, field: string, name: string)
    requires Rewritable(field) && ValueOf(line, field).Some? && Trim(ValueOf(line, field).value) != "" && PlainName(name)
    ensures var fixed := Renamed(line, field, name);
            ValueOf(fixed, field) == Some(name) && !IsH2(fixed) && Neutral(OtherField(field), fixed)
  {
    var p := ValueHasParts(line, field);
    assert line[..|line| - |ValueOf(line, field).value|] == Prefix(p);
    PlainIsFirm(name);
    PartsGiveValue(p, field, name);
    PartsAreNeutral(p, field, name);
  }

  lemma {:induction false} RewrittenIsFound(lines: seq<string>, field: string, name: string, rest: seq<string>)
    requires Rewritable(field) && FieldValue(lines, field).Some? && FieldValue(lines, field).value != ""
    requires PlainName(name)
    ensures var k := FieldLine(lines, field).value;
            FieldValue(Splice(lines, k, 1, [Renamed(lines[k], field, name)] + rest), field) == Some(name)
  {
    var k := FieldLine(lines, field).value;
    var line := Renamed(lines[k], field, name);
    var fixed := Splice(lines, k, 1, [line] + rest);
    var h := FieldLineMeans(lines, field);
    RenamedLine(lines[k], field, name);
    PlainIsFirm(name);
    assert fixed[k] == line && forall j :: 0 <= j < k ==> fixed[j] == lines[j];
    FieldLineIs(fixed, field, h, k);
  }

  lemma {:induction false} NotesAreNeutral(field: string, note: Option<string>)
    requires Rewritable(field)
    ensures NeutralLines(OtherField(field), NoteLines(field, note))
  {
    if note.Some? {
      NoteIsNeutral(field, note.value);
    }
  }

  lemma {:induction false} ReplacedKeepsValue(lines: seq<string>, field: string, k: nat, line: string, rest: seq<string>)
    requires k < |lines| && Neutral(field, lines[k]) && Neutral(field, line) && NeutralLines(field, rest)
    ensures FieldValue(Splice(lines, k, 1, [line] + rest), field) == FieldValue(lines, field)
  {
    assert lines[k..k + 1] == [lines[k]];
    SpliceKeepsValue(lines, field, k, 1, [line] + rest);
  }

  lemma {:induction false} RewriteIsNeutral(lines: seq<string>, field: string, name: string, note: Option<string>)
    requires Rewritable(field) && FieldValue(lines, field).Some? && FieldValue(lines, field).value != ""
    requires PlainName(name)
    ensures var k := FieldLine(lines, field).value;
            var inserted := [Renamed(lines[k], field, name)] + NoteLines(field, note);
            FieldValue(Splice(lines, k, 1, inserted), OtherField(field)) == FieldValue(lines, OtherField(field))
  {
    var k := FieldLine(lines, field).value;
    RenamedLine(lines[k], field, name);
    ValueIsNeutral(lines[k], field);
    NotesAreNeutral(field, note);
    ReplacedKeepsValue(lines, OtherField(field), k, Renamed(lines[k], field, name), NoteLines(field, note));
  }

  /** After a rewrite the field has its new value, and the other field its old one. */
  lemma {:induction false} RewriteValues(lines: seq<string>, field: string, name: string, note: Option<string>)
    requires Rewritable(field) && FieldValue(lines, field).Some? && FieldValue(lines, field).value != ""
    requires PlainName(name) && RewriteValue(lines, field, name, note).Some?
    ensures
      var fixed := RewriteValue(lines, field, name, note).value;
      && FieldValue(fixed, field) == Some(name)
      && FieldValue(fixed, OtherField(field)) == FieldValue(lines, OtherField(field))
  {
    RewrittenIsFound(lines, field, name, NoteLines(field, note));
    RewriteIsNeutral(lines, field, name, note);
  }

  lemma {:induction false} SeparatorIsH1(t: string, i: nat, e: nat, p: nat)
    requires NoSpaceAtEnds(t) && i <= e <= |t| && p < |t|
    ensures IsH1("# " + t[i..e] + ": " + t[p..])
  {
    var line := "# " + t[i..e] + ": " + t[p..];
    assert line[|line| - 1] == t[|t| - 1];
    TrimmedEnds(line);
  }

  lemma {:induction false} SeparatorFixValues(lines: seq<string>, field: string)
    requires FixH1Separator(lines).Some?
    ensures FieldValue(FixH1Separator(lines).value, field) == FieldValue(lines, field)
  {
    var k := FindH1(lines, 0);
    var t := Trim(lines[k]);
    var i := SpacesEnd(t, 1);
    var line := "# " + t[i..HeadingIdEnd(t, i)] + ": " + t[TitleStart(t)..];
    TrimmedEnds(lines[k]);
    SeparatorIsH1(t, i, HeadingIdEnd(t, i), TitleStart(t));
    H1IsNeutral(field, line);
    H1IsNeutral(field, lines[k]);
    ReplacedKeepsValue(lines, field, k, line, []);
    assert [line] + [] == [line];
  }

  // ---------------------------------------------------------------------
  // The fixes that invent nothing

  ghost predicate TentativeField(lines: seq<string>, field: string) {
    FieldValue(lines, field).Some? && Tentative(FieldValue(lines, field).value)
  }

  /** A priority that holds a token is replaced by the token's name. */
  lemma {:induction false} ExtractionEffect(lines: seq<string>)
    requires ClosedLines(lines) && FixPriority(lines).Some? && FixPriority(lines).value.1 == PriorityExtracted
    ensures
      var fixed := FixPriority(lines).value.0;
      && ExtractLeadingToken(FieldValue(lines, "Priority").value, PRIORITIES).Some?
      && ClosedLines(fixed) && !TentativeField(fixed, "Priority")
      && Flags(fixed) + (if TentativeField(lines, "Priority") then 1 else 0) == Flags(lines)
      && FieldValue(fixed, "Status") == FieldValue(lines, "Status")
  {
    var raw := FieldValue(lines, "Priority").value;
    var name := ExtractLeadingToken(raw, PRIORITIES).value;
    var note := if Upper(raw) == name then None else Some(Normalized("priority", raw, name));
    PrioritiesStand();
    TokenStands(raw, PRIORITIES);
    TokenMeansValue(raw);
    FieldValueNoTerminator(lines, "Priority");
    PlainIsFirm(name);
    NormalizedNoTerminator("priority", raw, name);
    RewriteFlags(lines, "Priority", name, note);
    RewriteValues(lines, "Priority", name, note);
  }

  lemma {:induction false} TokenMeansValue(raw: string)
    ensures raw == "" ==> Trim(raw) == ""
  {
  }

  lemma {:induction false} FieldValueNoTerminator(lines: seq<string>, field: string)
    requires ClosedLines(lines) && FieldValue(lines, field).Some? && FieldValue(lines, field).value != ""
    ensures NoTerminator(FieldValue(lines, field).value)
  {
    var k := FieldLine(lines, field).value;
    var p := ValueHasParts(lines[k], field);
    TrimNoTerminator(ValueOf(lines[k], field).value);
  }

  lemma {:induction false} NormalizedNoTerminator(what: string, raw: string, name: string)
    requires (what == "priority" || what == "status") && NoTerminator(raw) && NoTerminator(name)
    ensures NoTerminator(Normalized(what, raw, name))
  {
    ConcatNoTerminator("original " + what + " \"", raw);
    ConcatNoTerminator("original " + what + " \"" + raw, "\" normalized to ");
    ConcatNoTerminator("original " + what + " \"" + raw + "\" normalized to ", name);
    ConcatNoTerminator("original " + what + " \"" + raw + "\" normalized to " + name, " by spec repair");
  }

  lemma {:induction false} AppendedStand(a: seq<Candidate>, b: seq<Candidate>)
    requires StandFor(a) && StandFor(b)
    ensures StandFor(a + b)
  {
  }

  lemma {:induction false} LookupStands(aliases: seq<Candidate>, name: string)
    requires StandFor(aliases) && Lookup(aliases, name).Some?
    ensures IsName(Lookup(aliases, name).value) && name != ""
  {
    if aliases[0].0 != name {
      LookupStands(aliases[1..], name);
    }
  }

  lemma {:induction false} RecognizedStands(raw: string)
    requires RecognizedStatus(raw).Some?
    ensures PlainName(RecognizedStatus(raw).value) && raw != ""
  {
    var all := STATUSES + STATUS_ALIASES + EXTENDED_STATUS_ALIASES;
    StatusesStand();
    assert Trim("") == "" && Upper("") == "";
    if Lookup(EXTENDED_STATUS_ALIASES, Upper(Trim(raw))).Some? {
      LookupStands(EXTENDED_STATUS_ALIASES, Upper(Trim(raw)));
      NamesPlain(RecognizedStatus(raw).value);
    } else {
      AppendedStand(STATUSES, STATUS_ALIASES);
      AppendedStand(STATUSES + STATUS_ALIASES, EXTENDED_STATUS_ALIASES);
      TokenStands(raw, all);
    }
  }

  /** A recognized status is replaced by its name. */
  lemma {:induction false} StatusEffect(lines: seq<string>)
    requires ClosedLines(lines) && FixStatus(lines).Some?
    ensures
      var fixed := FixStatus(lines).value;
      && RecognizedStatus(FieldValue(lines, "Status").value).Some?
      && ClosedLines(fixed) && !TentativeField(fixed, "Status")
      && Flags(fixed) + (if TentativeField(lines, "Status") then 1 else 0) == Flags(lines)
      && FieldValue(fixed, "Priority") == FieldValue(lines, "Priority")
  {
    var raw := FieldValue(lines, "Status").value;
    var name := RecognizedStatus(raw).value;
    RecognizedStands(raw);
    FieldValueNoTerminator(lines, "Status");
    PlainIsFirm(name);
    NormalizedNoTerminator("status", raw, name);
    RewriteFlags(lines, "Status", name, Some(Normalized("status", raw, name)));
    RewriteValues(lines, "Status", name, Some(Normalized("status", raw, name)));
  }

  // ---------------------------------------------------------------------
  // A run of the normalizer

  /** The tentative values that these actions take out. */
  ghost function Extracted(lines: seq<string>, actions: seq<Action>): nat {
    (if PriorityExtracted in actions && TentativeField(lines, "Priority") then 1 else 0) +
    (if StatusNormalized in actions && TentativeField(lines, "Status") then 1 else 0)
  }

  /** These actions extract tokens only from values that hold one. */
  ghost predicate ExtractsTokens(lines: seq<string>, actions: seq<Action>) {
    (PriorityExtracted in actions ==>
       FieldValue(lines, "Priority").Some? &&
       ExtractLeadingToken(FieldValue(lines, "Priority").value, PRIORITIES).Some?) &&
    (StatusNormalized in actions ==>
       FieldValue(lines, "Status").Some? && RecognizedStatus(FieldValue(lines, "Status").value).Some?)
  }

  lemma {:induction false} ClosedReadBack(lines: seq<string>)
    requires ClosedLines(lines)
    ensures NoLfLines(lines) && ReadBack(lines) == lines
  {
    if |lines| > 1 {
      assert Closed(lines[0]);
      assert lines[0] != "" ==> lines[0][|lines[0]| - 1] in lines[0];
      ClosedReadBack(lines[1..]);
    }
    forall k | 0 <= k < |lines| ensures '\n' !in lines[k] {
      assert Closed(lines[k]);
    }
  }

  lemma {:induction false} ClosedJoin(lines: seq<string>)
    requires ClosedLines(lines) && lines != []
    ensures SplitLines(JoinLines(lines)) == lines
  {
    ClosedReadBack(lines);
    SplitOfJoin(lines);
  }

  /** What one fix that invents nothing does to the lines. */
  ghost predicate Effect(lines: seq<string>, action: Action, fixed: seq<string>) {
    ClosedLines(fixed) && ExtractsTokens(lines, [action]) &&
    Flags(fixed) + Extracted(lines, [action]) == Flags(lines) &&
    (if action.PriorityExtracted? then !TentativeField(fixed, "Priority")
     else FieldValue(fixed, "Priority") == FieldValue(lines, "Priority")) &&
    (if action.StatusNormalized? then !TentativeField(fixed, "Status")
     else FieldValue(fixed, "Status") == FieldValue(lines, "Status"))
  }

  lemma {:induction false} InventingFixes(content: string, kind: FixKind, options: Options)
    requires ApplyFix(content, kind, options).Some? && !Invents(ApplyFix(content, kind, options).value.actions)
    ensures kind == H1Separator || kind == InvalidPriority || kind == InvalidStatus
    ensures |ApplyFix(content, kind, options).value.actions| == 1
  {
    var actions := ApplyFix(content, kind, options).value.actions;
    assert actions[|actions| - 1].Invents() ==> Invents(actions);
  }

  lemma {:induction false} SeparatorEffect(lines: seq<string>)
    requires ClosedLines(lines) && FixH1Separator(lines).Some?
    ensures Effect(lines, H1SeparatorFixed, FixH1Separator(lines).value)
  {
    SeparatorFixFlags(lines);
    SeparatorFixValues(lines, "Priority");
    SeparatorFixValues(lines, "Status");
  }

  lemma {:induction false} EditEffect(lines: seq<string>, fixed: Option<seq<string>>, action: Action)
    requires fixed.Some? && fixed.value != [] && Effect(lines, action, fixed.value)
    ensures var next := Edited(fixed, action).value;
            |next.actions| == 1 && Effect(lines, next.actions[0], SplitLines(next.content))
  {
    ClosedJoin(fixed.value);
  }

  lemma {:induction false} StatusFixEffect(lines: seq<string>)
    requires ClosedLines(lines) && FixStatus(lines).Some?
    ensures Effect(lines, StatusNormalized, FixStatus(lines).value) && FixStatus(lines).value != []
  {
    StatusEffect(lines);
  }

  lemma {:induction false} FixEffect(content: string, kind: FixKind, options: Options)
    requires ApplyFix(content, kind, options).Some? && !Invents(ApplyFix(content, kind, options).value.actions)
    requires ClosedLines(SplitLines(content))
    ensures
      var next := ApplyFix(content, kind, options).value;
      |next.actions| == 1 && Effect(SplitLines(content), next.actions[0], SplitLines(next.content))
  {
    var lines := SplitLines(content);
    InventingFixes(content, kind, options);
    if kind == H1Separator {
      SeparatorEffect(lines);
      EditEffect(lines, FixH1Separator(lines), H1SeparatorFixed);
    } else if kind == InvalidStatus {
      StatusFixEffect(lines);
      EditEffect(lines, FixStatus(lines), StatusNormalized);
    } else {
      PriorityFixEffect(lines, ApplyFix(content, kind, options).value);
    }
  }

  /** Every fix that invents nothing has such an effect. */
  ghost predicate Effective(fix: Fixer) {
    forall content, message ::
      ClosedLines(SplitLines(content)) && fix(content, message).Some? &&
      !Invents(fix(content, message).value.actions) ==>
        |fix(content, message).value.actions| == 1 &&
        Effect(SplitLines(content), fix(content, message).value.actions[0],
               SplitLines(fix(content, message).value.content))
  }

  lemma {:induction false} FixerIsEffective(options: Options)
    ensures Effective(FixerFor(options))
  {
    var fix := FixerFor(options);
    forall content, message | ClosedLines(SplitLines(content)) && fix(content, message).Some? &&
                              !Invents(fix(content, message).value.actions)
      ensures |fix(content, message).value.actions| == 1
      ensures Effect(SplitLines(content), fix(content, message).value.actions[0],
                     SplitLines(fix(content, message).value.content))
    {
      FixEffect(content, FixFor(message), options);
    }
  }

  lemma {:induction false} PriorityFixEffect(lines: seq<string>, next: Draft)
    requires ClosedLines(lines) && lines != [] && FixPriority(lines).Some? && !Invents(next.actions)
    requires next == Draft(JoinLines(FixPriority(lines).value.0), [FixPriority(lines).value.1])
    ensures Effect(lines, next.actions[0], SplitLines(next.content))
  {
    PriorityActions(lines);
    assert !next.actions[0].Invents();
    ExtractionEffect(lines);
    ClosedJoin(FixPriority(lines).value.0);
  }

  /** One fix after the other. */
  lemma {:induction false} EffectThen(lines: seq<string>, action: Action, fixed: seq<string>, rest: seq<Action>,
                                      flags: nat)
    requires Effect(lines, action, fixed) && ExtractsTokens(fixed, rest)
    requires flags + Extracted(fixed, rest) == Flags(fixed)
    ensures ExtractsTokens(lines, [action] + rest) && flags + Extracted(lines, [action] + rest) == Flags(lines)
  {
  }

  lemma {:induction false} RoundsStep(parse: Parser, fix: Fixer, draft: Draft, lastError: string, n: nat, d: Draft)
    requires Rounds(parse, fix, draft, lastError, n).0 == Some(d)
    ensures
      match parse(SplitLines(draft.content))
      case Parsed => d == draft
      case OtherError(_) => false
      case TaskParseError(message) =>
        n > 0 && fix(draft.content, message).Some? &&
        var next := fix(draft.content, message).value;
        Rounds(parse, fix, Draft(next.content, draft.actions + next.actions), message, n - 1).0 == Some(d)
  {
  }

  /** What the fixes do, in terms of lines that are good and a relation between lines,
      the actions taken on them and the lines that come of it. */
  type Related = (seq<string>, seq<Action>, seq<string>) -> bool

  ghost predicate Links(fix: Fixer, good: seq<string> -> bool, related: Related) {
    (forall lines :: good(lines) ==> related(lines, [], lines)) &&
    forall content, message ::
      good(SplitLines(content)) && fix(content, message).Some? && !Invents(fix(content, message).value.actions) ==>
        var next := fix(content, message).value;
        good(SplitLines(next.content)) && Composes(related, SplitLines(content), next.actions, SplitLines(next.content))
  }

  ghost predicate Composes(related: Related, lines: seq<string>, actions: seq<Action>, fixed: seq<string>) {
    forall rest, final :: related(fixed, rest, final) ==> related(lines, actions + rest, final)
  }

  lemma {:induction false} RoundsRelate(parse: Parser, fix: Fixer, good: seq<string> -> bool, related: Related,
                                        draft: Draft, lastError: string, n: nat, d: Draft)
    returns (taken: seq<Action>)
    requires Links(fix, good, related) && good(SplitLines(draft.content))
    requires Rounds(parse, fix, draft, lastError, n).0 == Some(d) && !Invents(d.actions)
    ensures d.actions == draft.actions + taken
    ensures related(SplitLines(draft.content), taken, SplitLines(d.content))
    decreases n
  {
    var outcome := parse(SplitLines(draft.content));
    RoundsStep(parse, fix, draft, lastError, n, d);
    if outcome.Parsed? {
      taken := [];
      assert draft.actions + [] == draft.actions;
    } else {
      var next := fix(draft.content, outcome.message).value;
      var after := Draft(next.content, draft.actions + next.actions);
      RoundsGrow(parse, fix, after, outcome.message, n - 1);
      InventsMore(draft.actions, next.actions);
      var rest := RoundsRelate(parse, fix, good, related, after, outcome.message, n - 1, d);
      taken := next.actions + rest;
      assert draft.actions + next.actions + rest == draft.actions + taken;
    }
  }

  /** The actions took exactly the tentative values out that they extracted from. */
  ghost predicate Tally(lines: seq<string>, actions: seq<Action>, final: seq<string>) {
    ClosedLines(final) && ExtractsTokens(lines, actions) &&
    Flags(final) + Extracted(lines, actions) == Flags(lines)
  }

  lemma {:induction false} EffectTallies(lines: seq<string>, actions: seq<Action>, fixed: seq<string>,
                                         rest: seq<Action>, final: seq<string>)
    requires |actions| == 1 && Effect(lines, actions[0], fixed) && Tally(fixed, rest, final)
    ensures Tally(lines, actions + rest, final)
  {
    assert actions == [actions[0]];
    EffectThen(lines, actions[0], fixed, rest, Flags(final));
  }

  lemma {:induction false} FixesLink(options: Options)
    ensures Links(FixerFor(options), lines => ClosedLines(lines),
                  (lines, actions, final) => Tally(lines, actions, final))
  {
    var fix := FixerFor(options);
    FixerIsEffective(options);
    forall content, message |
      ClosedLines(SplitLines(content)) && fix(content, message).Some? && !Invents(fix(content, message).value.actions)
      ensures
        var next := fix(content, message).value;
        ClosedLines(SplitLines(next.content)) &&
        Composes((lines, actions, final) => Tally(lines, actions, final), SplitLines(content), next.actions,
                 SplitLines(next.content))
    {
      var next := fix(content, message).value;
      forall rest, final | Tally(SplitLines(next.content), rest, final)
        ensures Tally(SplitLines(content), next.actions + rest, final)
      {
        EffectTallies(SplitLines(content), next.actions, SplitLines(next.content), rest, final);
      }
    }
  }

  /** What was invented before stays among the actions. */
  lemma {:induction false} RoundsGrow(parse: Parser, fix: Fixer, draft: Draft, lastError: string, n: nat)
    requires Rounds(parse, fix, draft, lastError, n).0.Some?
    ensures Invents(draft.actions) ==> Invents(Rounds(parse, fix, draft, lastError, n).0.value.actions)
    decreases n
  {
    var outcome := parse(SplitLines(draft.content));
    if outcome.TaskParseError? {
      var next := fix(draft.content, outcome.message).value;
      InventsMore(draft.actions, next.actions);
      RoundsGrow(parse, fix, Draft(next.content, draft.actions + next.actions), outcome.message, n - 1);
    }
  }

  // ---------------------------------------------------------------------
  // The provenance line

  lemma {:induction false} HeadingKeys()
    ensures NoTerminator(H1Inserted.Key()) && NoTerminator(H1SeparatorFixed.Key())
  {
  }

  lemma {:induction false} MetadataKeys()
    ensures NoTerminator(MetadataSectionInserted.Key()) && NoTerminator(EffortDefaulted.Key())
  {
  }

  lemma {:induction false} PriorityKeys()
    ensures NoTerminator(PriorityExtracted.Key()) && NoTerminator(PriorityDefaulted.Key())
  {
  }

  lemma {:induction false} StatusKeys()
    ensures NoTerminator(StatusDefaulted.Key()) && NoTerminator(StatusNormalized.Key())
  {
  }

  lemma {:induction false} ProblemKeys()
    ensures NoTerminator(ProblemStatementPlaceholder.Key())
  {
    ConcatNoTerminator("problem-statement", "-placeholder");
    assert ProblemStatementPlaceholder.Key() == "problem-statement" + "-placeholder";
  }

  lemma {:induction false} SectionKeys()
    ensures NoTerminator(SuccessCriteriaPlaceholder.Key()) && NoTerminator(TestingRequirementsPlaceholder.Key())
  {
    ConcatNoTerminator("success-criteria", "-placeholder");
    ConcatNoTerminator("testing-requirements", "-placeholder");
    assert SuccessCriteriaPlaceholder.Key() == "success-criteria" + "-placeholder";
    assert TestingRequirementsPlaceholder.Key() == "testing-requirements" + "-placeholder";
  }

  lemma {:induction false} KeyNoTerminator(action: Action)
    ensures NoTerminator(action.Key())
  {
    HeadingKeys();
    MetadataKeys();
    PriorityKeys();
    StatusKeys();
    ProblemKeys();
    SectionKeys();
  }

  lemma {:induction false} JoinActionsNoTerminator(actions: seq<Action>)
    ensures NoTerminator(JoinActions(actions))
  {
    if actions != [] {
      KeyNoTerminator(actions[0]);
      JoinActionsNoTerminator(actions[1..]);
      ConcatNoTerminator(actions[0].Key(), ", ");
      ConcatNoTerminator(actions[0].Key() + ", ", JoinActions(actions[1..]));
    }
  }

  lemma {:induction false} ProvenanceFlags(content: string, actions: seq<Action>, date: string)
    requires ClosedLines(SplitLines(content)) && NoTerminator(date)
    ensures var lines := SplitLines(AddProvenance(content, actions, date));
            ClosedLines(lines) && Flags(lines) == Flags(SplitLines(content))
  {
    var lines := SplitLines(content);
    var value := date + " spec-normalizer: " + JoinActions(actions);
    var at := MetadataInsertIndex(lines);
    JoinActionsNoTerminator(actions);
    ConcatNoTerminator(date, " spec-normalizer: ");
    ConcatNoTerminator(date + " spec-normalizer: ", JoinActions(actions));
    OtherBulletIsClosed("Repaired", value);
    OneFlag(Bullet("Repaired", value));
    SpliceClosed(lines, at, 0, [Bullet("Repaired", value)]);
    FlagsOfSplice(lines, at, 0, [Bullet("Repaired", value)]);
    assert lines[at..at] == [];
    ClosedJoin(Splice(lines, at, 0, [Bullet("Repaired", value)]));
  }

  lemma {:induction false} ClosedEnds(line: string)
    requires Closed(line)
    ensures DropCr(line) == line
  {
    assert line != "" ==> line[|line| - 1] in line;
  }

  /** Such a text has the same lines with LF line ends. */
  lemma {:induction false} ClosedLf(content: string)
    requires ClosedLines(SplitLines(content))
    ensures SplitLines(ToLf(content)) == SplitLines(content)
    decreases |content|
  {
    var a, rest := FirstLineOf(content);
    if FirstLf(content) == |content| {
      LfOfLastLine(content);
    } else {
      var lines := SplitLines(content);
      SplitFirst(a, rest);
      assert lines[0] == DropCr(a) && lines[1..] == SplitLines(rest);
      ClosedEnds(lines[0]);
      LfOfFirstLine(a, rest);
      SplitFirst(DropCr(a), ToLf(rest));
      forall k | 0 <= k < |lines[1..]| ensures Closed(lines[1..][k]) {
        assert Closed(lines[k + 1]);
      }
      ClosedLf(rest);
    }
  }

  /** The tentative values of a text whose bullets end on their lines. */
  lemma {:induction false} UnfinishedByLine(content: string)
    requires ClosedLines(SplitLines(content))
    ensures Unfinished(content) == Flags(SplitLines(content))
  {
    TextsOfSplit(content);
    FoundByLine(SplitLines(content));
  }

  lemma {:induction false} UnfinishedInLineEnds(original: string, repaired: string)
    ensures Unfinished(InLineEndsOf(original, repaired)) == Unfinished(repaired)
  {
    CrlfKeepsTexts(repaired);
  }

  /** For every parser and every submission whose bullets end on their lines: a
      resolved repair that invents nothing takes exactly those tentative values out of
      the second test that it extracted a token from. */
  lemma {:induction false} GateLosesExactly(parse: Parser, content: string, options: Options, r: NormalizeResult)
    requires r == Normalize(parse, content, options) && r.resolved && !Invents(r.actions)
    requires ClosedLines(SplitLines(content)) && NoTerminator(options.date)
    ensures ExtractsTokens(SplitLines(content), r.actions)
    ensures Unfinished(r.content) + Extracted(SplitLines(content), r.actions) == Unfinished(content)
  {
    var start := Draft(ToLf(content), []);
    var d := Rounds(parse, FixerFor(options), start, "", MAX_FIX_ITERATIONS).0.value;
    ClosedLf(content);
    FixerIsSound(options);
    RoundsActions(parse, FixerFor(options), start, "", MAX_FIX_ITERATIONS);
    UnfinishedByLine(content);
    if d.actions != [] {
      var repaired := AddProvenance(d.content, d.actions, options.date);
      FixesLink(options);
      var taken := RoundsRelate(parse, FixerFor(options), lines => ClosedLines(lines),
                                (lines, actions, final) => Tally(lines, actions, final), start, "",
                                MAX_FIX_ITERATIONS, d);
      assert d.actions == taken;
      ProvenanceFlags(d.content, d.actions, options.date);
      UnfinishedByLine(repaired);
      UnfinishedInLineEnds(content, repaired);
    }
  }

  /** No value that a fix would extract a token from is tentative. */
  ghost predicate SafeToExtract(lines: seq<string>) {
    (TentativeField(lines, "Priority") ==>
       ExtractLeadingToken(FieldValue(lines, "Priority").value, PRIORITIES).None?) &&
    (TentativeField(lines, "Status") ==> RecognizedStatus(FieldValue(lines, "Status").value).None?)
  }

  /** A resolved repair of a marked submission, or one with an invented value, is held
      back, whatever its lines are. */
  lemma {:induction false} MarkedIsHeldBack(parse: Parser, content: string, options: Options, r: NormalizeResult)
    requires r == Normalize(parse, content, options) && r.resolved
    requires Contains(content, MARKER) || Invents(r.actions)
    ensures HasUnresolvedRepairMarkers(r.content)
  {
    ResolvedKeepsMarker(parse, content, options);
    EmptyHoldsNothing(r.content);
  }

  /** A gated submission is still gated when it is resolved, if no TBD or placeholder
      follows a token that a fix would extract. */
  lemma {:induction false} ResolvedKeepsGate(parse: Parser, content: string, options: Options, r: NormalizeResult)
    requires r == Normalize(parse, content, options) && r.resolved
    requires HasUnresolvedRepairMarkers(content) && SafeToExtract(SplitLines(content))
    requires ClosedLines(SplitLines(content)) && NoTerminator(options.date)
    ensures HasUnresolvedRepairMarkers(r.content)
  {
    if Contains(content, MARKER) || Invents(r.actions) {
      MarkedIsHeldBack(parse, content, options, r);
    } else {
      GateLosesExactly(parse, content, options, r);
      EmptyIsFinished();
    }
  }

  lemma {:induction false} EmptyHoldsNothing(s: string)
    requires Contains(s, MARKER)
    ensures s != ""
  {
  }

  lemma {:induction false} EmptyIsFinished()
    ensures Unfinished("") == 0
  {
    NoTexts();
  }
}
