/** The deterministic fixes of the spec normalizer.  Each one edits a list of
    lines; none of them may lose the placeholder marker. */
module SpecFixes {
  import opened Base
  import opened Text
  import opened Lines
  import RepairGuard

  const MARKER := RepairGuard.MARKER

  datatype Action =
    | H1Inserted | H1SeparatorFixed | MetadataSectionInserted | PriorityExtracted | PriorityDefaulted
    | EffortDefaulted | StatusDefaulted | StatusNormalized | ProblemStatementPlaceholder
    | SuccessCriteriaPlaceholder | TestingRequirementsPlaceholder
  {
    /** The key the action is reported under. */
    function Key(): string {
      match this
      case H1Inserted => "h1-inserted"
      case H1SeparatorFixed => "h1-separator-fixed"
      case MetadataSectionInserted => "metadata-section-inserted"
      case PriorityExtracted => "priority-extracted"
      case PriorityDefaulted => "priority-defaulted"
      case EffortDefaulted => "effort-defaulted"
      case StatusDefaulted => "status-defaulted"
      case StatusNormalized => "status-normalized"
      case ProblemStatementPlaceholder => "problem-statement-placeholder"
      case SuccessCriteriaPlaceholder => "success-criteria-placeholder"
      case TestingRequirementsPlaceholder => "testing-requirements-placeholder"
    }

    /** The action stands for a value nobody submitted. */
    predicate Invents() {
      !(H1SeparatorFixed? || MetadataSectionInserted? || PriorityExtracted? || StatusNormalized?)
    }
  }

  /** `inserted` in place of `removed` lines at `at`. */
  function Splice(lines: seq<string>, at: nat, removed: nat, inserted: seq<string>): seq<string>
    requires at + removed <= |lines|
  {
    lines[..at] + inserted + lines[at + removed..]
  }

  predicate IsH1(line: string) {
    StartsWith(Trim(line), "# ")
  }

  function FindH1(lines: seq<string>, i: nat): (k: nat)
    requires i <= |lines|
    ensures i <= k <= |lines| && (k < |lines| ==> IsH1(lines[k]))
    decreases |lines| - i
  {
    if i == |lines| || IsH1(lines[i]) then i else FindH1(lines, i + 1)
  }

  // ---------------------------------------------------------------------
  // H1 fixes

  function FixMissingH1(lines: seq<string>, hint: string): Option<seq<string>> {
    if Trim(hint) == "" || FindH1(lines, 0) < |lines| then None
    else Some(["# " + Trim(hint) + ": Untitled " + MARKER, ""] + lines)
  }

  /** The end of a task id at `i` that whitespace follows, or `i`. */
  function HeadingIdEnd(t: string, i: nat): (e: nat)
    requires i <= |t|
    ensures i <= e <= |t|
  {
    if OccursAt(t, "TASK-", i) then
      var d := DigitsEnd(t, i + 5);
      if d == i + 5 then i
      else if d + 2 < |t| && t[d] == '-' && IsUpper(t[d + 1]) && IsSpace(t[d + 2]) then d + 2
      else if d < |t| && IsSpace(t[d]) then d
      else i
    else if OccursAt(t, "SAURUS-REM-", i) && i + 14 < |t| && DigitsEnd(t, i + 11) >= i + 14 && IsSpace(t[i + 14])
    then i + 14
    else i
  }

  predicate NoTerminator(s: string) {
    forall c :: c in s ==> !IsLineTerminator(c)
  }

  predicate IsSeparator(c: char) {
    c == ':' || c == '\U{2014}' || c == '\U{2013}' || c == '-'
  }

  /** Where the title starts in a trimmed H1 that has an id, whitespace and a
      title but no separator, or the length when it has another shape.  With
      more than one blank the separator test looks at the last blank. */
  function TitleStart(t: string): (p: nat)
    requires StartsWith(t, "# ")
    ensures p <= |t|
  {
    var i := SpacesEnd(t, 1);
    var e := HeadingIdEnd(t, i);
    if e == i then |t|
    else
      var p := SpacesEnd(t, e);
      if p == |t| || !NoTerminator(t[p..]) then |t|
      else if !IsSeparator(t[p]) then p
      else if p - e >= 2 && !IsLineTerminator(t[p - 1]) then p
      else |t|
  }

  function FixH1Separator(lines: seq<string>): Option<seq<string>> {
    var k := FindH1(lines, 0);
    if k == |lines| then None
    else
      var t := Trim(lines[k]);
      var p := TitleStart(t);
      if p == |t| then None
      else
        var i := SpacesEnd(t, 1);
        Some(Splice(lines, k, 1, ["# " + t[i..HeadingIdEnd(t, i)] + ": " + t[p..]]))
  }

  // ---------------------------------------------------------------------
  // The Metadata section

  predicate IsMetadataHeading(line: string) {
    var t := RepairGuard.CollapseSpaces(Lower(Trim(line)));
    t == "## metadata" || StartsWith(t, "## metadata (") || StartsWith(t, "## metadata:") || StartsWith(t, "## metadata -")
  }

  function FindMetadataHeading(lines: seq<string>, i: nat): (k: nat)
    requires i <= |lines|
    ensures i <= k <= |lines|
    decreases |lines| - i
  {
    if i == |lines| || IsMetadataHeading(lines[i]) then i else FindMetadataHeading(lines, i + 1)
  }

  predicate IsH2(line: string) {
    StartsWith(Trim(line), "## ")
  }

  function SectionEnd(lines: seq<string>, i: nat): (k: nat)
    requires i <= |lines|
    ensures i <= k <= |lines|
    decreases |lines| - i
  {
    if i == |lines| || IsH2(lines[i]) then i else SectionEnd(lines, i + 1)
  }

  /** After the last bullet of the section, or after the first other text right
      under the heading. */
  function InsertIndex(lines: seq<string>, first: nat, i: nat, insertAt: nat): (k: nat)
    requires first <= insertAt <= i <= |lines|
    ensures first <= k <= |lines|
    decreases |lines| - i
  {
    if i == |lines| || IsH2(lines[i]) then insertAt
    else if StartsWith(Trim(lines[i]), "- ") then InsertIndex(lines, first, i + 1, i + 1)
    else if Trim(lines[i]) != "" && insertAt == first then InsertIndex(lines, first, i + 1, i + 1)
    else InsertIndex(lines, first, i + 1, insertAt)
  }

  function MetadataInsertIndex(lines: seq<string>): (k: nat)
    ensures k <= |lines|
  {
    var h := FindMetadataHeading(lines, 0);
    var first := if h == |lines| then 0 else h + 1;
    InsertIndex(lines, first, first, first)
  }

  /** The lines with a Metadata section, after the H1 if there is none yet. */
  function EnsureMetadata(lines: seq<string>): seq<string> {
    if FindMetadataHeading(lines, 0) < |lines| then lines
    else
      var h1 := FindH1(lines, 0);
      Splice(lines, if h1 == |lines| then 0 else h1 + 1, 0, ["", "## Metadata"])
  }

  function Bullet(field: string, value: string): string {
    "- **" + field + ":** " + value
  }

  function NoteLines(field: string, note: Option<string>): seq<string> {
    match note
    case Some(text) => [Bullet(field + "-Note", text)]
    case None => []
  }

  function InsertField(lines: seq<string>, field: string, value: string, note: Option<string>): seq<string> {
    var ensured := EnsureMetadata(lines);
    Splice(ensured, MetadataInsertIndex(ensured), 0, [Bullet(field, value)] + NoteLines(field, note))
  }

  /** The value part of a bullet `- **field:** value`, whatever the case of the
      field name; a value of nothing but blanks is its last blank. */
  function ValueOf(line: string, field: string): (v: Option<string>)
    ensures v.Some? ==> |v.value| <= |line|
  {
    var b := TrimStart(line);
    if !StartsWith(b, "-") then None
    else
      var c := TrimStart(b[1..]);
      var tag := "**" + field + ":**";
      if |c| < |tag| || Upper(c[..|tag|]) != Upper(tag) then None
      else
        var rest := c[|tag|..];
        var v := TrimStart(rest);
        if v != "" then (if NoTerminator(v) then Some(v) else None)
        else if rest != "" && !IsLineTerminator(rest[|rest| - 1]) then Some(rest[|rest| - 1..])
        else None
  }

  function FindField(lines: seq<string>, field: string, i: nat, end: nat): (k: nat)
    requires i <= end <= |lines|
    ensures i <= k <= end && (k < end ==> ValueOf(lines[k], field).Some?)
    decreases end - i
  {
    if i == end || ValueOf(lines[i], field).Some? then i else FindField(lines, field, i + 1, end)
  }

  /** The line of the first bullet of this field inside the Metadata section. */
  function FieldLine(lines: seq<string>, field: string): (k: Option<nat>)
    ensures k.Some? ==> k.value < |lines| && ValueOf(lines[k.value], field).Some?
  {
    var h := FindMetadataHeading(lines, 0);
    if h == |lines| then None
    else
      var end := SectionEnd(lines, h + 1);
      var k := FindField(lines, field, h + 1, end);
      if k < end then Some(k) else None
  }

  function FieldValue(lines: seq<string>, field: string): Option<string> {
    match FieldLine(lines, field)
    case Some(k) => Some(Trim(ValueOf(lines[k], field).value))
    case None => None
  }

  function RewriteValue(lines: seq<string>, field: string, value: string, note: Option<string>): Option<seq<string>> {
    match FieldLine(lines, field)
    case Some(k) =>
      var replaced := ValueOf(lines[k], field).value;
      var prefix := lines[k][..|lines[k]| - |replaced|];
      Some(Splice(lines, k, 1, [prefix + value] + NoteLines(field, note)))
    case None => None
  }

  // ---------------------------------------------------------------------
  // Values

  type Candidate = (string, string)

  function InsertByLength(c: Candidate, sorted: seq<Candidate>): seq<Candidate> {
    if sorted == [] || |sorted[0].0| < |c.0| then [c] + sorted
    else [sorted[0]] + InsertByLength(c, sorted[1..])
  }

  /** Longest names first, equal lengths in the given order. */
  function LongestFirst(candidates: seq<Candidate>): seq<Candidate> {
    if candidates == [] then []
    else InsertByLength(candidates[|candidates| - 1], LongestFirst(candidates[..|candidates| - 1]))
  }

  predicate IsDate(s: string) {
    |s| >= 10 && s[4] == '-' == s[7] &&
    forall k :: 0 <= k < 10 && k != 4 && k != 7 ==> IsDigit(s[k])
  }

  /** An administrative suffix: nothing, an annotation introduced by one of the
      usual separators, or a date. */
  predicate IsAdminSuffix(s: string) {
    var r := TrimStart(s);
    r == "" || r[0] in "(+;:,/.\U{2013}\U{2014}-" || IsDate(r)
  }

  function FirstToken(trimmed: string, candidates: seq<Candidate>): Option<string> {
    if candidates == [] then None
    else
      var (name, canonical) := candidates[0];
      if StartsWith(Upper(trimmed), name) && IsAdminSuffix(trimmed[|name|..])
      then Some(canonical)
      else FirstToken(trimmed, candidates[1..])
  }

  function ExtractLeadingToken(rawValue: string, candidates: seq<Candidate>): Option<string> {
    FirstToken(Trim(rawValue), LongestFirst(candidates))
  }

  function Lookup(aliases: seq<Candidate>, name: string): Option<string> {
    if aliases == [] then None
    else if aliases[0].0 == name then Some(aliases[0].1)
    else Lookup(aliases[1..], name)
  }

  const PRIORITIES: seq<Candidate> := [
    ("P0-CRITICAL", "P0-CRITICAL"), ("P1-HIGH", "P1-HIGH"), ("P2-MEDIUM", "P2-MEDIUM"), ("P3-LOW", "P3-LOW"),
    ("P0", "P0-CRITICAL"), ("P1", "P1-HIGH"), ("P2", "P2-MEDIUM"), ("P3", "P3-LOW"),
    ("P0-BLOCKER", "P0-CRITICAL"), ("BLOCKER", "P0-CRITICAL"), ("CRITICAL", "P0-CRITICAL"),
    ("HIGH", "P1-HIGH"), ("MEDIUM", "P2-MEDIUM"), ("LOW", "P3-LOW")]

  const STATUSES: seq<Candidate> := [
    ("BACKLOG", "BACKLOG"), ("READY", "READY"), ("IN_PROGRESS", "IN_PROGRESS"), ("BLOCKED", "BLOCKED"),
    ("ON_HOLD", "ON_HOLD"), ("DECOMPOSED", "DECOMPOSED"), ("VERIFYING", "VERIFYING"), ("COMPLETE", "COMPLETE"),
    ("VERIFIED", "VERIFIED"), ("REJECTED", "REJECTED")]

  const STATUS_ALIASES: seq<Candidate> := [
    ("ON-HOLD", "ON_HOLD"), ("ON HOLD", "ON_HOLD"), ("INPROGRESS", "IN_PROGRESS"),
    ("IN PROGRESS", "IN_PROGRESS"), ("IN-PROGRESS", "IN_PROGRESS")]

  const EXTENDED_STATUS_ALIASES: seq<Candidate> := [
    ("TODO", "BACKLOG"), ("OPEN", "BACKLOG"), ("NEW", "BACKLOG"), ("DONE", "COMPLETE"), ("WIP", "IN_PROGRESS"),
    ("READY FOR SCOPING", "BACKLOG")]

  predicate IsStatusChar(c: char) {
    IsWord(c) || c == '-' || IsSpace(c)
  }

  function CharIndex(s: string, c: char): (k: nat)
    ensures k <= |s|
  {
    if s == "" || s[0] == c then 0 else 1 + CharIndex(s[1..], c)
  }

  /** A status without one trailing parenthesized annotation, in capitals. */
  function StripAnnotation(rawStatus: string): string {
    var t := Trim(rawStatus);
    var p := CharIndex(t, '(');
    var annotated := 0 < p < |t| && (forall k :: 0 <= k < p ==> IsStatusChar(t[k])) &&
                     CharIndex(t[p + 1..], ')') == |t| - p - 2;
    Upper(Trim(if annotated then t[..p] else t))
  }

  function NormalizeStatus(rawStatus: string): Option<string> {
    if rawStatus == "" then None
    else
      var base := StripAnnotation(rawStatus);
      var normalized := match Lookup(STATUS_ALIASES, base) case Some(s) => s case None => base;
      Lookup(STATUSES, normalized)
  }

  function Normalized(what: string, raw: string, canonical: string): string {
    "original " + what + " \"" + raw + "\" normalized to " + canonical + " by spec repair"
  }

  const CONFIRM := "by spec repair " + MARKER + "; confirm before dispatch"

  function DefaultNote(raw: string): string {
    "original priority \"" + raw + "\" was not recognized; defaulted to P2-MEDIUM " + CONFIRM
  }

  function FixPriority(lines: seq<string>): Option<(seq<string>, Action)> {
    match FieldValue(lines, "Priority")
    case None => None
    case Some(raw) =>
      match ExtractLeadingToken(raw, PRIORITIES)
      case Some(canonical) =>
        var note := if Upper(raw) == canonical then None else Some(Normalized("priority", raw, canonical));
        (match RewriteValue(lines, "Priority", canonical, note)
         case Some(updated) => Some((updated, PriorityExtracted))
         case None => None)
      case None =>
        (match RewriteValue(lines, "Priority", "P2-MEDIUM", Some(DefaultNote(raw)))
         case Some(updated) => Some((updated, PriorityDefaulted))
         case None => None)
  }

  /** The status an unparseable value stands for, if it is unambiguous. */
  function RecognizedStatus(raw: string): Option<string> {
    if NormalizeStatus(raw).Some? then None
    else
      match Lookup(EXTENDED_STATUS_ALIASES, Upper(Trim(raw)))
      case Some(canonical) => Some(canonical)
      case None => ExtractLeadingToken(raw, STATUSES + STATUS_ALIASES + EXTENDED_STATUS_ALIASES)
  }

  function FixStatus(lines: seq<string>): Option<seq<string>> {
    match FieldValue(lines, "Status")
    case None => None
    case Some(raw) =>
      match RecognizedStatus(raw)
      case Some(canonical) => RewriteValue(lines, "Status", canonical, Some(Normalized("status", raw, canonical)))
      case None => None
  }

  // ---------------------------------------------------------------------
  // The marker survives

  lemma {:induction false} SpliceInserts(lines: seq<string>, at: nat, removed: nat, inserted: seq<string>, p: string)
    requires at + removed <= |lines| && LineWith(inserted, p)
    ensures LineWith(Splice(lines, at, removed, inserted), p)
  {
    var k :| 0 <= k < |inserted| && Contains(inserted[k], p);
    assert Splice(lines, at, removed, inserted)[at + k] == inserted[k];
  }

  lemma {:induction false} SpliceKeeps(lines: seq<string>, at: nat, removed: nat, inserted: seq<string>, p: string)
    requires at + removed <= |lines| && removed <= 1 && LineWith(lines, p)
    requires removed == 1 && Contains(lines[at], p) ==> LineWith(inserted, p)
    ensures LineWith(Splice(lines, at, removed, inserted), p)
  {
    var k :| 0 <= k < |lines| && Contains(lines[k], p);
    var out := Splice(lines, at, removed, inserted);
    if k < at {
      assert out[k] == lines[k];
    } else if removed == 1 && k == at {
      SpliceInserts(lines, at, removed, inserted, p);
    } else {
      assert out[k - removed + |inserted|] == lines[k];
    }
  }

  /** A phrase in the value or in the note is in the result. */
  lemma {:induction false} InsertFieldHolds(lines: seq<string>, field: string, value: string, note: Option<string>,
                                            p: string)
    requires Contains(value, p) || (note.Some? && Contains(note.value, p))
    ensures LineWith(InsertField(lines, field, value, note), p)
  {
    var inserted := [Bullet(field, value)] + NoteLines(field, note);
    if Contains(value, p) {
      BulletHolds(field, value, p);
      assert Contains(inserted[0], p);
    } else {
      BulletHolds(field + "-Note", note.value, p);
      assert Contains(inserted[1], p);
    }
    var ensured := EnsureMetadata(lines);
    SpliceInserts(ensured, MetadataInsertIndex(ensured), 0, inserted, p);
  }

  lemma {:induction false} BulletHolds(field: string, value: string, p: string)
    requires Contains(value, p)
    ensures Contains(Bullet(field, value), p)
  {
    ContainsWider("- **" + field + ":** ", value, "", p);
    assert Bullet(field, value) == ("- **" + field + ":** ") + value + "";
  }

  lemma {:induction false} NormalizedHolds(what: string, raw: string, canonical: string, p: string)
    requires Contains(raw, p)
    ensures Contains(Normalized(what, raw, canonical), p)
  {
    var a := "original " + what + " \"";
    var b := "\" normalized to " + canonical + " by spec repair";
    ContainsWider(a, raw, b, p);
    assert Normalized(what, raw, canonical) == a + raw + b;
  }

  /** A phrase that neither starts nor ends with a blank survives trimming. */
  lemma {:induction false} TrimStartHolds(s: string, p: string)
    requires p != "" && !IsSpace(p[0]) && Contains(s, p)
    ensures Contains(TrimStart(s), p)
  {
    if IsSpace(s[0]) {
      var i :| 0 <= i <= |s| && OccursAt(s, p, i);
      assert p[0] == s[i..i + |p|][0] == s[i];
      assert s[1..][i - 1..i - 1 + |p|] == p;
      assert OccursAt(s[1..], p, i - 1);
      TrimStartHolds(s[1..], p);
    }
  }

  lemma {:induction false} TrimEndHolds(s: string, p: string)
    requires p != "" && !IsSpace(p[|p| - 1]) && Contains(s, p)
    ensures Contains(TrimEnd(s), p)
  {
    var n := |s| - 1;
    if IsSpace(s[n]) {
      var i :| 0 <= i <= |s| && OccursAt(s, p, i);
      assert p[|p| - 1] == s[i..i + |p|][|p| - 1] == s[i + |p| - 1];
      assert s[..n][i..i + |p|] == p;
      assert OccursAt(s[..n], p, i);
      TrimEndHolds(s[..n], p);
    }
  }

  lemma {:induction false} TrimHoldsMarker(s: string)
    requires Contains(s, MARKER)
    ensures Contains(Trim(s), MARKER)
  {
    TrimStartHolds(s, MARKER);
    TrimEndHolds(TrimStart(s), MARKER);
  }

  /** The marker starts where no character before it is a parenthesis, so a
      prefix without one leaves it whole. */
  lemma {:induction false} MarkerAfter(a: string, b: string)
    requires Contains(a + b, MARKER) && '(' !in a
    ensures Contains(b, MARKER)
  {
    var i :| 0 <= i <= |a + b| && OccursAt(a + b, MARKER, i);
    assert (a + b)[i] == (a + b)[i..i + |MARKER|][0] == '(';
    assert i >= |a|;
    assert b[i - |a|..i - |a| + |MARKER|] == (a + b)[i..i + |MARKER|];
    assert OccursAt(b, MARKER, i - |a|);
  }

  lemma {:induction false} TagHasNoParen(c: string, tag: string)
    requires Upper(c) == Upper(tag) && '(' !in tag
    ensures '(' !in c
  {
    forall k | 0 <= k < |c| ensures c[k] != '(' {
      assert Upper(c)[k] == UpperChar(c[k]) && Upper(tag)[k] == UpperChar(tag[k]);
      assert tag[k] in tag;
    }
  }

  /** Stripping the leading blanks of a string that holds the marker. */
  lemma {:induction false} MarkerAfterSpaces(s: string)
    requires Contains(s, MARKER)
    ensures Contains(TrimStart(s), MARKER)
  {
    TrimStartHolds(s, MARKER);
  }

  /** A marker in a field's line is in its value. */
  lemma {:induction false} MarkerIsInValue(line: string, field: string)
    requires '(' !in field && ValueOf(line, field).Some? && Contains(line, MARKER)
    ensures Contains(ValueOf(line, field).value, MARKER)
  {
    var b := TrimStart(line);
    MarkerAfterSpaces(line);
    assert b == "-" + b[1..];
    MarkerAfter("-", b[1..]);
    var c := TrimStart(b[1..]);
    MarkerAfterSpaces(b[1..]);
    var tag := "**" + field + ":**";
    TagHasNoParen(c[..|tag|], tag);
    var rest := c[|tag|..];
    assert c == c[..|tag|] + rest;
    MarkerAfter(c[..|tag|], rest);
    MarkerAfterSpaces(rest);
    assert TrimStart(rest) != "";
  }

  lemma {:induction false} RewriteKeepsMarker(lines: seq<string>, field: string, value: string, note: Option<string>)
    requires '(' !in field && LineWith(lines, MARKER) && RewriteValue(lines, field, value, note).Some?
    requires Contains(FieldValue(lines, field).value, MARKER) ==> note.Some? && Contains(note.value, MARKER)
    ensures LineWith(RewriteValue(lines, field, value, note).value, MARKER)
  {
    var k := FieldLine(lines, field).value;
    var replaced := ValueOf(lines[k], field).value;
    var inserted := [lines[k][..|lines[k]| - |replaced|] + value] + NoteLines(field, note);
    if Contains(lines[k], MARKER) {
      MarkerIsInValue(lines[k], field);
      TrimHoldsMarker(replaced);
      NoteHoldsMarker(field, note);
      assert inserted[1] == NoteLines(field, note)[0];
    }
    SpliceKeeps(lines, k, 1, inserted, MARKER);
  }

  lemma {:induction false} NoteHoldsMarker(field: string, note: Option<string>)
    requires note.Some? && Contains(note.value, MARKER)
    ensures |NoteLines(field, note)| == 1 && Contains(NoteLines(field, note)[0], MARKER)
  {
    BulletHolds(field + "-Note", note.value, MARKER);
  }

  lemma {:induction false} RewriteNotes(lines: seq<string>, field: string, value: string, note: string, p: string)
    requires RewriteValue(lines, field, value, Some(note)).Some? && Contains(note, p)
    ensures LineWith(RewriteValue(lines, field, value, Some(note)).value, p)
  {
    var k := FieldLine(lines, field).value;
    var replaced := ValueOf(lines[k], field).value;
    var inserted := [lines[k][..|lines[k]| - |replaced|] + value] + NoteLines(field, Some(note));
    BulletHolds(field + "-Note", note, p);
    assert Contains(inserted[1], p);
    SpliceInserts(lines, k, 1, inserted, p);
  }

  lemma {:induction false} ConfirmHoldsMarker(text: string)
    ensures Contains(text + CONFIRM, MARKER)
  {
    ContainsPart(text + "by spec repair ", MARKER, "; confirm before dispatch");
    assert text + CONFIRM == (text + "by spec repair ") + MARKER + "; confirm before dispatch";
  }

  predicate PlainNames(candidates: seq<Candidate>) {
    forall c :: c in candidates ==> '(' !in c.1
  }

  lemma {:induction false} InsertByLengthKeeps(c: Candidate, sorted: seq<Candidate>)
    requires PlainNames(sorted) && '(' !in c.1
    ensures PlainNames(InsertByLength(c, sorted))
  {
    if sorted != [] && |sorted[0].0| >= |c.0| {
      assert PlainNames(sorted[1..]);
      InsertByLengthKeeps(c, sorted[1..]);
      assert sorted[0] in sorted;
    }
  }

  lemma {:induction false} LongestFirstKeeps(candidates: seq<Candidate>)
    requires PlainNames(candidates)
    ensures PlainNames(LongestFirst(candidates))
  {
    if candidates != [] {
      var n := |candidates| - 1;
      assert candidates[n] in candidates;
      LongestFirstKeeps(candidates[..n]);
      InsertByLengthKeeps(candidates[n], LongestFirst(candidates[..n]));
    }
  }

  lemma {:induction false} FirstTokenIsListed(trimmed: string, candidates: seq<Candidate>)
    requires PlainNames(candidates) && FirstToken(trimmed, candidates).Some?
    ensures '(' !in FirstToken(trimmed, candidates).value
  {
    assert candidates[0] in candidates;
    if FirstToken(trimmed, candidates) != Some(candidates[0].1) {
      assert PlainNames(candidates[1..]);
      FirstTokenIsListed(trimmed, candidates[1..]);
    }
  }

  lemma {:induction false} MarkerStaysInUpper(raw: string)
    requires Contains(raw, MARKER)
    ensures '(' in Upper(raw)
  {
    var i :| 0 <= i <= |raw| && OccursAt(raw, MARKER, i);
    assert raw[i] == raw[i..i + |MARKER|][0] == '(';
    assert Upper(raw)[i] == '(';
  }

  lemma {:induction false} PriorityTokenIsPlain(raw: string)
    requires ExtractLeadingToken(raw, PRIORITIES).Some?
    ensures '(' !in ExtractLeadingToken(raw, PRIORITIES).value
  {
    LongestFirstKeeps(PRIORITIES);
    FirstTokenIsListed(Trim(raw), LongestFirst(PRIORITIES));
  }

  lemma {:induction false} ExtractionKeepsMarker(lines: seq<string>, raw: string, canonical: string)
    requires FieldValue(lines, "Priority") == Some(raw) && '(' !in canonical && LineWith(lines, MARKER)
    ensures
      var note := if Upper(raw) == canonical then None else Some(Normalized("priority", raw, canonical));
      RewriteValue(lines, "Priority", canonical, note).Some? ==>
        LineWith(RewriteValue(lines, "Priority", canonical, note).value, MARKER)
  {
    if Contains(raw, MARKER) {
      MarkerStaysInUpper(raw);
      NormalizedHolds("priority", raw, canonical, MARKER);
    }
    var note := if Upper(raw) == canonical then None else Some(Normalized("priority", raw, canonical));
    if RewriteValue(lines, "Priority", canonical, note).Some? {
      RewriteKeepsMarker(lines, "Priority", canonical, note);
    }
  }

  lemma {:induction false} DefaultHoldsMarker(lines: seq<string>, raw: string)
    ensures
      var updated := RewriteValue(lines, "Priority", "P2-MEDIUM", Some(DefaultNote(raw)));
      updated.Some? ==> LineWith(updated.value, MARKER)
  {
    ConfirmHoldsMarker("original priority \"" + raw + "\" was not recognized; defaulted to P2-MEDIUM ");
    if RewriteValue(lines, "Priority", "P2-MEDIUM", Some(DefaultNote(raw))).Some? {
      RewriteNotes(lines, "Priority", "P2-MEDIUM", DefaultNote(raw), MARKER);
    }
  }

  lemma {:induction false} PriorityFixKeepsMarker(lines: seq<string>)
    requires FixPriority(lines).Some?
    requires LineWith(lines, MARKER) || FixPriority(lines).value.1 == PriorityDefaulted
    ensures LineWith(FixPriority(lines).value.0, MARKER)
  {
    var raw := FieldValue(lines, "Priority").value;
    if ExtractLeadingToken(raw, PRIORITIES).Some? {
      PriorityTokenIsPlain(raw);
      ExtractionKeepsMarker(lines, raw, ExtractLeadingToken(raw, PRIORITIES).value);
    } else {
      DefaultHoldsMarker(lines, raw);
    }
  }

  lemma {:induction false} StatusFixKeepsMarker(lines: seq<string>)
    requires FixStatus(lines).Some? && LineWith(lines, MARKER)
    ensures LineWith(FixStatus(lines).value, MARKER)
  {
    var raw := FieldValue(lines, "Status").value;
    var canonical := RecognizedStatus(raw).value;
    if Contains(raw, MARKER) {
      NormalizedHolds("status", raw, canonical, MARKER);
    }
    RewriteKeepsMarker(lines, "Status", canonical, Some(Normalized("status", raw, canonical)));
  }

  lemma {:induction false} HeadingIdHasNoParen(t: string, i: nat)
    requires i <= |t|
    ensures forall k :: i <= k < HeadingIdEnd(t, i) ==> t[k] != '('
  {
    if OccursAt(t, "TASK-", i) {
      var d := DigitsEnd(t, i + 5);
      DigitRun(t, i + 5, d);
      forall k | i <= k < i + 5 ensures t[k] != '(' {
        assert t[k] == t[i..i + 5][k - i];
      }
    } else if OccursAt(t, "SAURUS-REM-", i) {
      var d := DigitsEnd(t, i + 11);
      DigitRun(t, i + 11, d);
      forall k | i <= k < i + 11 ensures t[k] != '(' {
        assert t[k] == t[i..i + 11][k - i];
      }
    }
  }

  lemma {:induction false} TitleHoldsMarker(t: string)
    requires StartsWith(t, "# ") && Contains(t, MARKER) && TitleStart(t) < |t|
    ensures Contains(t[TitleStart(t)..], MARKER)
  {
    var p := TitleStart(t);
    var i := SpacesEnd(t, 1);
    var e := HeadingIdEnd(t, i);
    SpacesEndSkipsSpaces(t, 1);
    SpacesEndSkipsSpaces(t, e);
    HeadingIdHasNoParen(t, i);
    assert t[0] == '#';
    assert t == t[..p] + t[p..];
    MarkerAfter(t[..p], t[p..]);
  }

  lemma {:induction false} SeparatorFixKeepsMarker(lines: seq<string>)
    requires FixH1Separator(lines).Some? && LineWith(lines, MARKER)
    ensures LineWith(FixH1Separator(lines).value, MARKER)
  {
    var k := FindH1(lines, 0);
    var t := Trim(lines[k]);
    var p := TitleStart(t);
    var i := SpacesEnd(t, 1);
    var prefix := "# " + t[i..HeadingIdEnd(t, i)] + ": ";
    var inserted := [prefix + t[p..]];
    if Contains(lines[k], MARKER) {
      TrimHoldsMarker(lines[k]);
      TitleHoldsMarker(t);
      ContainsWider(prefix, t[p..], "", MARKER);
      assert inserted[0] == prefix + t[p..] + "";
    }
    SpliceKeeps(lines, k, 1, inserted, MARKER);
  }

  // ---------------------------------------------------------------------
  // Nothing outside the Metadata section is read or rewritten

  lemma {:induction false} FindMetadataHeadingFinds(lines: seq<string>, i: nat)
    requires i <= |lines|
    ensures FindMetadataHeading(lines, i) < |lines| ==> IsMetadataHeading(lines[FindMetadataHeading(lines, i)])
    decreases |lines| - i
  {
    if i < |lines| && !IsMetadataHeading(lines[i]) {
      FindMetadataHeadingFinds(lines, i + 1);
    }
  }

  lemma {:induction false} SectionEndIsFirst(lines: seq<string>, i: nat)
    requires i <= |lines|
    ensures forall x :: i <= x < SectionEnd(lines, i) ==> !IsH2(lines[x])
    decreases |lines| - i
  {
    if i < |lines| && !IsH2(lines[i]) {
      SectionEndIsFirst(lines, i + 1);
    }
  }

  /** A rewrite replaces one line, below a Metadata heading with no other H2
      between them, and adds at most its note. */
  lemma {:induction false} RewriteStaysInMetadata(lines: seq<string>, field: string, value: string,
                                                  note: Option<string>)
    requires RewriteValue(lines, field, value, note).Some?
    ensures exists h, k, line ::
              0 <= h < k < |lines| && IsMetadataHeading(lines[h]) && (forall x :: h < x <= k ==> !IsH2(lines[x])) &&
              RewriteValue(lines, field, value, note).value ==
                lines[..k] + ([line] + NoteLines(field, note)) + lines[k + 1..]
  {
    var h := FindMetadataHeading(lines, 0);
    var k := FieldLine(lines, field).value;
    FindMetadataHeadingFinds(lines, 0);
    SectionEndIsFirst(lines, h + 1);
    var line := lines[k][..|lines[k]| - |ValueOf(lines[k], field).value|] + value;
    assert RewriteValue(lines, field, value, note).value ==
           lines[..k] + ([line] + NoteLines(field, note)) + lines[k + 1..];
  }
}
