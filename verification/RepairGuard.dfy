/** The additive-only guard on repaired task specs.  A text is the list of its
    lines; the guard aligns the repaired lines with the original ones, greedily
    and from the left, and reports everything that is neither kept nor a
    permitted change of the envelope. */
module RepairGuard {
  import opened Alignment
  import opened Base
  import opened Text

  const MARKER := "(repair placeholder)"

  datatype LineClass = Blank | H1 | Heading(name: string) | Meta(field: string) | Payload

  // ---------------------------------------------------------------------
  // The shape of one line

  /** Every run of whitespace becomes one space. */
  function CollapseSpaces(s: string): string {
    if s == "" then ""
    else if !IsSpace(s[0]) then [s[0]] + CollapseSpaces(s[1..])
    else if |s| > 1 && IsSpace(s[1]) then CollapseSpaces(s[1..])
    else " " + CollapseSpaces(s[1..])
  }

  predicate StartsQualifier(c: char) { c == '(' || c == ':' || c == '-' }

  function BeforeQualifier(s: string): string {
    if s == "" || StartsQualifier(s[0]) then "" else [s[0]] + BeforeQualifier(s[1..])
  }

  function NormalizeHeadingName(raw: string): string {
    Trim(BeforeQualifier(CollapseSpaces(Lower(Trim(raw)))))
  }

  function FieldEnd(s: string, i: nat): (e: nat)
    requires i <= |s|
    ensures i <= e <= |s|
    decreases |s| - i
  {
    if i == |s| || s[i] == ':' || s[i] == '*' then i else FieldEnd(s, i + 1)
  }

  /** The field that a trimmed line `- **Field:** ...` names. */
  function MetaField(t: string): Option<string> {
    if !StartsWith(t, "-") then None
    else
      var bullet := TrimStart(t[1..]);
      if !StartsWith(bullet, "**") then None
      else
        var e := FieldEnd(bullet, 2);
        if e > 2 && StartsWith(bullet[e..], ":**") then Some(Lower(Trim(bullet[2..e]))) else None
  }

  function ClassifyLine(line: string): LineClass {
    var t := Trim(line);
    if t == "" then Blank
    else if StartsWith(t, "## ") then Heading(NormalizeHeadingName(t[3..]))
    else if StartsWith(t, "# ") then H1
    else
      match MetaField(t)
      case Some(field) => Meta(field)
      case None => Payload
  }

  /** `TBD` as a whole word. */
  predicate StartsWithTbd(t: string) {
    StartsWith(t, "TBD") && (|t| == 3 || !IsWord(t[3]))
  }

  /** What follows a checkbox, or the line itself when it has none. */
  function AfterCheckbox(t: string): string {
    if !StartsWith(t, "-") then t
    else
      var b := TrimStart(t[1..]);
      if StartsWith(b, "[]") then TrimStart(b[2..])
      else if StartsWith(b, "[ ]") || StartsWith(b, "[x]") || StartsWith(b, "[X]") then TrimStart(b[3..])
      else t
  }

  /** The only shapes in which a line may be inserted for its marker alone. */
  predicate IsNarrowPlaceholderLine(line: string) {
    var t := Trim(line);
    Contains(line, MARKER) &&
    ((|t| >= 2 && t[0] == '#' && IsSpace(t[1])) || StartsWithTbd(AfterCheckbox(t)))
  }

  predicate IsAlphanumeric(c: char) { IsLower(c) || IsDigit(c) }

  function CollapsePunctuation(s: string): string {
    if s == "" then ""
    else if IsAlphanumeric(s[0]) then [s[0]] + CollapsePunctuation(s[1..])
    else if |s| > 1 && !IsAlphanumeric(s[1]) then CollapsePunctuation(s[1..])
    else " " + CollapsePunctuation(s[1..])
  }

  function CanonicalH1(line: string): string {
    var t := TrimStart(line);
    var title := if StartsWith(t, "#") then TrimStart(t[1..]) else line;
    Trim(CollapsePunctuation(Lower(title)))
  }

  const ENVELOPE_FIELDS := {"priority", "effort", "status"}
  const NOTE_FIELDS := {"priority-note", "effort-note", "status-note", "repaired"}
  const INSERTABLE_HEADINGS := {"metadata", "problem statement", "success criteria", "testing requirements"}

  // ---------------------------------------------------------------------
  // Lines in context

  /** The nearest heading at or above line `i` is the Metadata heading. */
  predicate InMetadata(lines: seq<string>, i: nat)
    requires i < |lines|
  {
    var c := ClassifyLine(lines[i]);
    if c.Heading? then c.name == "metadata" else i > 0 && InMetadata(lines, i - 1)
  }

  /** Line `i` is a bullet of the Metadata section. */
  predicate MetaAt(lines: seq<string>, i: nat, field: string)
    requires i < |lines|
  {
    ClassifyLine(lines[i]) == Meta(field) && InMetadata(lines, i)
  }

  predicate EnvelopeAt(lines: seq<string>, i: nat)
    requires i < |lines|
  {
    var c := ClassifyLine(lines[i]);
    c.Meta? && c.field in ENVELOPE_FIELDS && InMetadata(lines, i)
  }

  predicate HasFieldNote(r: seq<string>, field: string) {
    exists k :: 0 <= k < |r| && MetaAt(r, k, field + "-note")
  }

  predicate HasHeading(o: seq<string>, name: string) {
    exists k :: 0 <= k < |o| && ClassifyLine(o[k]) == Heading(name)
  }

  predicate HasH1(o: seq<string>) {
    exists k :: 0 <= k < |o| && ClassifyLine(o[k]) == H1
  }

  predicate HasH1Like(o: seq<string>, canonical: string) {
    exists k :: 0 <= k < |o| && ClassifyLine(o[k]) == H1 && CanonicalH1(o[k]) == canonical
  }

  /** Line `k` of the repaired text may be there although the original has no
      such line at that place. */
  predicate PermissibleInsertion(o: seq<string>, r: seq<string>, k: nat)
    requires k < |r|
  {
    var line := r[k];
    IsNarrowPlaceholderLine(line) ||
    match ClassifyLine(line)
    case Meta(field) =>
      InMetadata(r, k) &&
      (field in NOTE_FIELDS || (field in ENVELOPE_FIELDS && (Contains(line, MARKER) || HasFieldNote(r, field))))
    case Heading(name) => name in INSERTABLE_HEADINGS && !HasHeading(o, name)
    case H1 => !HasH1(o) || HasH1Like(o, CanonicalH1(line))
    case _ => false
  }

  predicate MayBeInserted(o: seq<string>, r: seq<string>, k: nat)
    requires k < |r|
  {
    ClassifyLine(r[k]) == Blank || PermissibleInsertion(o, r, k)
  }

  // ---------------------------------------------------------------------
  // The guard

  datatype Violation =
    | Inserted(line: string)
    | H1Removed(line: string)
    | EnvelopeRemoved(line: string)
    | EnvelopeUnproven(line: string)
    | PayloadRemoved(line: string)

  function FindMeta(r: seq<string>, field: string, j: nat): (k: nat)
    requires j <= |r|
    ensures j <= k <= |r|
    decreases |r| - j
  {
    if j == |r| || MetaAt(r, j, field) then j else FindMeta(r, field, j + 1)
  }

  /** What is said about a repaired line that matches no original line. */
  function OnInserted(o: seq<string>, r: seq<string>, k: nat): seq<Violation>
    requires k < |r|
  {
    if MayBeInserted(o, r, k) then [] else [Inserted(r[k])]
  }

  /** What is said about an original line that the repaired text does not have
      at or after the current position. */
  function OnLost(o: seq<string>, r: seq<string>, i: nat): seq<Violation>
    requires i < |o|
  {
    var c := ClassifyLine(o[i]);
    if c.H1? then (if HasH1Like(r, CanonicalH1(o[i])) then [] else [H1Removed(o[i])])
    else if EnvelopeAt(o, i) then
      var k := FindMeta(r, c.field, 0);
      if k == |r| then [EnvelopeRemoved(o[i])]
      else if !Contains(r[k], MARKER) && !HasFieldNote(r, c.field) then [EnvelopeUnproven(r[k])]
      else []
    else [PayloadRemoved(o[i])]
  }

  function AllOnLost(o: seq<string>, r: seq<string>): (t: seq<seq<Violation>>)
    ensures |t| == |o| && forall i :: 0 <= i < |o| ==> t[i] == OnLost(o, r, i)
  {
    seq(|o|, i requires 0 <= i < |o| => OnLost(o, r, i))
  }

  function AllOnInserted(o: seq<string>, r: seq<string>): (t: seq<seq<Violation>>)
    ensures |t| == |r| && forall k :: 0 <= k < |r| ==> t[k] == OnInserted(o, r, k)
  {
    seq(|r|, k requires 0 <= k < |r| => OnInserted(o, r, k))
  }

  function Violations(o: seq<string>, r: seq<string>): seq<Violation> {
    Report(o, r, AllOnLost(o, r), AllOnInserted(o, r), 0, 0)
  }

  predicate Accepts(o: seq<string>, r: seq<string>) {
    Violations(o, r) == []
  }

  datatype Annotated = Annotated(raw: string, cls: LineClass, inMetadata: bool)

  method Annotate(lines: seq<string>) returns (annotated: seq<Annotated>)
    ensures |annotated| == |lines|
    ensures forall k :: 0 <= k < |lines| ==>
              annotated[k] == Annotated(lines[k], ClassifyLine(lines[k]), InMetadata(lines, k))
  {
    annotated := [];
    var inMetadata := false;
    for i := 0 to |lines|
      invariant |annotated| == i
      invariant i > 0 ==> inMetadata == InMetadata(lines, i - 1)
      invariant i == 0 ==> !inMetadata
      invariant forall k :: 0 <= k < i ==>
                  annotated[k] == Annotated(lines[k], ClassifyLine(lines[k]), InMetadata(lines, k))
    {
      var cls := ClassifyLine(lines[i]);
      if cls.Heading? {
        inMetadata := cls.name == "metadata";
      }
      annotated := annotated + [Annotated(lines[i], cls, inMetadata)];
    }
  }

  method VerifyRepairIsAdditive(o: seq<string>, r: seq<string>) returns (violations: seq<Violation>)
    ensures violations == Violations(o, r)
    ensures violations == [] <==> Accepts(o, r)
  {
    var lost, extra := AllOnLost(o, r), AllOnInserted(o, r);
    violations := AlignedReport(o, r, lost, extra);
  }

  method AlignedReport(o: seq<string>, r: seq<string>, lost: seq<seq<Violation>>, extra: seq<seq<Violation>>)
    returns (violations: seq<Violation>)
    requires |lost| == |o| && |extra| == |r|
    ensures violations == Report(o, r, lost, extra, 0, 0)
  {
    violations := [];
    var j := 0;
    for i := 0 to |o|
      invariant 0 <= j <= |r|
      invariant violations + Report(o, r, lost, extra, i, j) == Report(o, r, lost, extra, 0, 0)
    {
      var k := j;
      while k < |r| && r[k] != o[i]
        invariant j <= k <= |r|
        invariant Find(r, o[i], j) == Find(r, o[i], k)
      {
        k := k + 1;
      }
      if k < |r| {
        var run := InsertionRun(extra, j, k);
        violations := violations + run;
        j := k + 1;
      } else {
        violations := violations + lost[i];
      }
    }
    var run := InsertionRun(extra, j, |r|);
    violations := violations + run;
  }

  method InsertionRun(extra: seq<seq<Violation>>, start: nat, end: nat) returns (violations: seq<Violation>)
    requires start <= end <= |extra|
    ensures violations == Gathered(extra, start, end)
  {
    violations := [];
    for idx := start to end
      invariant violations == Gathered(extra, start, idx)
    {
      violations := violations + extra[idx];
    }
  }

  // ---------------------------------------------------------------------
  // What an accepted repair preserves

  /** An original line may only be missing if it is an H1 that was reformatted,
      or an envelope bullet of the Metadata section whose replacement is marked
      or explained by a note. */
  ghost predicate MayBeReplaced(o: seq<string>, r: seq<string>, i: nat)
    requires i < |o|
  {
    var c := ClassifyLine(o[i]);
    if c.H1? then HasH1Like(r, CanonicalH1(o[i]))
    else EnvelopeAt(o, i) && exists k :: 0 <= k < |r| && MetaAt(r, k, c.field) &&
                                        (Contains(r[k], MARKER) || HasFieldNote(r, c.field))
  }

  /** `m` maps the kept lines of `o` to `r`, and everything outside it is an
      allowed change. */
  ghost predicate Additive(o: seq<string>, r: seq<string>, m: seq<Option<nat>>) {
    Embeds(o, r, m) &&
    (forall i :: 0 <= i < |o| && m[i].None? ==> MayBeReplaced(o, r, i)) &&
    (forall k :: 0 <= k < |r| && Some(k) !in m ==> MayBeInserted(o, r, k))
  }

  lemma {:induction false} FindMetaFinds(r: seq<string>, field: string, j: nat)
    requires j <= |r|
    ensures FindMeta(r, field, j) < |r| ==> MetaAt(r, FindMeta(r, field, j), field)
    decreases |r| - j
  {
    if j < |r| && !MetaAt(r, j, field) {
      FindMetaFinds(r, field, j + 1);
    }
  }

  lemma {:induction false} LostInSilence(o: seq<string>, r: seq<string>, i: nat)
    requires i < |o| && OnLost(o, r, i) == []
    ensures MayBeReplaced(o, r, i)
  {
    var c := ClassifyLine(o[i]);
    if !c.H1? {
      FindMetaFinds(r, c.field, 0);
    }
  }

  /** The guard accepts exactly when its own alignment leaves nothing
      unexplained. */
  lemma {:induction false} AcceptsExactly(o: seq<string>, r: seq<string>)
    ensures
      var m := Greedy(o, r, 0, 0);
      Accepts(o, r) <==>
        (forall i :: 0 <= i < |o| && m[i].None? ==> OnLost(o, r, i) == []) &&
        (forall k :: 0 <= k < |r| && Some(k) !in m ==> MayBeInserted(o, r, k))
  {
    ReportIsEmptyExactly(o, r, AllOnLost(o, r), AllOnInserted(o, r), 0, 0);
  }

  /** Soundness: an accepted repair is additive. */
  lemma {:induction false} AcceptedIsAdditive(o: seq<string>, r: seq<string>)
    requires Accepts(o, r)
    ensures exists m :: Additive(o, r, m)
  {
    var m := Greedy(o, r, 0, 0);
    GreedyEmbeds(o, r, 0, 0);
    assert o[0..] == o;
    AcceptsExactly(o, r);
    forall i | 0 <= i < |o| && m[i].None? ensures MayBeReplaced(o, r, i) {
      LostInSilence(o, r, i);
    }
    assert Additive(o, r, m);
  }

  // ---------------------------------------------------------------------
  // Pure insertions

  /** The verdict on an inserted line that does not depend on where it is. */
  predicate FreelyInsertable(o: seq<string>, line: string) {
    IsNarrowPlaceholderLine(line) ||
    match ClassifyLine(line)
    case Blank => true
    case Heading(name) => name in INSERTABLE_HEADINGS && !HasHeading(o, name)
    case H1 => !HasH1(o) || HasH1Like(o, CanonicalH1(line))
    case _ => false
  }

  lemma {:induction false} PlaceDoesNotMatter(o: seq<string>, r: seq<string>, k: nat)
    requires k < |r| && (!ClassifyLine(r[k]).Meta? || IsNarrowPlaceholderLine(r[k]))
    ensures MayBeInserted(o, r, k) <==> FreelyInsertable(o, r[k])
  {
  }

  ghost predicate OutsideInsertable(o: seq<string>, r: seq<string>) {
    forall k :: 0 <= k < |r| && Some(k) !in Greedy(o, r, 0, 0) ==> MayBeInserted(o, r, k)
  }

  lemma {:induction false} InsertedLinesAreUnmatched(o: seq<string>, r: seq<string>, line: string)
    requires Within(o, r, 0, 0)
    ensures line in multiset(r) - multiset(o) <==>
            exists k :: 0 <= k < |r| && Some(k) !in Greedy(o, r, 0, 0) && r[k] == line
  {
    UnmatchedIsInserted(o, r, 0, 0);
    UnmatchedAreOutside(o, r, 0, 0, line);
    assert o[0..] == o && r[0..] == r;
    assert line in multiset(UnmatchedIn(o, r, 0, 0)) <==> line in UnmatchedIn(o, r, 0, 0);
  }

  /** A text that keeps every original line, in order, is accepted exactly when
      each line that the alignment leaves over may be inserted where it is; these
      lines are, as a multiset, what was inserted. */
  lemma {:induction false} InsertionsAcceptedExactly(o: seq<string>, r: seq<string>)
    requires Within(o, r, 0, 0)
    ensures Accepts(o, r) <==> OutsideInsertable(o, r)
    ensures forall line :: line in multiset(r) - multiset(o) <==>
              exists k :: 0 <= k < |r| && Some(k) !in Greedy(o, r, 0, 0) && r[k] == line
  {
    AcceptsExactly(o, r);
    GreedyFindsAll(o, r, 0, 0);
    var m := Greedy(o, r, 0, 0);
    assert forall i :: 0 <= i < |o| ==> m[i] in m;
    forall line {
      InsertedLinesAreUnmatched(o, r, line);
    }
  }

  /** When no metadata bullet but placeholders is inserted, the places do not
      matter: the inserted lines decide. */
  lemma {:induction false} InsertedLinesDecide(o: seq<string>, r: seq<string>)
    requires Within(o, r, 0, 0)
    requires forall line :: line in multiset(r) - multiset(o) ==>
               !ClassifyLine(line).Meta? || IsNarrowPlaceholderLine(line)
    ensures Accepts(o, r) <==> forall line :: line in multiset(r) - multiset(o) ==> FreelyInsertable(o, line)
  {
    var m := Greedy(o, r, 0, 0);
    InsertionsAcceptedExactly(o, r);
    forall k | 0 <= k < |r| && Some(k) !in m
      ensures r[k] in multiset(r) - multiset(o) && (MayBeInserted(o, r, k) <==> FreelyInsertable(o, r[k]))
    {
      InsertedLinesAreUnmatched(o, r, r[k]);
      PlaceDoesNotMatter(o, r, k);
    }
    if OutsideInsertable(o, r) {
      forall line | line in multiset(r) - multiset(o) ensures FreelyInsertable(o, line) {
        InsertedLinesAreUnmatched(o, r, line);
        var k :| 0 <= k < |r| && Some(k) !in m && r[k] == line;
        assert MayBeInserted(o, r, k);
      }
    }
  }

  predicate BlankOrPlaceholder(line: string) {
    ClassifyLine(line) == Blank || IsNarrowPlaceholderLine(line)
  }

  /** `r[j..]` is `o[i..]` with blank lines and placeholders inserted. */
  ghost predicate Pads(o: seq<string>, r: seq<string>, i: nat, j: nat)
    requires i <= |o| && j <= |r|
    decreases |r| - j
  {
    if j == |r| then i == |o|
    else (i < |o| && o[i] == r[j] && Pads(o, r, i + 1, j + 1)) || (BlankOrPlaceholder(r[j]) && Pads(o, r, i, j + 1))
  }

  lemma {:induction false} PaddingInsertsOnly(o: seq<string>, r: seq<string>, i: nat, j: nat)
    requires i <= |o| && j <= |r| && Pads(o, r, i, j)
    ensures Within(o, r, i, j)
    ensures forall line :: multiset(r[j..])[line] > multiset(o[i..])[line] ==> BlankOrPlaceholder(line)
    decreases |r| - j
  {
    if j < |r| {
      assert r[j..] == [r[j]] + r[j + 1..];
      if i < |o| && o[i] == r[j] && Pads(o, r, i + 1, j + 1) {
        PaddingInsertsOnly(o, r, i + 1, j + 1);
        assert o[i..] == [o[i]] + o[i + 1..];
      } else {
        PaddingInsertsOnly(o, r, i, j + 1);
        WithinEarlier(o, r, i, j + 1, j);
      }
    } else {
      assert r[j..] == [];
    }
  }

  /** Completeness for padding: a text made from the original by inserting blank
      lines and narrow placeholders anywhere is accepted. */
  lemma {:induction false} PaddingIsAccepted(o: seq<string>, r: seq<string>)
    requires Pads(o, r, 0, 0)
    ensures Accepts(o, r)
  {
    PaddingInsertsOnly(o, r, 0, 0);
    assert o[0..] == o && r[0..] == r;
    forall line | line in multiset(r) - multiset(o) ensures BlankOrPlaceholder(line) {
      assert multiset(r)[line] > multiset(o)[line];
    }
    InsertedLinesDecide(o, r);
  }

  // ---------------------------------------------------------------------
  // Chains of repairs

  /** Lines no repair may touch wherever they are. */
  predicate Protected(line: string) {
    match ClassifyLine(line)
    case H1 => false
    case Meta(field) => field !in ENVELOPE_FIELDS
    case _ => true
  }

  function Kept(lines: seq<string>): seq<string> {
    Filter(line => Protected(line), lines)
  }

  lemma {:induction false} LostIsUnprotected(o: seq<string>, r: seq<string>, i: nat)
    requires i < |o| && OnLost(o, r, i) == []
    ensures !Protected(o[i])
  {
  }

  lemma {:induction false} LostAreUnprotected(o: seq<string>, r: seq<string>)
    requires Accepts(o, r)
    ensures forall a :: 0 <= a < |o| && Greedy(o, r, 0, 0)[a].None? ==> !Protected(o[a])
  {
    AcceptsExactly(o, r);
    forall a | 0 <= a < |o| && Greedy(o, r, 0, 0)[a].None? ensures !Protected(o[a]) {
      LostIsUnprotected(o, r, a);
    }
  }

  lemma {:induction false} RepairKeepsProtected(o: seq<string>, r: seq<string>)
    requires Accepts(o, r)
    ensures Subsequence(Kept(o), Kept(r))
  {
    LostAreUnprotected(o, r);
    AlignmentKeeps(line => Protected(line), o, r, 0, 0);
    assert o[0..] == o && r[0..] == r;
  }

  ghost predicate Chain(texts: seq<seq<string>>) {
    forall k :: 0 <= k < |texts| - 1 ==> Accepts(texts[k], texts[k + 1])
  }

  /** However many accepted repairs follow each other, the blank lines, H2
      headings, payload lines and other metadata bullets of the first text
      survive in the last, identical and in order. */
  lemma {:induction false} ChainKeepsProtected(texts: seq<seq<string>>)
    requires |texts| > 0 && Chain(texts)
    ensures Subsequence(Kept(texts[0]), Kept(texts[|texts| - 1]))
    decreases |texts|
  {
    if |texts| == 1 {
      SubsequenceReflexive(Kept(texts[0]));
    } else {
      RepairKeepsProtected(texts[0], texts[1]);
      forall k | 0 <= k < |texts[1..]| - 1 ensures Accepts(texts[1..][k], texts[1..][k + 1]) {
        assert Accepts(texts[k + 1], texts[k + 2]);
      }
      ChainKeepsProtected(texts[1..]);
      SubsequenceTransitive(Kept(texts[0]), Kept(texts[1]), Kept(texts[|texts| - 1]));
    }
  }

  lemma {:induction false} DirectAlterationIsRefused(heading: string, pasted: string, marked: string, field: string)
    requires ClassifyLine(heading) == Heading("metadata") && ClassifyLine(pasted) == Meta(field) && marked != pasted
    ensures !Accepts([pasted], [heading, marked])
  {
    var o, r := [pasted], [heading, marked];
    AcceptsExactly(o, r);
    assert Find(r, o[0], 0) == Find(r, o[0], 1) == Find(r, o[0], 2);
    assert Greedy(o, r, 0, 0)[0] == None;
    assert OnLost(o, r, 0) == [PayloadRemoved(pasted)];
  }

  lemma {:induction false} HeadingMayBeInserted(heading: string, pasted: string, field: string)
    requires ClassifyLine(heading) == Heading("metadata") && ClassifyLine(pasted) == Meta(field)
    ensures Accepts([pasted], [heading, pasted])
  {
    var o, r := [pasted], [heading, pasted];
    AcceptsExactly(o, r);
    assert Find(r, o[0], 0) == Find(r, o[0], 1) == 1;
    assert Greedy(o, r, 0, 0) == [Some(1)];
    assert MayBeInserted(o, r, 0);
  }

  lemma {:induction false} BulletMayBeReplaced(heading: string, pasted: string, marked: string, field: string)
    requires ClassifyLine(heading) == Heading("metadata")
    requires field in ENVELOPE_FIELDS && ClassifyLine(pasted) == Meta(field) == ClassifyLine(marked)
    requires Contains(marked, MARKER) && marked != pasted
    ensures Accepts([heading, pasted], [heading, marked])
  {
    var o, r := [heading, pasted], [heading, marked];
    AcceptsExactly(o, r);
    assert Find(r, o[0], 0) == 0;
    assert Find(r, o[1], 1) == Find(r, o[1], 2) == 2;
    assert Greedy(o, r, 1, 1) == [None];
    assert Greedy(o, r, 0, 0) == [Some(0), None];
    assert InMetadata(o, 0) && InMetadata(r, 0);
    assert FindMeta(r, field, 0) == FindMeta(r, field, 1) == 1;
    assert OnLost(o, r, 1) == [];
    assert MayBeInserted(o, r, 1);
  }

  /** What a chain does not protect: a bullet shaped like an envelope field but
      outside any Metadata section.  One repair may not alter it, but a first
      repair may insert a Metadata heading above it and a second replace it. */
  lemma {:induction false} PastedBulletCanBeLaundered(heading: string, pasted: string, marked: string, field: string)
    requires ClassifyLine(heading) == Heading("metadata")
    requires field in ENVELOPE_FIELDS && ClassifyLine(pasted) == Meta(field) == ClassifyLine(marked)
    requires Contains(marked, MARKER) && marked != pasted
    ensures !Accepts([pasted], [heading, marked])
    ensures Accepts([pasted], [heading, pasted]) && Accepts([heading, pasted], [heading, marked])
  {
    DirectAlterationIsRefused(heading, pasted, marked, field);
    HeadingMayBeInserted(heading, pasted, field);
    BulletMayBeReplaced(heading, pasted, marked, field);
  }
}
