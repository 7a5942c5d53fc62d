/** What the fixes that invent something put into a spec: each one supplies what the
    parser missed, as a default that the parser accepts or a placeholder that holds
    the spec back. */
module SpecDefaults {
  import opened Base
  import opened Text
  import opened Lines
  import opened SpecFixes
  import opened SpecNormalizer
  import opened SpecGate
  import opened SpecGateRuns
  import SpecReturns

  // ---------------------------------------------------------------------
  // Which fix a message calls for

  function Phrase(kind: FixKind): string {
    match kind
    case MissingH1 => "Missing required H1 heading"
    case H1Separator => "H1 heading does not match expected format"
    case MissingPriority => "Missing required metadata field: Priority"
    case InvalidPriority => "Invalid priority value"
    case MissingEffort => "Missing required metadata field: Effort"
    case MissingStatus => "Missing required metadata field: Status"
    case InvalidStatus => "Invalid status value"
    case MissingProblem => "Missing required section: Problem Statement"
    case MissingCriteria => "Missing required field: Success Criteria"
    case MissingTests => "Missing required field: Testing Requirements"
    case NoFix => ""
  }

  ghost predicate Reports(message: string, kind: FixKind) {
    kind != NoFix && Contains(message, Phrase(kind))
  }

  lemma {:induction false} FixHasPhrase(message: string)
    ensures FixFor(message) != NoFix ==> Reports(message, FixFor(message))
  {
  }

  lemma {:induction false} PhraseHasFix(message: string, kind: FixKind)
    ensures Reports(message, kind) ==> FixFor(message) != NoFix
  {
  }

  /** A message with one of the parser's phrases calls for the fix of that phrase, and
      one with none of them for no fix. */
  lemma {:induction false} PhraseDecides(message: string, kind: FixKind)
    requires forall k :: Reports(message, k) ==> k == kind
    requires kind != NoFix ==> Reports(message, kind)
    ensures FixFor(message) == kind
  {
    FixHasPhrase(message);
    PhraseHasFix(message, kind);
  }

  // ---------------------------------------------------------------------
  // Inserted fields

  predicate IsField(field: string) {
    field == "Priority" || field == "Effort" || field == "Status"
  }

  lemma {:induction false} InsertIndexInSection(lines: seq<string>, first: nat, i: nat, at: nat)
    requires first <= at <= i <= |lines| && forall k :: first <= k < i ==> !IsH2(lines[k])
    ensures var n := InsertIndex(lines, first, i, at); first <= n && forall k :: first <= k < n ==> !IsH2(lines[k])
    decreases |lines| - i
  {
    if i < |lines| && !IsH2(lines[i]) {
      if StartsWith(Trim(lines[i]), "- ") || (Trim(lines[i]) != "" && at == first) {
        InsertIndexInSection(lines, first, i + 1, i + 1);
      } else {
        InsertIndexInSection(lines, first, i + 1, at);
      }
    }
  }

  /** Where a field is missing, none of the section's lines has a value of it. */
  lemma {:induction false} MissingMeansNone(lines: seq<string>, field: string, h: nat, n: nat)
    requires FieldValue(lines, field).None? && FindMetadataHeading(lines, 0) == h < n <= |lines|
    requires forall k :: h < k < n ==> !IsH2(lines[k])
    ensures forall k :: h < k < n ==> ValueOf(lines[k], field).None?
  {
    var end := SectionEnd(lines, h + 1);
    FieldIsFirst(lines, field, h + 1, end);
    if h + 1 < n {
      SectionPast(lines, h + 1, n - 1);
    }
  }

  lemma {:induction false} BulletIsRead(field: string, value: string)
    requires IsField(field) && value != "" && NoSpaceAtEnds(value) && NoTerminator(value)
    ensures ValueOf(Bullet(field, value), field) == Some(value) && !IsH2(Bullet(field, value))
  {
    var line := Bullet(field, value);
    var c := Tag(field) + (" " + value);
    assert line == "- " + c && line[1..] == " " + c;
    TrimStartDrops(" ", c);
    TrimStartDrops(" ", value);
    assert c[..|Tag(field)|] == Tag(field) && c[|Tag(field)|..] == " " + value;
    TrimEndKeepsFirst(line);
    BulletIsNoHeading(line);
  }

  /** Before the insertion point there is no value of a missing field. */
  lemma {:induction false} InsertionPoint(lines: seq<string>, field: string) returns (h: nat)
    requires FindMetadataHeading(lines, 0) < |lines| && FieldValue(lines, field).None?
    ensures
      var n := MetadataInsertIndex(lines);
      && h < n && IsMetadataHeading(lines[h]) && (forall j :: 0 <= j < h ==> !IsMetadataHeading(lines[j]))
      && forall j :: h < j < n ==> !IsH2(lines[j]) && ValueOf(lines[j], field).None?
  {
    h := FindMetadataHeading(lines, 0);
    FindMetadataHeadingFinds(lines, 0);
    HeadingIsFirst(lines, 0);
    InsertIndexInSection(lines, h + 1, h + 1, h + 1);
    MissingMeansNone(lines, field, h, MetadataInsertIndex(lines));
  }

  lemma {:induction false} FirstBecomesField(lines: seq<string>, field: string, h: nat, n: nat, inserted: seq<string>)
    requires h < n <= |lines| && IsMetadataHeading(lines[h]) && (forall j :: 0 <= j < h ==> !IsMetadataHeading(lines[j]))
    requires forall j :: h < j < n ==> !IsH2(lines[j]) && ValueOf(lines[j], field).None?
    requires inserted != [] && !IsH2(inserted[0]) && ValueOf(inserted[0], field).Some?
    ensures FirstOfField(Splice(lines, n, 0, inserted), field, h, n) && Splice(lines, n, 0, inserted)[n] == inserted[0]
  {
    var fixed := Splice(lines, n, 0, inserted);
    assert fixed[n] == inserted[0] && forall k :: 0 <= k < n ==> fixed[k] == lines[k];
  }

  /** An inserted field is found again. */
  lemma {:induction false} InsertedIsFound(lines: seq<string>, field: string, value: string, notes: seq<string>)
    requires IsField(field) && value != "" && NoSpaceAtEnds(value) && NoTerminator(value)
    requires FindMetadataHeading(lines, 0) < |lines| && FieldValue(lines, field).None?
    ensures
      var fixed := Splice(lines, MetadataInsertIndex(lines), 0, [Bullet(field, value)] + notes);
      FieldValue(fixed, field) == Some(value)
  {
    var n, inserted := MetadataInsertIndex(lines), [Bullet(field, value)] + notes;
    var h := InsertionPoint(lines, field);
    BulletIsRead(field, value);
    FirstBecomesField(lines, field, h, n, inserted);
    FieldLineIs(Splice(lines, n, 0, inserted), field, h, n);
    TrimmedEnds(value);
  }

  lemma {:induction false} MetadataLine()
    ensures IsMetadataHeading("## Metadata")
  {
    SpecReturns.MetadataIsFound();
  }

  /** After `EnsureMetadata` there is a section. */
  lemma {:induction false} MetadataIsEnsured(lines: seq<string>)
    ensures FindMetadataHeading(EnsureMetadata(lines), 0) < |EnsureMetadata(lines)|
  {
    var ensured := EnsureMetadata(lines);
    if ensured != lines {
      var h1 := FindH1(lines, 0);
      var at := if h1 == |lines| then 0 else h1 + 1;
      MetadataLine();
      assert ensured[at + 1] == "## Metadata";
      HeadingIsFirst(ensured, 0);
    }
  }

  /** A field that the section does not have is there after it was inserted, with the
      inserted value. */
  lemma {:induction false} FieldIsSupplied(lines: seq<string>, field: string, value: string, note: Option<string>)
    requires IsField(field) && value != "" && NoSpaceAtEnds(value) && NoTerminator(value)
    requires FieldValue(EnsureMetadata(lines), field).None?
    ensures FieldValue(InsertField(lines, field, value, note), field) == Some(value)
  {
    MetadataIsEnsured(lines);
    InsertedIsFound(EnsureMetadata(lines), field, value, NoteLines(field, note));
  }

  // ---------------------------------------------------------------------
  // The fixes

  lemma {:induction false} ConcatEnds(a: string, b: string)
    requires a != "" && b != "" && !IsSpace(a[0]) && !IsSpace(b[|b| - 1])
    ensures a + b != "" && NoSpaceAtEnds(a + b)
  {
  }

  lemma {:induction false} DefaultsAreValues()
    ensures NoSpaceAtEnds("P2-MEDIUM") && NoTerminator("P2-MEDIUM")
    ensures NoSpaceAtEnds("BACKLOG") && NoTerminator("BACKLOG")
  {
  }

  lemma {:induction false} PlaceholderIsValue()
    ensures NoSpaceAtEnds("TBD (repair placeholder)") && NoTerminator("TBD (repair placeholder)")
    ensures "TBD " + MARKER == "TBD (repair placeholder)"
  {
    ConcatEnds("TBD ", "(repair placeholder)");
    ConcatNoTerminator("TBD ", "(repair placeholder)");
  }

  /** The draft's text is lines in which the field has the value. */
  ghost predicate Supplies(draft: Option<Draft>, field: string, value: string) {
    draft.Some? && exists fixed :: draft.value.content == JoinLines(fixed) && FieldValue(fixed, field) == Some(value)
  }

  lemma {:induction false} InsertionSupplies(content: string, field: string, value: string, note: Option<string>,
                                             action: Action)
    requires IsField(field) && value != "" && NoSpaceAtEnds(value) && NoTerminator(value)
    requires FieldValue(EnsureMetadata(SplitLines(content)), field).None?
    ensures Supplies(Some(InsertMetadataField(content, field, value, note, action)), field, value)
  {
    FieldIsSupplied(SplitLines(content), field, value, note);
  }

  /** The fix for a missing priority, effort or status supplies the default. */
  lemma {:induction false} MissingPriorityIsSupplied(content: string, options: Options)
    requires FieldValue(EnsureMetadata(SplitLines(content)), "Priority").None?
    ensures Supplies(ApplyFix(content, MissingPriority, options), "Priority", "P2-MEDIUM")
  {
    DefaultsAreValues();
    InsertionSupplies(content, "Priority", "P2-MEDIUM", Some(MissingNote("priority", "P2-MEDIUM")), PriorityDefaulted);
  }

  lemma {:induction false} EffortFix(content: string, options: Options)
    ensures ApplyFix(content, MissingEffort, options) ==
            Some(InsertMetadataField(content, "Effort", "TBD " + MARKER, None, EffortDefaulted))
  {
  }

  lemma {:induction false} StatusFix(content: string, options: Options)
    ensures ApplyFix(content, MissingStatus, options) ==
            Some(InsertMetadataField(content, "Status", "BACKLOG", Some(MissingNote("status", "BACKLOG")), StatusDefaulted))
  {
  }

  lemma {:induction false} MissingEffortIsSupplied(content: string, options: Options)
    requires FieldValue(EnsureMetadata(SplitLines(content)), "Effort").None?
    ensures Supplies(ApplyFix(content, MissingEffort, options), "Effort", "TBD (repair placeholder)")
  {
    var value := "TBD (repair placeholder)";
    PlaceholderIsValue();
    EffortFix(content, options);
    InsertionSupplies(content, "Effort", value, None, EffortDefaulted);
  }

  lemma {:induction false} MissingStatusIsSupplied(content: string, options: Options)
    requires FieldValue(EnsureMetadata(SplitLines(content)), "Status").None?
    ensures Supplies(ApplyFix(content, MissingStatus, options), "Status", "BACKLOG")
  {
    DefaultsAreValues();
    StatusFix(content, options);
    InsertionSupplies(content, "Status", "BACKLOG", Some(MissingNote("status", "BACKLOG")), StatusDefaulted);
  }

  /** A priority without a token becomes P2-MEDIUM, and the submitted text stays in the
      note. */
  lemma {:induction false} UnrecognizedPriority(lines: seq<string>, raw: string)
    requires FieldValue(lines, "Priority") == Some(raw) && raw != "" && ExtractLeadingToken(raw, PRIORITIES).None?
    ensures FixPriority(lines).Some? && FixPriority(lines).value.1 == PriorityDefaulted
    ensures FieldValue(FixPriority(lines).value.0, "Priority") == Some("P2-MEDIUM")
    ensures LineWith(FixPriority(lines).value.0, raw)
  {
    PrioritiesPlain();
    RewriteValues(lines, "Priority", "P2-MEDIUM", Some(DefaultNote(raw)));
    NoteQuotes(raw);
    RewriteNotes(lines, "Priority", "P2-MEDIUM", DefaultNote(raw), raw);
  }

  lemma {:induction false} PrioritiesPlain()
    ensures PlainName("P2-MEDIUM")
  {
    PrioritiesStand();
    NamesPlain("P2-MEDIUM");
  }

  lemma {:induction false} NoteQuotes(raw: string)
    ensures Contains(DefaultNote(raw), raw)
  {
    var a, b := "original priority \"", "\" was not recognized; defaulted to P2-MEDIUM " + CONFIRM;
    assert raw[0..|raw|] == raw && OccursAt(raw, raw, 0);
    ContainsWider(a, raw, b, raw);
    assert DefaultNote(raw) == a + raw + b;
  }

  lemma {:induction false} FirstTitle(lines: seq<string>, i: nat)
    requires i <= |lines|
    ensures FindH1(lines, i) == |lines| <==> forall k :: i <= k < |lines| ==> !StartsWith(Trim(lines[k]), "# ")
    decreases |lines| - i
  {
    if i < |lines| && !IsH1(lines[i]) {
      FirstTitle(lines, i + 1);
    }
  }

  /** A title is supplied exactly where there is none and the task's id is known. */
  lemma {:induction false} TitleOnlyWhereMissing(lines: seq<string>, hint: string)
    ensures FixMissingH1(lines, hint).Some? <==>
            Trim(hint) != "" && forall k :: 0 <= k < |lines| ==> !StartsWith(Trim(lines[k]), "# ")
  {
    FirstTitle(lines, 0);
  }

  /** A spec without a title gets one with the task's id. */
  lemma {:induction false} TitleIsSupplied(lines: seq<string>, hint: string)
    requires FixMissingH1(lines, hint).Some?
    ensures
      var fixed := FixMissingH1(lines, hint).value;
      && fixed[0] == "# " + (Trim(hint) + ": Untitled (repair placeholder)") && IsH1(fixed[0]) && fixed[1] == ""
      && fixed[2..] == lines
  {
    var fixed := FixMissingH1(lines, hint).value;
    var rest := Trim(hint) + ": Untitled (repair placeholder)";
    assert fixed[0] == "# " + rest;
    assert rest[|rest| - 1] == ')';
    TrimmedEnds(fixed[0]);
    assert fixed[2..] == lines;
  }

  // ---------------------------------------------------------------------
  // Appended sections

  /** Two texts with a line end between them, the first not ending in a carriage
      return. */
  lemma {:induction false} SplitOfTwo(a: string, b: string)
    requires a == "" || a[|a| - 1] != '\r'
    ensures SplitLines(a + "\n" + b) == SplitLines(a) + SplitLines(b)
    decreases |a|
  {
    var first, rest := FirstLineOf(a);
    if FirstLf(a) == |a| {
      SplitFirst(a, b);
    } else {
      assert a + "\n" + b == first + "\n" + (rest + "\n" + b);
      SplitFirst(first, rest + "\n" + b);
      SplitFirst(first, rest);
      assert rest != "" ==> rest[|rest| - 1] == a[|a| - 1];
      SplitOfTwo(rest, b);
    }
  }

  lemma {:induction false} SplitOfLine(a: string, b: string)
    requires '\n' !in a && (a == "" || a[|a| - 1] != '\r')
    ensures SplitLines(a + "\n" + b) == [a] + SplitLines(b)
  {
    SplitFirst(a, b);
  }

  /** A blank line, the heading, a blank line, the body, and a line end. */
  function SectionText(title: string, body: string): string {
    "\n" + (title + "\n" + ("\n" + (body + "\n")))
  }

  lemma {:induction false} AppendedText(content: string, heading: string, body: string)
    ensures AppendSection(content, heading, body) == TrimEnd(content) + "\n" + SectionText("## " + heading, body)
  {
    var t := TrimEnd(content);
    assert "\n\n## " == "\n" + ("\n" + "## ") && "\n\n" == "\n" + "\n";
  }

  lemma {:induction false} LineThen(a: string, b: string, lines: seq<string>)
    requires '\n' !in a && (a == "" || a[|a| - 1] != '\r') && SplitLines(b) == lines
    ensures SplitLines(a + "\n" + b) == [a] + lines
    ensures a == "" ==> SplitLines("\n" + b) == [""] + lines
  {
    SplitOfLine(a, b);
    assert a == "" ==> a + "\n" + b == "\n" + b;
  }

  lemma {:induction false} LastLine(body: string)
    requires NoTerminator(body)
    ensures SplitLines(body + "\n") == [body, ""]
  {
    LineHasNoEnd(body);
    SplitLast("");
    LineThen(body, "", [""]);
    assert body + "\n" + "" == body + "\n";
  }

  lemma {:induction false} BodyLines(body: string)
    requires NoTerminator(body)
    ensures SplitLines("\n" + (body + "\n")) == ["", body, ""]
  {
    LastLine(body);
    LineThen("", body + "\n", [body, ""]);
    assert [""] + [body, ""] == ["", body, ""];
  }

  lemma {:induction false} SectionLines(title: string, body: string)
    requires NoTerminator(title) && NoTerminator(body)
    ensures SplitLines(SectionText(title, body)) == ["", title, "", body, ""]
  {
    var tail, lines := "\n" + (body + "\n"), ["", body, ""];
    LineHasNoEnd(title);
    BodyLines(body);
    LineThen(title, tail, lines);
    LineThen("", title + "\n" + tail, [title] + lines);
    assert [""] + ([title] + lines) == ["", title, "", body, ""];
  }

  /** An appended section stands behind the text without its trailing blanks. */
  lemma {:induction false} SectionIsAppended(content: string, heading: string, body: string)
    requires NoTerminator(heading) && NoTerminator(body)
    ensures SplitLines(AppendSection(content, heading, body)) ==
            SplitLines(TrimEnd(content)) + ["", "## " + heading, "", body, ""]
  {
    TrimEndLemma(content);
    ConcatNoTerminator("## ", heading);
    AppendedText(content, heading, body);
    SectionLines("## " + heading, body);
    SplitOfTwo(TrimEnd(content), SectionText("## " + heading, body));
  }

  lemma {:induction false} LineHasNoEnd(s: string)
    requires NoTerminator(s)
    ensures '\n' !in s && (s == "" || s[|s| - 1] != '\r')
  {
    assert s != "" ==> s[|s| - 1] in s;
  }

  /** The heading and the body of a section that was missing. */
  function SectionOf(kind: FixKind): (string, string) {
    match kind
    case MissingProblem => ("Problem Statement", PROBLEM_BODY)
    case MissingCriteria => ("Success Criteria", CRITERIA_BODY)
    case _ => ("Testing Requirements", TESTS_BODY)
  }

  lemma {:induction false} ProblemPieces()
    ensures NoTerminator(": the original submission did ") && NoTerminator("the submitter must fill this in.")
  {
  }

  lemma {:induction false} ProblemMiddle()
    ensures NoTerminator("not include a problem statement; ") && NoTerminator("Problem Statement")
  {
  }

  lemma {:induction false} ProblemIsPlain()
    ensures NoTerminator("Problem Statement") && NoTerminator(PROBLEM_REQUEST)
  {
    var a, b, c := ": the original submission did ", "not include a problem statement; ", "the submitter must fill this in.";
    ProblemPieces();
    ProblemMiddle();
    ConcatNoTerminator(a, b);
    ConcatNoTerminator(a + b, c);
  }

  lemma {:induction false} CriteriaArePlain()
    ensures NoTerminator("Success Criteria") && NoTerminator(CRITERIA_REQUEST)
  {
    ConcatNoTerminator(": submitter must define ", "real success criteria");
  }

  lemma {:induction false} TestsArePlain()
    ensures NoTerminator("Testing Requirements") && NoTerminator(TESTS_REQUEST)
  {
    ConcatNoTerminator(": submitter must define ", "real testing requirements");
  }

  lemma {:induction false} BodyIsPlain(start: string, request: string)
    requires NoTerminator(start) && NoTerminator(request)
    ensures NoTerminator(start + MARKER + request) && StartsWith(start + MARKER + request, start + "(repair placeholder)")
  {
    ConcatNoTerminator(start, MARKER);
    ConcatNoTerminator(start + MARKER, request);
  }

  predicate IsSection(kind: FixKind) {
    kind == MissingProblem || kind == MissingCriteria || kind == MissingTests
  }

  lemma {:induction false} SectionIsPlain(kind: FixKind)
    requires IsSection(kind)
    ensures NoTerminator(SectionOf(kind).0) && NoTerminator(SectionOf(kind).1)
  {
    if kind == MissingProblem {
      ProblemIsPlain();
      BodyIsPlain("TBD ", PROBLEM_REQUEST);
    } else if kind == MissingCriteria {
      CriteriaArePlain();
      BodyIsPlain("- [ ] TBD ", CRITERIA_REQUEST);
    } else {
      TestsArePlain();
      BodyIsPlain("- [ ] TBD ", TESTS_REQUEST);
    }
  }

  /** The fix for a missing section appends its heading, and under it a placeholder. */
  lemma {:induction false} SectionIsSupplied(content: string, kind: FixKind, options: Options)
    requires IsSection(kind)
    ensures ApplyFix(content, kind, options).Some?
    ensures
      var (heading, body) := SectionOf(kind);
      SplitLines(ApplyFix(content, kind, options).value.content) ==
        SplitLines(TrimEnd(content)) + ["", "## " + heading, "", body, ""]
  {
    SectionIsPlain(kind);
    SectionIsAppended(content, SectionOf(kind).0, SectionOf(kind).1);
  }
}
