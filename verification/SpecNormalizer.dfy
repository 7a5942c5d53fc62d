/** The spec normalizer: parse, apply one fix for the reported error, and parse
    again, until the spec parses or no fix applies.  The parser is a parameter:
    any total function from lines to an outcome. */
module SpecNormalizer {
  import opened Base
  import opened Text
  import opened Lines
  import opened SpecFixes
  import Alignment
  import RepairGuard

  datatype ParseOutcome =
    | Parsed
    | TaskParseError(message: string)
    | OtherError(message: string)

  type Parser = seq<string> -> ParseOutcome

  datatype Options = Options(taskIdHint: string, date: string)

  /** A text in progress with the actions taken so far. */
  datatype Draft = Draft(content: string, actions: seq<Action>)

  datatype NormalizeResult =
    NormalizeResult(changed: bool, content: string, actions: seq<Action>, resolved: bool)

  const MAX_FIX_ITERATIONS := 12

  // ---------------------------------------------------------------------
  // One fix

  function AppendSection(content: string, heading: string, body: string): string {
    TrimEnd(content) + "\n\n## " + heading + "\n\n" + body + "\n"
  }

  const PROBLEM_REQUEST :=
    ": the original submission did " + "not include a problem statement; " + "the submitter must fill this in."
  const CRITERIA_REQUEST := ": submitter must define " + "real success criteria"
  const TESTS_REQUEST := ": submitter must define " + "real testing requirements"
  const PROBLEM_BODY := "TBD " + MARKER + PROBLEM_REQUEST
  const CRITERIA_BODY := "- [ ] TBD " + MARKER + CRITERIA_REQUEST
  const TESTS_BODY := "- [ ] TBD " + MARKER + TESTS_REQUEST

  function Edited(lines: Option<seq<string>>, action: Action): Option<Draft> {
    match lines
    case Some(l) => Some(Draft(JoinLines(l), [action]))
    case None => None
  }

  function InsertMetadataField(content: string, field: string, value: string, note: Option<string>,
                               action: Action): Draft {
    var lines := SplitLines(content);
    var section := if EnsureMetadata(lines) == lines then [] else [MetadataSectionInserted];
    Draft(JoinLines(InsertField(lines, field, value, note)), section + [action])
  }

  function MissingNote(field: string, value: string): string {
    field + " missing in submission; defaulted to " + value + " " + CONFIRM
  }

  datatype FixKind =
    | MissingH1 | H1Separator | MissingPriority | InvalidPriority | MissingEffort | MissingStatus | InvalidStatus
    | MissingProblem | MissingCriteria | MissingTests | NoFix

  /** The fix that a parse error's message calls for. */
  function FixFor(message: string): FixKind {
    if Contains(message, "Missing required H1 heading") then MissingH1
    else if Contains(message, "H1 heading does not match expected format") then H1Separator
    else if Contains(message, "Missing required metadata field: Priority") then MissingPriority
    else if Contains(message, "Invalid priority value") then InvalidPriority
    else if Contains(message, "Missing required metadata field: Effort") then MissingEffort
    else if Contains(message, "Missing required metadata field: Status") then MissingStatus
    else if Contains(message, "Invalid status value") then InvalidStatus
    else if Contains(message, "Missing required section: Problem Statement") then MissingProblem
    else if Contains(message, "Missing required field: Success Criteria") then MissingCriteria
    else if Contains(message, "Missing required field: Testing Requirements") then MissingTests
    else NoFix
  }

  /** One fix; its draft holds the new actions only. */
  function ApplyFix(content: string, kind: FixKind, options: Options): Option<Draft> {
    match kind
    case MissingH1 => Edited(FixMissingH1(SplitLines(content), options.taskIdHint), H1Inserted)
    case H1Separator => Edited(FixH1Separator(SplitLines(content)), H1SeparatorFixed)
    case MissingPriority =>
      var note := MissingNote("priority", "P2-MEDIUM");
      Some(InsertMetadataField(content, "Priority", "P2-MEDIUM", Some(note), PriorityDefaulted))
    case InvalidPriority =>
      (match FixPriority(SplitLines(content))
       case Some((lines, action)) => Some(Draft(JoinLines(lines), [action]))
       case None => None)
    case MissingEffort =>
      Some(InsertMetadataField(content, "Effort", "TBD " + MARKER, None, EffortDefaulted))
    case MissingStatus =>
      var note := MissingNote("status", "BACKLOG");
      Some(InsertMetadataField(content, "Status", "BACKLOG", Some(note), StatusDefaulted))
    case InvalidStatus => Edited(FixStatus(SplitLines(content)), StatusNormalized)
    case MissingProblem =>
      Some(Draft(AppendSection(content, "Problem Statement", PROBLEM_BODY), [ProblemStatementPlaceholder]))
    case MissingCriteria =>
      Some(Draft(AppendSection(content, "Success Criteria", CRITERIA_BODY), [SuccessCriteriaPlaceholder]))
    case MissingTests =>
      Some(Draft(AppendSection(content, "Testing Requirements", TESTS_BODY), [TestingRequirementsPlaceholder]))
    case NoFix => None
  }

  /** A fix for a text and an error message. */
  type Fixer = (string, string) -> Option<Draft>

  function FixerFor(options: Options): Fixer {
    (content: string, message: string) => ApplyFix(content, FixFor(message), options)
  }

  // ---------------------------------------------------------------------
  // The loop

  /** The draft that parses after at most `n` more rounds, or `None`, and the
      actions taken until then. */
  function Rounds(parse: Parser, fix: Fixer, draft: Draft, lastError: string, n: nat): (Option<Draft>, seq<Action>)
    decreases n
  {
    if n == 0 then (None, draft.actions)
    else
      match parse(SplitLines(draft.content))
      case Parsed => (Some(draft), draft.actions)
      case OtherError(_) => (None, draft.actions)
      case TaskParseError(message) =>
        if message == lastError then (None, draft.actions)
        else
          match fix(draft.content, message)
          case None => (None, draft.actions)
          case Some(next) =>
            Rounds(parse, fix, Draft(next.content, draft.actions + next.actions), message, n - 1)
  }

  function JoinActions(actions: seq<Action>): string {
    if actions == [] then ""
    else if |actions| == 1 then actions[0].Key()
    else actions[0].Key() + ", " + JoinActions(actions[1..])
  }

  function AddProvenance(content: string, actions: seq<Action>, date: string): string {
    var lines := SplitLines(content);
    if actions == [] || FindMetadataHeading(lines, 0) == |lines| then content
    else
      JoinLines(Splice(lines, MetadataInsertIndex(lines), 0,
                       [Bullet("Repaired", date + " spec-normalizer: " + JoinActions(actions))]))
  }

  function Unresolved(original: string, actions: seq<Action>): NormalizeResult {
    NormalizeResult(false, original, actions, false)
  }

  function Finalize(parse: Parser, options: Options, original: string, draft: Draft): NormalizeResult {
    if draft.actions == [] then NormalizeResult(false, original, [], true)
    else
      var repaired := AddProvenance(draft.content, draft.actions, options.date);
      if !RepairGuard.Accepts(SplitLines(original), SplitLines(repaired)) then Unresolved(original, draft.actions)
      else if !parse(SplitLines(repaired)).Parsed? then Unresolved(original, draft.actions)
      else
        NormalizeResult(true, InLineEndsOf(original, repaired), draft.actions, true)
  }

  /** The text with the line ends that dominate in the submission. */
  function InLineEndsOf(original: string, repaired: string): string {
    if UsesCrlf(original) then ToCrlf(repaired) else repaired
  }

  function NormalizeWithin(parse: Parser, content: string, options: Options, rounds: nat): NormalizeResult {
    var (draft, actions) := Rounds(parse, FixerFor(options), Draft(ToLf(content), []), "", rounds);
    match draft
    case Some(d) => Finalize(parse, options, content, d)
    case None => Unresolved(content, actions)
  }

  function Normalize(parse: Parser, content: string, options: Options): NormalizeResult {
    NormalizeWithin(parse, content, options, MAX_FIX_ITERATIONS)
  }

  method NormalizeSpec(parse: Parser, content: string, options: Options) returns (result: NormalizeResult)
    ensures result == Normalize(parse, content, options)
  {
    var current := ToLf(content);
    var actions: seq<Action> := [];
    var lastError := "";
    for i := 0 to MAX_FIX_ITERATIONS
      invariant Rounds(parse, FixerFor(options), Draft(current, actions), lastError, MAX_FIX_ITERATIONS - i) ==
                Rounds(parse, FixerFor(options), Draft(ToLf(content), []), "", MAX_FIX_ITERATIONS)
    {
      match parse(SplitLines(current)) {
        case Parsed =>
          return Finalize(parse, options, content, Draft(current, actions));
        case OtherError(_) =>
          return Unresolved(content, actions);
        case TaskParseError(message) =>
          if message == lastError {
            return Unresolved(content, actions);
          }
          lastError := message;
          var next := FixerFor(options)(current, message);
          if next.None? {
            return Unresolved(content, actions);
          }
          current := next.value.content;
          actions := actions + next.value.actions;
      }
    }
    return Unresolved(content, actions);
  }

  // ---------------------------------------------------------------------
  // All or nothing

  /** What a changed result is made of: a text that parses, that the guard
      accepts as a repair of the submission, in the submission's line ends. */
  ghost predicate IsRepair(parse: Parser, content: string, repaired: string, output: string) {
    parse(SplitLines(repaired)).Parsed? &&
    RepairGuard.Accepts(SplitLines(content), SplitLines(repaired)) &&
    output == InLineEndsOf(content, repaired)
  }

  ghost predicate IsLosslessRepair(parse: Parser, content: string, repaired: string, output: string) {
    IsRepair(parse, content, repaired, output) &&
    Alignment.Subsequence(RepairGuard.Kept(SplitLines(content)), RepairGuard.Kept(SplitLines(repaired)))
  }

  /** An unresolved or unchanged result is the submission itself; a changed one
      parses and loses no protected line of the submission. */
  lemma {:induction false} AllOrNothing(parse: Parser, content: string, options: Options)
    ensures
      var r := Normalize(parse, content, options);
      && (!r.changed ==> r.content == content)
      && (r.changed ==> r.resolved)
      && (r.changed ==> exists repaired :: IsLosslessRepair(parse, content, repaired, r.content))
  {
    var r := Normalize(parse, content, options);
    if r.changed {
      var d := Rounds(parse, FixerFor(options), Draft(ToLf(content), []), "", MAX_FIX_ITERATIONS).0.value;
      var repaired := AddProvenance(d.content, d.actions, options.date);
      assert IsRepair(parse, content, repaired, r.content);
      RepairGuard.RepairKeepsProtected(SplitLines(content), SplitLines(repaired));
      assert IsLosslessRepair(parse, content, repaired, r.content);
    }
  }

  // ---------------------------------------------------------------------
  // A repaired spec is never silently dispatchable

  ghost predicate Invents(actions: seq<Action>) {
    exists k :: 0 <= k < |actions| && actions[k].Invents()
  }

  lemma {:induction false} MissingNoteHoldsMarker(field: string, value: string)
    ensures Contains(MissingNote(field, value), MARKER)
  {
    ConfirmHoldsMarker(field + " missing in submission; defaulted to " + value + " ");
  }

  lemma {:induction false} SectionHoldsMarker(content: string, heading: string, before: string, after: string)
    ensures Contains(AppendSection(content, heading, before + MARKER + after), MARKER)
  {
    var a := TrimEnd(content) + "\n\n## " + heading + "\n\n";
    ContainsPart(a + before, MARKER, after + "\n");
    assert AppendSection(content, heading, before + MARKER + after) == (a + before) + MARKER + (after + "\n");
  }

  lemma {:induction false} LinesHoldMarker(lines: seq<string>)
    requires LineWith(lines, MARKER)
    ensures Contains(JoinLines(lines), MARKER)
  {
    var k :| 0 <= k < |lines| && Contains(lines[k], MARKER);
    JoinKeeps(lines, k, MARKER);
  }

  lemma {:induction false} EffortHoldsMarker()
    ensures Contains("TBD " + MARKER, MARKER)
  {
    ContainsPart("TBD ", MARKER, "");
    assert "TBD " + MARKER == "TBD " + MARKER + "";
  }

  lemma {:induction false} MissingH1HoldsMarker(lines: seq<string>, hint: string)
    requires FixMissingH1(lines, hint).Some?
    ensures LineWith(FixMissingH1(lines, hint).value, MARKER)
  {
    var a := "# " + Trim(hint) + ": Untitled ";
    ContainsPart(a, MARKER, "");
    assert FixMissingH1(lines, hint).value[0] == a + MARKER + "";
  }

  lemma {:induction false} FieldFixHoldsMarker(content: string, field: string, value: string, note: Option<string>,
                                               action: Action)
    requires Contains(value, MARKER) || (note.Some? && Contains(note.value, MARKER))
    ensures Contains(InsertMetadataField(content, field, value, note, action).content, MARKER)
  {
    InsertFieldHolds(SplitLines(content), field, value, note, MARKER);
    LinesHoldMarker(InsertField(SplitLines(content), field, value, note));
  }

  lemma {:induction false} EditKeepsMarker(lines: Option<seq<string>>, action: Action)
    requires lines.Some? && LineWith(lines.value, MARKER)
    ensures Contains(Edited(lines, action).value.content, MARKER)
  {
    LinesHoldMarker(lines.value);
  }

  lemma {:induction false} H1FixKeepsMarker(content: string, kind: FixKind, options: Options)
    requires kind in {MissingH1, H1Separator} && ApplyFix(content, kind, options).Some?
    requires kind == H1Separator ==> Contains(content, MARKER)
    ensures Contains(ApplyFix(content, kind, options).value.content, MARKER)
  {
    var lines := SplitLines(content);
    if kind == MissingH1 {
      MissingH1HoldsMarker(lines, options.taskIdHint);
      EditKeepsMarker(FixMissingH1(lines, options.taskIdHint), H1Inserted);
    } else {
      SplitKeeps(content, MARKER);
      SeparatorFixKeepsMarker(lines);
      EditKeepsMarker(FixH1Separator(lines), H1SeparatorFixed);
    }
  }

  lemma {:induction false} InvalidPriorityFixKeepsMarker(content: string)
    requires FixPriority(SplitLines(content)).Some?
    requires Contains(content, MARKER) || FixPriority(SplitLines(content)).value.1 == PriorityDefaulted
    ensures Contains(JoinLines(FixPriority(SplitLines(content)).value.0), MARKER)
  {
    if Contains(content, MARKER) {
      SplitKeeps(content, MARKER);
    }
    PriorityLinesHoldMarker(SplitLines(content));
  }

  lemma {:induction false} PriorityLinesHoldMarker(lines: seq<string>)
    requires FixPriority(lines).Some? && (LineWith(lines, MARKER) || FixPriority(lines).value.1 == PriorityDefaulted)
    ensures Contains(JoinLines(FixPriority(lines).value.0), MARKER)
  {
    PriorityFixKeepsMarker(lines);
    LinesHoldMarker(FixPriority(lines).value.0);
  }

  lemma {:induction false} PriorityActions(lines: seq<string>)
    requires FixPriority(lines).Some?
    ensures FixPriority(lines).value.1 == PriorityExtracted || FixPriority(lines).value.1 == PriorityDefaulted
  {
  }

  lemma {:induction false} InvalidStatusFixKeepsMarker(content: string)
    requires FixStatus(SplitLines(content)).Some? && Contains(content, MARKER)
    ensures Contains(Edited(FixStatus(SplitLines(content)), StatusNormalized).value.content, MARKER)
  {
    SplitKeeps(content, MARKER);
    StatusFixKeepsMarker(SplitLines(content));
    EditKeepsMarker(FixStatus(SplitLines(content)), StatusNormalized);
  }

  lemma {:induction false} FieldFixesHoldMarker(content: string, kind: FixKind, options: Options)
    requires kind in {MissingPriority, MissingEffort, MissingStatus}
    ensures Contains(ApplyFix(content, kind, options).value.content, MARKER)
  {
    match kind {
      case MissingPriority =>
        var note := MissingNote("priority", "P2-MEDIUM");
        MissingNoteHoldsMarker("priority", "P2-MEDIUM");
        FieldFixHoldsMarker(content, "Priority", "P2-MEDIUM", Some(note), PriorityDefaulted);
      case MissingEffort =>
        EffortHoldsMarker();
        FieldFixHoldsMarker(content, "Effort", "TBD " + MARKER, None, EffortDefaulted);
      case MissingStatus =>
        var note := MissingNote("status", "BACKLOG");
        MissingNoteHoldsMarker("status", "BACKLOG");
        FieldFixHoldsMarker(content, "Status", "BACKLOG", Some(note), StatusDefaulted);
    }
  }

  lemma {:induction false} SectionFixesHoldMarker(content: string, kind: FixKind, options: Options)
    requires kind in {MissingProblem, MissingCriteria, MissingTests}
    ensures Contains(ApplyFix(content, kind, options).value.content, MARKER)
  {
    match kind {
      case MissingProblem =>
        SectionHoldsMarker(content, "Problem Statement", "TBD ", PROBLEM_REQUEST);
      case MissingCriteria =>
        SectionHoldsMarker(content, "Success Criteria", "- [ ] TBD ", CRITERIA_REQUEST);
      case MissingTests =>
        SectionHoldsMarker(content, "Testing Requirements", "- [ ] TBD ", TESTS_REQUEST);
    }
  }

  /** Every fix keeps a marker that is there, and a fix that invents a value
      leaves one. */
  lemma {:induction false} FixKeepsMarker(content: string, kind: FixKind, options: Options)
    requires ApplyFix(content, kind, options).Some?
    requires Contains(content, MARKER) || Invents(ApplyFix(content, kind, options).value.actions)
    ensures Contains(ApplyFix(content, kind, options).value.content, MARKER)
  {
    if kind in {MissingH1, H1Separator} {
      H1FixKeepsMarker(content, kind, options);
    } else if kind == InvalidPriority {
      PriorityActions(SplitLines(content));
      InvalidPriorityFixKeepsMarker(content);
    } else if kind == InvalidStatus {
      InvalidStatusFixKeepsMarker(content);
    } else if kind in {MissingPriority, MissingEffort, MissingStatus} {
      FieldFixesHoldMarker(content, kind, options);
    } else {
      SectionFixesHoldMarker(content, kind, options);
    }
  }

  ghost predicate KeepsMarker(fix: Fixer) {
    forall content, message ::
      fix(content, message).Some? && (Contains(content, MARKER) || Invents(fix(content, message).value.actions)) ==>
        Contains(fix(content, message).value.content, MARKER)
  }

  ghost predicate Acts(fix: Fixer) {
    forall content, message :: fix(content, message).Some? ==> fix(content, message).value.actions != []
  }

  lemma {:induction false} FixesAct(content: string, kind: FixKind, options: Options)
    requires ApplyFix(content, kind, options).Some?
    ensures ApplyFix(content, kind, options).value.actions != []
  {
  }

  lemma {:induction false} FixerIsSound(options: Options)
    ensures KeepsMarker(FixerFor(options)) && Acts(FixerFor(options))
  {
    var fix := FixerFor(options);
    forall content, message | fix(content, message).Some?
      ensures fix(content, message).value.actions != []
      ensures Contains(content, MARKER) || Invents(fix(content, message).value.actions) ==>
                Contains(fix(content, message).value.content, MARKER)
    {
      FixesAct(content, FixFor(message), options);
      if Contains(content, MARKER) || Invents(ApplyFix(content, FixFor(message), options).value.actions) {
        FixKeepsMarker(content, FixFor(message), options);
      }
    }
  }

  lemma {:induction false} InventsMore(a: seq<Action>, b: seq<Action>)
    ensures Invents(a + b) <==> Invents(a) || Invents(b)
  {
    if k :| 0 <= k < |a| && a[k].Invents() {
      assert (a + b)[k] == a[k];
    }
    if k :| 0 <= k < |b| && b[k].Invents() {
      assert (a + b)[|a| + k] == b[k];
    }
  }

  lemma {:induction false} RoundsKeepMarker(parse: Parser, fix: Fixer, draft: Draft, lastError: string, n: nat)
    requires KeepsMarker(fix)
    requires Rounds(parse, fix, draft, lastError, n).0.Some?
    requires Contains(draft.content, MARKER) || Invents(Rounds(parse, fix, draft, lastError, n).1)
    requires Invents(draft.actions) ==> Contains(draft.content, MARKER)
    ensures Contains(Rounds(parse, fix, draft, lastError, n).0.value.content, MARKER)
    decreases n
  {
    var outcome := parse(SplitLines(draft.content));
    if outcome.TaskParseError? {
      var next := fix(draft.content, outcome.message).value;
      InventsMore(draft.actions, next.actions);
      RoundsKeepMarker(parse, fix, Draft(next.content, draft.actions + next.actions), outcome.message, n - 1);
    }
  }

  /** A draft that parses carries all actions; without any, it is the text the
      rounds began with. */
  lemma {:induction false} RoundsActions(parse: Parser, fix: Fixer, draft: Draft, lastError: string, n: nat)
    requires Acts(fix)
    ensures
      var (result, actions) := Rounds(parse, fix, draft, lastError, n);
      && (result.Some? ==> result.value.actions == actions && parse(SplitLines(result.value.content)).Parsed?)
      && draft.actions <= actions
      && (result.Some? && actions == [] ==> result.value == draft)
    decreases n
  {
    var outcome := parse(SplitLines(draft.content));
    if n > 0 && outcome.TaskParseError? && outcome.message != lastError {
      var next := fix(draft.content, outcome.message);
      if next.Some? {
        RoundsActions(parse, fix, Draft(next.value.content, draft.actions + next.value.actions), outcome.message, n - 1);
      }
    }
  }

  lemma {:induction false} ProvenanceKeepsMarker(content: string, actions: seq<Action>, date: string)
    requires Contains(content, MARKER)
    ensures Contains(AddProvenance(content, actions, date), MARKER)
  {
    var lines := SplitLines(content);
    SplitKeeps(content, MARKER);
    if AddProvenance(content, actions, date) != content {
      var line := [Bullet("Repaired", date + " spec-normalizer: " + JoinActions(actions))];
      SpliceKeeps(lines, MetadataInsertIndex(lines), 0, line, MARKER);
      LinesHoldMarker(Splice(lines, MetadataInsertIndex(lines), 0, line));
    }
  }

  /** If the submission held the placeholder marker, or any fix invented a value,
      the resolved output still holds the marker: it cannot be dispatched before
      a human removes it. */
  lemma {:induction false} ResolvedKeepsMarker(parse: Parser, content: string, options: Options)
    requires Normalize(parse, content, options).resolved
    requires Contains(content, MARKER) || Invents(Normalize(parse, content, options).actions)
    ensures Contains(Normalize(parse, content, options).content, MARKER)
  {
    ResolvedWithinKeepsMarker(parse, content, options, MAX_FIX_ITERATIONS);
  }

  lemma {:induction false} ResolvedWithinKeepsMarker(parse: Parser, content: string, options: Options, rounds: nat)
    requires NormalizeWithin(parse, content, options, rounds).resolved
    requires Contains(content, MARKER) || Invents(NormalizeWithin(parse, content, options, rounds).actions)
    ensures Contains(NormalizeWithin(parse, content, options, rounds).content, MARKER)
  {
    var d := Rounds(parse, FixerFor(options), Draft(ToLf(content), []), "", rounds).0.value;
    FixerIsSound(options);
    RoundsActions(parse, FixerFor(options), Draft(ToLf(content), []), "", rounds);
    DraftKeepsMarker(parse, FixerFor(options), content, rounds);
    if d.actions != [] {
      FinishingKeepsMarker(content, d.content, d.actions, options.date);
    }
  }

  /** What the rounds make of the submission holds the marker. */
  lemma {:induction false} DraftKeepsMarker(parse: Parser, fix: Fixer, content: string, rounds: nat)
    requires KeepsMarker(fix) && Acts(fix)
    requires Rounds(parse, fix, Draft(ToLf(content), []), "", rounds).0.Some?
    requires Contains(content, MARKER) || Invents(Rounds(parse, fix, Draft(ToLf(content), []), "", rounds).1)
    ensures var r := Rounds(parse, fix, Draft(ToLf(content), []), "", rounds);
            Contains(r.0.value.content, MARKER) && r.0.value.actions == r.1
  {
    if Contains(content, MARKER) {
      LfKeeps(content, MARKER);
    }
    RoundsActions(parse, fix, Draft(ToLf(content), []), "", rounds);
    RoundsKeepMarker(parse, fix, Draft(ToLf(content), []), "", rounds);
  }

  lemma {:induction false} FinishingKeepsMarker(original: string, content: string, actions: seq<Action>, date: string)
    requires Contains(content, MARKER)
    ensures Contains(InLineEndsOf(original, AddProvenance(content, actions, date)), MARKER)
  {
    ProvenanceKeepsMarker(content, actions, date);
    LineEndsKeepMarker(original, AddProvenance(content, actions, date));
  }

  lemma {:induction false} LineEndsKeepMarker(original: string, repaired: string)
    requires Contains(repaired, MARKER)
    ensures Contains(InLineEndsOf(original, repaired), MARKER)
  {
    CrlfKeeps(repaired, MARKER);
  }
}
