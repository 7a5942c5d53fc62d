/** Normalizing a resolved result again changes nothing, if the parser ignores
    carriage returns at the ends of lines.  For other parsers it changes nothing
    unless the submission has LF line ends and ends in two carriage returns: every
    fix keeps it true that no line ends in two carriage returns. */
module SpecStability {
  import opened Base
  import opened Text
  import opened Lines
  import opened SpecFixes
  import opened SpecNormalizer

  lemma {:induction false} TrimStartIsSuffix(s: string) returns (n: nat)
    ensures n <= |s| && TrimStart(s) == s[n..]
  {
    if s != "" && IsSpace(s[0]) {
      var k := TrimStartIsSuffix(s[1..]);
      n := k + 1;
    } else {
      n := 0;
    }
  }

  lemma {:induction false} TrimEndTame(s: string)
    requires Tame(s)
    ensures Tame(TrimEnd(s)) && !EndsInCr(TrimEnd(s))
  {
    TrimEndLemma(s);
    assert TrimEnd(s) == s[..|TrimEnd(s)|];
    TamePrefix(s, |TrimEnd(s)|);
  }

  lemma {:induction false} TrimTame(s: string)
    requires Tame(s)
    ensures Tame(Trim(s))
  {
    var n := TrimStartIsSuffix(s);
    TameSuffix(s, n);
    TrimEndTame(TrimStart(s));
  }

  lemma {:induction false} TrimEndNoCr(s: string)
    requires NoCr(s)
    ensures NoCr(TrimEnd(s))
  {
    TrimEndLemma(s);
  }

  lemma {:induction false} TrimStartNoCr(s: string)
    requires NoCr(s)
    ensures NoCr(TrimStart(s))
  {
    if s != "" && IsSpace(s[0]) {
      assert forall c :: c in s[1..] ==> c in s;
      TrimStartNoCr(s[1..]);
    }
  }

  lemma {:induction false} TrimNoCr(s: string)
    requires NoCr(s)
    ensures NoCr(Trim(s))
  {
    TrimStartNoCr(s);
    TrimEndNoCr(TrimStart(s));
  }

  lemma {:induction false} SpliceTame(lines: seq<string>, at: nat, removed: nat, inserted: seq<string>)
    requires at + removed <= |lines| && TameLines(lines) && TameLines(inserted)
    ensures TameLines(Splice(lines, at, removed, inserted))
  {
  }

  lemma {:induction false} ConcatNoCr(a: string, b: string)
    requires NoCr(a) && NoCr(b)
    ensures NoCr(a + b)
  {
  }

  lemma {:induction false} BulletNoCr(field: string, value: string)
    requires NoCr(field) && NoCr(value)
    ensures NoCr(Bullet(field, value))
  {
  }

  lemma {:induction false} NoteTame(field: string, note: Option<string>)
    requires NoCr(field) && (note.Some? ==> NoCr(note.value))
    ensures TameLines(NoteLines(field, note))
  {
    if note.Some? {
      BulletNoCr(field + "-Note", note.value);
      NoCrIsTame(Bullet(field + "-Note", note.value));
    }
  }

  lemma {:induction false} InsertFieldTame(lines: seq<string>, field: string, value: string, note: Option<string>)
    requires TameLines(lines) && NoCr(field) && NoCr(value) && (note.Some? ==> NoCr(note.value))
    ensures TameLines(InsertField(lines, field, value, note))
  {
    var ensured := EnsureMetadata(lines);
    EnsureTame(lines);
    BulletNoCr(field, value);
    NoCrIsTame(Bullet(field, value));
    NoteTame(field, note);
    SpliceTame(ensured, MetadataInsertIndex(ensured), 0, [Bullet(field, value)] + NoteLines(field, note));
  }

  lemma {:induction false} EnsureTame(lines: seq<string>)
    requires TameLines(lines)
    ensures TameLines(EnsureMetadata(lines))
  {
    var h1 := FindH1(lines, 0);
    NoCrIsTame("");
    NoCrIsTame("## Metadata");
    SpliceTame(lines, if h1 == |lines| then 0 else h1 + 1, 0, ["", "## Metadata"]);
  }

  predicate Clean(s: string) {
    NoCr(s) && s != "" && s[0] != '\n'
  }

  /** A value has no line terminator. */
  lemma {:induction false} ValueClean(line: string, field: string)
    requires ValueOf(line, field).Some?
    ensures Clean(ValueOf(line, field).value)
  {
    var v := ValueOf(line, field).value;
    assert v != "" && v[0] in v;
    assert NoTerminator(v);
  }

  predicate IsSuffix(v: string, s: string) {
    |v| <= |s| && s[|s| - |v|..] == v
  }

  lemma {:induction false} TailIsSuffix(s: string, n: nat)
    requires n <= |s|
    ensures IsSuffix(s[n..], s)
  {
  }

  lemma {:induction false} SuffixOfSuffix(u: string, v: string, s: string)
    requires IsSuffix(u, v) && IsSuffix(v, s)
    ensures IsSuffix(u, s)
  {
    assert s[|s| - |u|..] == s[|s| - |v|..][|v| - |u|..];
  }

  lemma {:induction false} TrimStartOfSuffix(v: string, s: string)
    requires IsSuffix(v, s)
    ensures IsSuffix(TrimStart(v), s)
  {
    var n := TrimStartIsSuffix(v);
    TailIsSuffix(v, n);
    SuffixOfSuffix(TrimStart(v), v, s);
  }

  lemma {:induction false} TailOfSuffix(v: string, n: nat, s: string)
    requires n <= |v| && IsSuffix(v, s)
    ensures IsSuffix(v[n..], s)
  {
    TailIsSuffix(v, n);
    SuffixOfSuffix(v[n..], v, s);
  }

  lemma {:induction false} ValueIsSuffix(line: string, field: string)
    requires ValueOf(line, field).Some?
    ensures IsSuffix(ValueOf(line, field).value, line)
  {
    var b := TrimStart(line);
    var c := TrimStart(b[1..]);
    var tag := |"**" + field + ":**"|;
    TrimStartOfSuffix(line, line);
    TailOfSuffix(b, 1, line);
    TrimStartOfSuffix(b[1..], line);
    TailOfSuffix(c, tag, line);
    TrimStartOfSuffix(c[tag..], line);
    if TrimStart(c[tag..]) == "" && c[tag..] != "" {
      TailOfSuffix(c[tag..], |c[tag..]| - 1, line);
    }
  }

  lemma {:induction false} RewriteTame(lines: seq<string>, field: string, value: string, note: Option<string>)
    requires TameLines(lines) && NoCr(field) && NoCr(value) && (note.Some? ==> NoCr(note.value))
    requires value != "" && value[0] != '\n' && RewriteValue(lines, field, value, note).Some?
    ensures TameLines(RewriteValue(lines, field, value, note).value)
  {
    var k := FieldLine(lines, field).value;
    var n := |lines[k]| - |ValueOf(lines[k], field).value|;
    ValueClean(lines[k], field);
    ValueIsSuffix(lines[k], field);
    assert lines[k][n] == lines[k][n..][0];
    NoteTame(field, note);
    TameReplaced(lines[k], n, value);
    SpliceTame(lines, k, 1, [lines[k][..n] + value] + NoteLines(field, note));
  }

  lemma {:induction false} FieldValueNoCr(lines: seq<string>, field: string)
    requires FieldValue(lines, field).Some?
    ensures NoCr(FieldValue(lines, field).value)
  {
    var k := FieldLine(lines, field).value;
    ValueClean(lines[k], field);
    TrimNoCr(ValueOf(lines[k], field).value);
  }

  predicate CleanNames(candidates: seq<Candidate>) {
    forall k :: 0 <= k < |candidates| ==> Clean(candidates[k].1)
  }

  lemma {:induction false} InsertByLengthClean(c: Candidate, sorted: seq<Candidate>)
    requires CleanNames(sorted) && Clean(c.1)
    ensures CleanNames(InsertByLength(c, sorted))
  {
    if sorted != [] && |sorted[0].0| >= |c.0| {
      InsertByLengthClean(c, sorted[1..]);
    }
  }

  lemma {:induction false} LongestFirstClean(candidates: seq<Candidate>)
    requires CleanNames(candidates)
    ensures CleanNames(LongestFirst(candidates))
  {
    if candidates != [] {
      var n := |candidates| - 1;
      LongestFirstClean(candidates[..n]);
      InsertByLengthClean(candidates[n], LongestFirst(candidates[..n]));
    }
  }

  lemma {:induction false} FirstTokenClean(trimmed: string, candidates: seq<Candidate>)
    requires CleanNames(candidates) && FirstToken(trimmed, candidates).Some?
    ensures Clean(FirstToken(trimmed, candidates).value)
  {
    if FirstToken(trimmed, candidates) != Some(candidates[0].1) {
      FirstTokenClean(trimmed, candidates[1..]);
    }
  }

  lemma {:induction false} LookupClean(aliases: seq<Candidate>, name: string)
    requires CleanNames(aliases) && Lookup(aliases, name).Some?
    ensures Clean(Lookup(aliases, name).value)
  {
    if aliases[0].0 != name {
      LookupClean(aliases[1..], name);
    }
  }

  lemma {:induction false} TokenClean(raw: string, candidates: seq<Candidate>)
    requires CleanNames(candidates) && ExtractLeadingToken(raw, candidates).Some?
    ensures Clean(ExtractLeadingToken(raw, candidates).value)
  {
    LongestFirstClean(candidates);
    FirstTokenClean(Trim(raw), LongestFirst(candidates));
  }

  lemma {:induction false} PrioritiesClean()
    ensures CleanNames(PRIORITIES)
  {
  }

  lemma {:induction false} StatusNamesClean()
    ensures CleanNames(STATUSES)
  {
  }

  lemma {:induction false} AliasesClean()
    ensures CleanNames(STATUS_ALIASES) && CleanNames(EXTENDED_STATUS_ALIASES)
  {
  }

  lemma {:induction false} AppendedClean(a: seq<Candidate>, b: seq<Candidate>)
    requires CleanNames(a) && CleanNames(b)
    ensures CleanNames(a + b)
  {
  }

  lemma {:induction false} NormalizedNoCr(what: string, raw: string, canonical: string)
    requires NoCr(what) && NoCr(raw) && NoCr(canonical)
    ensures NoCr(Normalized(what, raw, canonical))
  {
  }

  lemma {:induction false} PriorityTokenClean(raw: string)
    requires ExtractLeadingToken(raw, PRIORITIES).Some?
    ensures Clean(ExtractLeadingToken(raw, PRIORITIES).value)
  {
    PrioritiesClean();
    TokenClean(raw, PRIORITIES);
  }

  lemma {:induction false} ExtractionTame(lines: seq<string>, raw: string, canonical: string)
    requires TameLines(lines) && NoCr(raw) && Clean(canonical)
    ensures
      var note := if Upper(raw) == canonical then None else Some(Normalized("priority", raw, canonical));
      var updated := RewriteValue(lines, "Priority", canonical, note);
      updated.Some? ==> TameLines(updated.value)
  {
    NormalizedNoCr("priority", raw, canonical);
    var note := if Upper(raw) == canonical then None else Some(Normalized("priority", raw, canonical));
    if RewriteValue(lines, "Priority", canonical, note).Some? {
      RewriteTame(lines, "Priority", canonical, note);
    }
  }

  lemma {:induction false} DefaultNoteNoCr(raw: string)
    requires NoCr(raw)
    ensures NoCr(DefaultNote(raw))
  {
    var before, after := "original priority \"", "\" was not recognized; defaulted to P2-MEDIUM ";
    ConcatNoCr(before, raw);
    ConcatNoCr(before + raw, after);
    ConfirmNoCr();
    ConcatNoCr(before + raw + after, CONFIRM);
  }

  lemma {:induction false} ConfirmNoCr()
    ensures NoCr(CONFIRM)
  {
    ConcatNoCr("by spec repair ", MARKER);
    ConcatNoCr("by spec repair " + MARKER, "; confirm before dispatch");
  }

  lemma {:induction false} DefaultTame(lines: seq<string>, raw: string)
    requires TameLines(lines) && NoCr(raw)
    ensures
      var updated := RewriteValue(lines, "Priority", "P2-MEDIUM", Some(DefaultNote(raw)));
      updated.Some? ==> TameLines(updated.value)
  {
    DefaultNoteNoCr(raw);
    if RewriteValue(lines, "Priority", "P2-MEDIUM", Some(DefaultNote(raw))).Some? {
      RewriteTame(lines, "Priority", "P2-MEDIUM", Some(DefaultNote(raw)));
    }
  }

  lemma {:induction false} PriorityFixTame(lines: seq<string>)
    requires TameLines(lines) && FixPriority(lines).Some?
    ensures TameLines(FixPriority(lines).value.0)
  {
    var raw := FieldValue(lines, "Priority").value;
    FieldValueNoCr(lines, "Priority");
    if ExtractLeadingToken(raw, PRIORITIES).Some? {
      PriorityTokenClean(raw);
      ExtractionTame(lines, raw, ExtractLeadingToken(raw, PRIORITIES).value);
    } else {
      DefaultTame(lines, raw);
    }
  }

  lemma {:induction false} RecognizedClean(raw: string)
    requires RecognizedStatus(raw).Some?
    ensures Clean(RecognizedStatus(raw).value)
  {
    AliasesClean();
    if Lookup(EXTENDED_STATUS_ALIASES, Upper(Trim(raw))).Some? {
      LookupClean(EXTENDED_STATUS_ALIASES, Upper(Trim(raw)));
    } else {
      StatusNamesClean();
      AppendedClean(STATUSES, STATUS_ALIASES);
      AppendedClean(STATUSES + STATUS_ALIASES, EXTENDED_STATUS_ALIASES);
      TokenClean(raw, STATUSES + STATUS_ALIASES + EXTENDED_STATUS_ALIASES);
    }
  }

  lemma {:induction false} StatusFixTame(lines: seq<string>)
    requires TameLines(lines) && FixStatus(lines).Some?
    ensures TameLines(FixStatus(lines).value)
  {
    var raw := FieldValue(lines, "Status").value;
    var canonical := RecognizedStatus(raw).value;
    FieldValueNoCr(lines, "Status");
    RecognizedClean(raw);
    NormalizedNoCr("status", raw, canonical);
    RewriteTame(lines, "Status", canonical, Some(Normalized("status", raw, canonical)));
  }

  /** A task id at `i` does not end in a carriage return. */
  lemma {:induction false} IdEndsClean(t: string, i: nat)
    requires i <= |t|
    ensures !EndsInCr(t[i..HeadingIdEnd(t, i)])
  {
    var e := HeadingIdEnd(t, i);
    if e > i {
      if OccursAt(t, "TASK-", i) {
        DigitRun(t, i + 5, DigitsEnd(t, i + 5));
      } else {
        DigitRun(t, i + 11, DigitsEnd(t, i + 11));
      }
      assert t[i..e][e - i - 1] == t[e - 1];
    }
  }

  lemma {:induction false} IdTame(t: string, i: nat)
    requires i <= |t| && Tame(t)
    ensures Tame(t[i..HeadingIdEnd(t, i)])
  {
    var e := HeadingIdEnd(t, i);
    IdEndsClean(t, i);
    TameSuffix(t, i);
    assert t[i..][..e - i] == t[i..e];
    TamePrefix(t[i..], e - i);
  }

  lemma {:induction false} HeadingTame(id: string, title: string)
    requires Tame(id) && !EndsInCr(id) && Tame(title)
    ensures Tame("# " + id + ": " + title)
  {
    NoCrIsTame("# ");
    NoCrIsTame(": ");
    TameConcat("# ", id);
    assert !EndsInCr("# " + id);
    TameConcat("# " + id, ": ");
    TameConcat("# " + id + ": ", title);
  }

  lemma {:induction false} SeparatorFixTame(lines: seq<string>)
    requires TameLines(lines) && FixH1Separator(lines).Some?
    ensures TameLines(FixH1Separator(lines).value)
  {
    var k := FindH1(lines, 0);
    var t := Trim(lines[k]);
    var i := SpacesEnd(t, 1);
    TrimTame(lines[k]);
    IdTame(t, i);
    IdEndsClean(t, i);
    TameSuffix(t, TitleStart(t));
    var heading := "# " + t[i..HeadingIdEnd(t, i)] + ": " + t[TitleStart(t)..];
    HeadingTame(t[i..HeadingIdEnd(t, i)], t[TitleStart(t)..]);
    SpliceTame(lines, k, 1, [heading]);
  }

  lemma {:induction false} MissingH1Tame(lines: seq<string>, hint: string)
    requires TameLines(lines) && NoCr(hint) && FixMissingH1(lines, hint).Some?
    ensures TameLines(FixMissingH1(lines, hint).value)
  {
    TrimNoCr(hint);
    var heading := "# " + Trim(hint) + ": Untitled " + MARKER;
    assert NoCr(heading);
    NoCrIsTame(heading);
    NoCrIsTame("");
  }

  predicate IsEdit(kind: FixKind) {
    kind == MissingH1 || kind == H1Separator || kind == InvalidPriority || kind == InvalidStatus
  }

  lemma {:induction false} EditTame(content: string, kind: FixKind, options: Options)
    requires Tame(content) && NoCr(options.taskIdHint) && IsEdit(kind) && ApplyFix(content, kind, options).Some?
    ensures Tame(ApplyFix(content, kind, options).value.content)
  {
    var lines := SplitLines(content);
    SplitOfTame(content);
    match kind {
      case MissingH1 =>
        MissingH1Tame(lines, options.taskIdHint);
        JoinOfTame(FixMissingH1(lines, options.taskIdHint).value);
      case H1Separator =>
        SeparatorFixTame(lines);
        JoinOfTame(FixH1Separator(lines).value);
      case InvalidPriority =>
        PriorityFixTame(lines);
        JoinOfTame(FixPriority(lines).value.0);
      case InvalidStatus =>
        StatusFixTame(lines);
        JoinOfTame(FixStatus(lines).value);
    }
  }

  lemma {:induction false} FieldFixTame(content: string, field: string, value: string, note: Option<string>,
                                        action: Action)
    requires Tame(content) && NoCr(field) && NoCr(value) && (note.Some? ==> NoCr(note.value))
    ensures Tame(InsertMetadataField(content, field, value, note, action).content)
  {
    SplitOfTame(content);
    InsertFieldTame(SplitLines(content), field, value, note);
    JoinOfTame(InsertField(SplitLines(content), field, value, note));
  }

  lemma {:induction false} AppendTame(content: string, heading: string, body: string)
    requires Tame(content) && NoCr(heading) && NoCr(body)
    ensures Tame(AppendSection(content, heading, body))
  {
    var section := "\n\n## " + heading + "\n\n" + body + "\n";
    TrimEndTame(content);
    assert NoCr(section);
    NoCrIsTame(section);
    TameConcat(TrimEnd(content), section);
    assert AppendSection(content, heading, body) == TrimEnd(content) + section;
  }

  lemma {:induction false} MissingNoteNoCr(field: string, value: string)
    requires NoCr(field) && NoCr(value)
    ensures NoCr(MissingNote(field, value))
  {
    ConcatNoCr(field + " missing in submission; defaulted to " + value + " ", CONFIRM);
  }

  lemma {:induction false} FieldFixesTame(content: string, kind: FixKind, options: Options)
    requires Tame(content) && (kind == MissingPriority || kind == MissingEffort || kind == MissingStatus)
    ensures Tame(ApplyFix(content, kind, options).value.content)
  {
    match kind {
      case MissingPriority =>
        MissingNoteNoCr("priority", "P2-MEDIUM");
        FieldFixTame(content, "Priority", "P2-MEDIUM", Some(MissingNote("priority", "P2-MEDIUM")), PriorityDefaulted);
      case MissingEffort =>
        FieldFixTame(content, "Effort", "TBD " + MARKER, None, EffortDefaulted);
      case MissingStatus =>
        MissingNoteNoCr("status", "BACKLOG");
        FieldFixTame(content, "Status", "BACKLOG", Some(MissingNote("status", "BACKLOG")), StatusDefaulted);
    }
  }

  lemma {:induction false} ProblemRequestNoCr()
    ensures NoCr(PROBLEM_REQUEST)
  {
    ConcatNoCr(": the original submission did ", "not include a problem statement; ");
    ConcatNoCr(": the original submission did " + "not include a problem statement; ", "the submitter must fill this in.");
  }

  lemma {:induction false} ProblemBodyNoCr()
    ensures NoCr(PROBLEM_BODY)
  {
    ProblemRequestNoCr();
    ConcatNoCr("TBD " + MARKER, PROBLEM_REQUEST);
  }

  lemma {:induction false} CriteriaBodyNoCr()
    ensures NoCr(CRITERIA_BODY)
  {
    ConcatNoCr(": submitter must define ", "real success criteria");
    ConcatNoCr("- [ ] TBD " + MARKER, CRITERIA_REQUEST);
  }

  lemma {:induction false} TestsBodyNoCr()
    ensures NoCr(TESTS_BODY)
  {
    ConcatNoCr(": submitter must define ", "real testing requirements");
    ConcatNoCr("- [ ] TBD " + MARKER, TESTS_REQUEST);
  }

  lemma {:induction false} SectionFixesTame(content: string, kind: FixKind, options: Options)
    requires Tame(content) && (kind == MissingProblem || kind == MissingCriteria || kind == MissingTests)
    ensures Tame(ApplyFix(content, kind, options).value.content)
  {
    match kind {
      case MissingProblem =>
        ProblemBodyNoCr();
        AppendTame(content, "Problem Statement", PROBLEM_BODY);
      case MissingCriteria =>
        CriteriaBodyNoCr();
        AppendTame(content, "Success Criteria", CRITERIA_BODY);
      case MissingTests =>
        TestsBodyNoCr();
        AppendTame(content, "Testing Requirements", TESTS_BODY);
    }
  }

  lemma {:induction false} FixTame(content: string, kind: FixKind, options: Options)
    requires Tame(content) && NoCr(options.taskIdHint) && ApplyFix(content, kind, options).Some?
    ensures Tame(ApplyFix(content, kind, options).value.content)
  {
    if IsEdit(kind) {
      EditTame(content, kind, options);
    } else if kind == MissingPriority || kind == MissingEffort || kind == MissingStatus {
      FieldFixesTame(content, kind, options);
    } else {
      SectionFixesTame(content, kind, options);
    }
  }

  ghost predicate FixesTamely(fix: Fixer) {
    forall content, message ::
      Tame(content) && fix(content, message).Some? ==> Tame(fix(content, message).value.content)
  }

  lemma {:induction false} RoundsTame(parse: Parser, fix: Fixer, draft: Draft, lastError: string, n: nat)
    requires FixesTamely(fix) && Tame(draft.content)
    requires Rounds(parse, fix, draft, lastError, n).0.Some?
    ensures Tame(Rounds(parse, fix, draft, lastError, n).0.value.content)
    decreases n
  {
    var outcome := parse(SplitLines(draft.content));
    if outcome.TaskParseError? {
      var next := fix(draft.content, outcome.message).value;
      RoundsTame(parse, fix, Draft(next.content, draft.actions + next.actions), outcome.message, n - 1);
    }
  }

  lemma {:induction false} JoinActionsNoCr(actions: seq<Action>)
    ensures NoCr(JoinActions(actions))
  {
    if actions != [] {
      KeyNoCr(actions[0]);
      JoinActionsNoCr(actions[1..]);
    }
  }

  predicate EarlyFix(action: Action) {
    action.H1Inserted? || action.H1SeparatorFixed? || action.MetadataSectionInserted? || action.PriorityExtracted? ||
    action.PriorityDefaulted? || action.EffortDefaulted?
  }

  lemma {:induction false} EarlyKeyNoCr(action: Action)
    requires EarlyFix(action)
    ensures NoCr(action.Key())
  {
  }

  lemma {:induction false} LateKeyNoCr(action: Action)
    requires !EarlyFix(action)
    ensures NoCr(action.Key())
  {
  }

  lemma {:induction false} KeyNoCr(action: Action)
    ensures NoCr(action.Key())
  {
    if EarlyFix(action) {
      EarlyKeyNoCr(action);
    } else {
      LateKeyNoCr(action);
    }
  }

  lemma {:induction false} ProvenanceTame(content: string, actions: seq<Action>, date: string)
    requires Tame(content) && NoCr(date)
    ensures Tame(AddProvenance(content, actions, date))
  {
    var lines := SplitLines(content);
    var value := date + " spec-normalizer: " + JoinActions(actions);
    SplitOfTame(content);
    JoinActionsNoCr(actions);
    BulletNoCr("Repaired", value);
    NoCrIsTame(Bullet("Repaired", value));
    SpliceTame(lines, MetadataInsertIndex(lines), 0, [Bullet("Repaired", value)]);
    JoinOfTame(Splice(lines, MetadataInsertIndex(lines), 0, [Bullet("Repaired", value)]));
  }

  /** A text that parses is left as it is. */
  lemma {:induction false} ParsingTextIsUnchanged(parse: Parser, content: string, options: Options)
    requires parse(SplitLines(ToLf(content))).Parsed?
    ensures Normalize(parse, content, options) == NormalizeResult(false, content, [], true)
  {
  }

  /** An LF submission that does not end in two carriage returns is repaired into
      one in which no line does. */
  lemma {:induction false} RepairTame(parse: Parser, content: string, options: Options)
    requires Normalize(parse, content, options).changed && !UsesCrlf(content) && !EndsInTwoCrs(content)
    requires NoCr(options.taskIdHint) && NoCr(options.date)
    ensures Tame(Normalize(parse, content, options).content)
  {
    var fix, start := FixerFor(options), Draft(ToLf(content), []);
    var d := Rounds(parse, fix, start, "", MAX_FIX_ITERATIONS).0.value;
    LfWithoutCrlf(content);
    TameWithoutCrlf(content);
    forall c, message | Tame(c) && fix(c, message).Some? ensures Tame(fix(c, message).value.content) {
      FixTame(c, FixFor(message), options);
    }
    RoundsTame(parse, fix, start, "", MAX_FIX_ITERATIONS);
    ProvenanceTame(d.content, d.actions, options.date);
  }

  /** What the second normalization parses is what the first one produced. */
  lemma {:induction false} OutputIsParsedAgain(parse: Parser, content: string, options: Options)
    requires Normalize(parse, content, options).changed
    requires UsesCrlf(content) || !Contains(Normalize(parse, content, options).content, "\r\r\n")
    ensures parse(SplitLines(ToLf(Normalize(parse, content, options).content))).Parsed?
  {
    var d := Rounds(parse, FixerFor(options), Draft(ToLf(content), []), "", MAX_FIX_ITERATIONS).0.value;
    var repaired := AddProvenance(d.content, d.actions, options.date);
    if UsesCrlf(content) {
      LfAfterCrlf(repaired);
    } else {
      LfSplitsAlike(repaired);
    }
  }

  lemma {:induction false} UnchangedHasNoActions(parse: Parser, options: Options, original: string, d: Draft)
    requires Finalize(parse, options, original, d).resolved && !Finalize(parse, options, original, d).changed
    ensures d.actions == []
  {
  }

  lemma {:induction false} UnchangedParses(parse: Parser, content: string, options: Options)
    requires Normalize(parse, content, options).resolved && !Normalize(parse, content, options).changed
    ensures parse(SplitLines(ToLf(content))).Parsed?
  {
    var fix, start := FixerFor(options), Draft(ToLf(content), []);
    FixerIsSound(options);
    RoundsActions(parse, fix, start, "", MAX_FIX_ITERATIONS);
    UnchangedHasNoActions(parse, options, content, Rounds(parse, fix, start, "", MAX_FIX_ITERATIONS).0.value);
  }

  /** A text is left as it is exactly when it parses as the normalizer reads it. */
  lemma {:induction false} UnchangedExactly(parse: Parser, content: string, options: Options)
    ensures Normalize(parse, content, options) == NormalizeResult(false, content, [], true) <==>
            parse(SplitLines(ToLf(content))).Parsed?
  {
    if parse(SplitLines(ToLf(content))).Parsed? {
      ParsingTextIsUnchanged(parse, content, options);
    } else if Normalize(parse, content, options).resolved && !Normalize(parse, content, options).changed {
      UnchangedParses(parse, content, options);
    }
  }

  lemma {:induction false} StableWithoutDoubles(parse: Parser, content: string, options: Options)
    requires Normalize(parse, content, options).resolved
    requires UsesCrlf(content) || !Contains(Normalize(parse, content, options).content, "\r\r\n")
    ensures var r := Normalize(parse, content, options);
            Normalize(parse, r.content, options) == NormalizeResult(false, r.content, [], true)
  {
    var r := Normalize(parse, content, options);
    AllOrNothing(parse, content, options);
    if r.changed {
      OutputIsParsedAgain(parse, content, options);
    } else {
      UnchangedParses(parse, content, options);
    }
    ParsingTextIsUnchanged(parse, r.content, options);
  }

  /** Whatever the parser, normalizing a resolved result again reports no change for
      a submission that uses CRLF or does not end in two carriage returns. */
  lemma {:induction false} StableForEveryParser(parse: Parser, content: string, options: Options, r: NormalizeResult)
    requires r == Normalize(parse, content, options) && r.resolved
    requires UsesCrlf(content) || (!EndsInTwoCrs(content) && NoCr(options.taskIdHint) && NoCr(options.date))
    ensures Normalize(parse, r.content, options) == NormalizeResult(false, r.content, [], true)
  {
    AllOrNothing(parse, content, options);
    if !UsesCrlf(content) {
      if r.changed {
        RepairTame(parse, content, options);
      } else {
        TameWithoutCrlf(content);
      }
      TameMeansNoDouble(r.content);
    }
    StableWithoutDoubles(parse, content, options);
  }

  /** Which texts the parser accepts does not depend on carriage returns at the ends
      of lines. */
  ghost predicate IgnoresReturns(parse: Parser) {
    forall a, b :: SameUpToReturns(a, b) ==> (parse(a).Parsed? <==> parse(b).Parsed?)
  }

  /** With such a parser, normalizing a resolved result again reports no change, for
      every submission and all options. */
  lemma {:induction false} NormalizationIsIdempotent(parse: Parser, content: string, options: Options,
                                                     r: NormalizeResult)
    requires IgnoresReturns(parse) && r == Normalize(parse, content, options) && r.resolved
    ensures Normalize(parse, r.content, options) == NormalizeResult(false, r.content, [], true)
  {
    AllOrNothing(parse, content, options);
    if r.changed {
      OutputParses(parse, content, options);
    } else {
      UnchangedParses(parse, content, options);
    }
    ParsingTextIsUnchanged(parse, r.content, options);
  }

  /** The parser accepts the output of a repair as the next normalization reads it. */
  lemma {:induction false} OutputParses(parse: Parser, content: string, options: Options)
    requires IgnoresReturns(parse) && Normalize(parse, content, options).changed
    ensures parse(SplitLines(ToLf(Normalize(parse, content, options).content))).Parsed?
  {
    var d := Rounds(parse, FixerFor(options), Draft(ToLf(content), []), "", MAX_FIX_ITERATIONS).0.value;
    var repaired := AddProvenance(d.content, d.actions, options.date);
    LfAfterCrlf(repaired);
    LfSplitsAlmostAlike(repaired);
  }
}
