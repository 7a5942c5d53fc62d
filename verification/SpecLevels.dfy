/** What a resolved repair makes of a submitted priority and status: the value that
    the submitter's own words stand for, or the submitted value. */
module SpecLevels {
  import opened Base
  import opened Text
  import opened Lines
  import opened Words
  import opened SpecFixes
  import opened SpecTokens
  import opened SpecNormalizer
  import opened SpecGate
  import opened SpecGateRuns

  // ---------------------------------------------------------------------
  // One fix

  /** The extracted priority is in the place of the submitted one, and the status is
      what it was. */
  lemma {:induction false} ExtractionValue(lines: seq<string>)
    requires FixPriority(lines).Some? && FixPriority(lines).value.1 == PriorityExtracted
    ensures
      var fixed, raw := FixPriority(lines).value.0, FieldValue(lines, "Priority");
      && raw.Some? && ExtractLeadingToken(raw.value, PRIORITIES).Some?
      && FieldValue(fixed, "Priority") == ExtractLeadingToken(raw.value, PRIORITIES)
      && FieldValue(fixed, "Status") == FieldValue(lines, "Status")
  {
    var raw := FieldValue(lines, "Priority").value;
    var name := ExtractLeadingToken(raw, PRIORITIES).value;
    var note := if Upper(raw) == name then None else Some(Normalized("priority", raw, name));
    PrioritiesStand();
    TokenStands(raw, PRIORITIES);
    RewriteValues(lines, "Priority", name, note);
  }

  lemma {:induction false} StatusValue(lines: seq<string>)
    requires FixStatus(lines).Some?
    ensures
      var fixed, raw := FixStatus(lines).value, FieldValue(lines, "Status");
      && raw.Some? && RecognizedStatus(raw.value).Some?
      && FieldValue(fixed, "Status") == RecognizedStatus(raw.value)
      && FieldValue(fixed, "Priority") == FieldValue(lines, "Priority")
  {
    var raw := FieldValue(lines, "Status").value;
    var name := RecognizedStatus(raw).value;
    RecognizedStands(raw);
    RewriteValues(lines, "Status", name, Some(Normalized("status", raw, name)));
  }

  // ---------------------------------------------------------------------
  // What a token stands for settles

  /** What a token stands for stands for itself, or for nothing. */
  ghost predicate Settles(token: string -> Option<string>) {
    forall raw :: token(raw).Some? ==> token(token(raw).value).None? || token(token(raw).value) == token(raw)
  }

  function PriorityToken(raw: string): Option<string> {
    ExtractLeadingToken(raw, PRIORITIES)
  }

  lemma {:induction false} WholeIsLed(name: string)
    requires Trim(name) == name
    ensures LedBy(name, name)
  {
    assert name[..|name|] == name && name[|name|..] == "";
    assert Administrative("") by { assert "" == "" + ""; assert AllSpace(""); }
  }

  lemma {:induction false} LevelNames(n: string, level: string)
    requires PriorityName(n, level)
    ensures PriorityName(level, level) && Trim(level) == level
  {
    TrimmedEnds(level);
  }

  lemma {:induction false} PrioritySettles()
    ensures Settles(PriorityToken)
  {
    forall raw | PriorityToken(raw).Some? ensures PriorityToken(PriorityToken(raw).value) == PriorityToken(raw) {
      var level := PriorityToken(raw).value;
      PriorityExactly(raw);
      var n :| DecidesPriority(raw, n, level);
      LevelNames(n, level);
      WholeIsLed(level);
      assert DecidesPriority(level, level, level);
      PriorityExactly(level);
    }
  }

  lemma {:induction false} StatusNames(n: string, c: string)
    requires StatusName(n, c)
    ensures CanonicalStatus(c)
  {
  }

  lemma {:induction false} AnnotationOpens(t: string, head: string)
    requires Annotated(t, head)
    ensures '(' in t
  {
    assert t[|head|] == '(';
  }

  lemma {:induction false} CanonicalReads(c: string)
    requires CanonicalStatus(c)
    ensures ReadsAs(c, c)
  {
    CanonicalShape(c);
    TrimmedEnds(c);
    if head :| Annotated(Trim(c), head) {
      AnnotationOpens(Trim(c), head);
    }
  }

  lemma {:induction false} CanonicalShape(c: string)
    requires CanonicalStatus(c)
    ensures '(' !in c && NoSpaceAtEnds(c)
  {
  }

  lemma {:induction false} StatusSettles()
    ensures Settles(RecognizedStatus)
  {
    forall raw | RecognizedStatus(raw).Some? ensures RecognizedStatus(RecognizedStatus(raw).value).None? {
      var c := RecognizedStatus(raw).value;
      StatusExactly(raw, c);
      var n :| DecidesStatus(raw, n, c);
      StatusNames(n, c);
      CanonicalReads(c);
      CanonicalIsParsed(c);
      NormalizeStatusExactly(c, c);
    }
  }

  // ---------------------------------------------------------------------
  // The provenance line and the line ends

  lemma {:induction false} RepairedIsNeutral(field: string, text: string)
    requires Rewritable(field)
    ensures Neutral(field, Bullet("Repaired", text))
  {
    var line := Bullet("Repaired", text);
    var c := Tag("Repaired") + " " + text;
    assert line == "- " + c && line[1..] == " " + c;
    TrimStartDrops(" ", c);
    assert c[2] == 'R' && Tag(field)[2] == field[0];
    NotTag(c, Tag(field), 2);
    TrimEndKeepsFirst(line);
    BulletIsNoHeading(line);
  }

  lemma {:induction false} ProvenanceValue(lines: seq<string>, at: nat, text: string, field: string)
    requires Rewritable(field) && at <= |lines|
    ensures FieldValue(Splice(lines, at, 0, [Bullet("Repaired", text)]), field) == FieldValue(lines, field)
  {
    RepairedIsNeutral(field, text);
    assert lines[at..at] == [];
    SpliceKeepsValue(lines, field, at, 0, [Bullet("Repaired", text)]);
  }

  lemma {:induction false} ProvenanceIsClosed(actions: seq<Action>, date: string) returns (text: string)
    requires NoTerminator(date)
    ensures text == date + " spec-normalizer: " + JoinActions(actions) && Closed(Bullet("Repaired", text))
  {
    text := date + " spec-normalizer: " + JoinActions(actions);
    JoinActionsNoTerminator(actions);
    ConcatNoTerminator(date, " spec-normalizer: ");
    ConcatNoTerminator(date + " spec-normalizer: ", JoinActions(actions));
    OtherBulletIsClosed("Repaired", text);
  }

  lemma {:induction false} CrlfHasCr(s: string)
    requires UsesCrlf(s)
    ensures !NoCr(s)
  {
    var i :| 0 <= i <= |s| && OccursAt(s, "\r\n", i);
    assert s[i] == s[i..i + 2][0];
  }

  lemma {:induction false} LineEndsKeepLines(original: string, repaired: string)
    requires NoCr(repaired)
    ensures SplitLines(InLineEndsOf(original, repaired)) == SplitLines(repaired)
  {
    CrlfSplitsAlike(repaired);
    if UsesCrlf(repaired) {
      CrlfHasCr(repaired);
    }
  }
}
