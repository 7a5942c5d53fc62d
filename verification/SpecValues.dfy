/** What a whole run of the normalizer makes of a submitted priority and status,
    whatever else it fixes on the way: the value that the submitter's own words stand
    for, or the submitted value. */
module SpecValues {
  import opened Base
  import opened Text
  import opened Lines
  import opened SpecFixes
  import opened SpecTokens
  import opened SpecNormalizer
  import opened SpecGate
  import opened SpecGateRuns
  import opened SpecDefaults
  import opened SpecLevels
  import RepairGuard

  // ---------------------------------------------------------------------
  // Lines that are read back as they were joined

  ghost predicate Whole(lines: seq<string>) {
    forall k :: 0 <= k < |lines| ==> NoTerminator(lines[k])
  }

  lemma {:induction false} WholeLine(s: string)
    requires NoTerminator(s)
    ensures '\n' !in s && NoCr(s) && DropCr(s) == s
  {
    assert s != "" ==> s[|s| - 1] in s;
  }

  lemma {:induction false} WholeReadBack(lines: seq<string>)
    requires Whole(lines)
    ensures ReadBack(lines) == lines
  {
    if |lines| > 1 {
      WholeLine(lines[0]);
      WholeReadBack(lines[1..]);
    }
  }

  lemma {:induction false} WholeJoin(lines: seq<string>)
    requires Whole(lines) && lines != []
    ensures SplitLines(JoinLines(lines)) == lines && NoCr(JoinLines(lines))
  {
    forall k | 0 <= k < |lines| ensures '\n' !in lines[k] && NoCr(lines[k]) {
      WholeLine(lines[k]);
    }
    WholeReadBack(lines);
    SplitOfJoin(lines);
    JoinOfNoCr(lines);
  }

  lemma {:induction false} SpliceWhole(lines: seq<string>, at: nat, removed: nat, inserted: seq<string>)
    requires at + removed <= |lines| && Whole(lines) && Whole(inserted)
    ensures Whole(Splice(lines, at, removed, inserted))
  {
  }

  lemma {:induction false} BulletWhole(field: string, text: string)
    requires NoTerminator(field) && NoTerminator(text)
    ensures NoTerminator(Bullet(field, text))
  {
    ConcatNoTerminator("- **", field);
    ConcatNoTerminator("- **" + field, ":** ");
    ConcatNoTerminator("- **" + field + ":** ", text);
  }

  lemma {:induction false} NotesWhole(field: string, note: Option<string>)
    requires NoTerminator(field) && (note.Some? ==> NoTerminator(note.value))
    ensures Whole(NoteLines(field, note))
  {
    if note.Some? {
      ConcatNoTerminator(field, "-Note");
      BulletWhole(field + "-Note", note.value);
    }
  }

  // ---------------------------------------------------------------------
  // Values before and after

  /** The value of a field; a missing one is empty. */
  function Shown(lines: seq<string>, field: string): string {
    match FieldValue(lines, field)
    case Some(v) => v
    case None => ""
  }

  /** A value nobody submitted was put in, or a section, which may take in bullets that
      stood outside any. */
  predicate Supplied(actions: seq<Action>, field: string) {
    MetadataSectionInserted in actions ||
    if field == "Priority" then PriorityDefaulted in actions else StatusDefaulted in actions
  }

  predicate Taken(actions: seq<Action>, field: string) {
    if field == "Priority" then PriorityExtracted in actions else StatusNormalized in actions
  }

  function Token(field: string): string -> Option<string> {
    if field == "Priority" then PriorityToken else RecognizedStatus
  }

  /** A token was taken from the value, or the value is what it was. */
  predicate Follows(was: string, now: string, taken: bool, token: string -> Option<string>) {
    if taken then token(was) == Some(now) else now == was
  }

  predicate Carried(lines: seq<string>, actions: seq<Action>, final: seq<string>, field: string) {
    !Supplied(actions, field) ==>
      Follows(Shown(lines, field), Shown(final, field), Taken(actions, field), Token(field))
  }

  lemma {:induction false} FollowsThen(a: string, b: string, c: string, first: bool, second: bool,
                                       token: string -> Option<string>)
    requires Settles(token) && Follows(a, b, first, token) && Follows(b, c, second, token)
    ensures Follows(a, c, first || second, token)
  {
  }

  lemma {:induction false} CarriedThen(lines: seq<string>, first: seq<Action>, fixed: seq<string>, rest: seq<Action>,
                                       final: seq<string>, field: string)
    requires Rewritable(field) && Carried(lines, first, fixed, field) && Carried(fixed, rest, final, field)
    ensures Carried(lines, first + rest, final, field)
  {
    PrioritySettles();
    StatusSettles();
    if !Supplied(first + rest, field) {
      FollowsThen(Shown(lines, field), Shown(fixed, field), Shown(final, field), Taken(first, field),
                  Taken(rest, field), Token(field));
    }
  }

  // ---------------------------------------------------------------------
  // Lines that have no part in finding a value

  lemma {:induction false} BlankIsNeutral(field: string)
    ensures Neutral(field, "")
  {
    assert Trim("") == "" && Lower("") == "";
  }

  /** A bullet of a field with another first letter. */
  lemma {:induction false} OtherIsNeutral(field: string, other: string, text: string)
    requires Rewritable(field) && other != "" && UpperChar(other[0]) != UpperChar(field[0])
    ensures Neutral(field, Bullet(other, text))
  {
    var line := Bullet(other, text);
    var c := Tag(other) + " " + text;
    assert line == "- " + c && line[1..] == " " + c;
    TrimStartDrops(" ", c);
    assert c[2] == other[0] && Tag(field)[2] == field[0];
    NotTag(c, Tag(field), 2);
    TrimEndKeepsFirst(line);
    BulletIsNoHeading(line);
  }

  datatype Tagged = Tagged(before: string, gap: string, tag: string, rest: string)
  {
    function Head(): string { before + "-" + gap + tag }

    function Line(): string { Head() + rest }

    predicate Of(field: string) {
      AllSpace(before) && AllSpace(gap) && Upper(tag) == Upper(SpecGate.Tag(field))
    }
  }

  /** What stands behind the tag. */
  function Behind(rest: string): Option<string> {
    var v := TrimStart(rest);
    if v != "" then (if NoTerminator(v) then Some(v) else None)
    else if rest != "" && !IsLineTerminator(rest[|rest| - 1]) then Some(rest[|rest| - 1..])
    else None
  }

  /** The value behind a tag, from the tag on. */
  function AfterDash(c: string, tag: string): Option<string> {
    if |c| < |tag| || Upper(c[..|tag|]) != Upper(tag) then None else Behind(c[|tag|..])
  }

  lemma {:induction false} ValueOfIs(line: string, field: string)
    ensures
      var b := TrimStart(line);
      ValueOf(line, field) == if StartsWith(b, "-") then AfterDash(TrimStart(b[1..]), Tag(field)) else None
  {
  }

  lemma {:induction false} BehindIsTail(rest: string)
    requires Behind(rest).Some?
    ensures var v := Behind(rest).value; |v| <= |rest| && rest == rest[..|rest| - |v|] + v
  {
    var ws := TrimStartSplits(rest);
  }

  lemma {:induction false} PartsOfLine(line: string, before: string, b: string, gap: string, c: string, n: nat)
    requires line == before + b && StartsWith(b, "-") && b[1..] == gap + c && n <= |c|
    ensures line == before + "-" + gap + c[..n] + c[n..]
  {
    assert b == "-" + (gap + c) && c == c[..n] + c[n..];
  }

  /** A line of a field, in its parts, the last of which ends in the value. */
  lemma {:induction false} ReadTagged(line: string, field: string) returns (p: Tagged, blank: string)
    requires ValueOf(line, field).Some?
    ensures p.Of(field) && line == p.Line() && p.rest == blank + ValueOf(line, field).value
  {
    var before := TrimStartSplits(line);
    var b := TrimStart(line);
    var gap := TrimStartSplits(b[1..]);
    var c := TrimStart(b[1..]);
    var n := |Tag(field)|;
    ValueOfIs(line, field);
    PartsOfLine(line, before, b, gap, c, n);
    BehindIsTail(c[n..]);
    p := Tagged.Tagged(before, gap, c[..n], c[n..]);
    blank := p.rest[..|p.rest| - |ValueOf(line, field).value|];
  }

  lemma {:induction false} TaggedLine(p: Tagged)
    ensures p.Line() == p.before + ("-" + (p.gap + (p.tag + p.rest)))
  {
  }

  lemma {:induction false} TaggedIsNeutral(p: Tagged, field: string)
    requires Rewritable(field) && p.Of(field)
    ensures Neutral(OtherField(field), p.Line())
  {
    var c := p.tag + p.rest;
    var b := "-" + (p.gap + c);
    TaggedLine(p);
    TagStarts(p.tag, field);
    TrimStartDrops(p.before, b);
    assert b[1..] == p.gap + c;
    TrimStartDrops(p.gap, c);
    ForeignTag(c, p.tag, field);
    TrimEndKeepsFirst(b);
    assert Trim(p.Line()) == TrimEnd(b);
    BulletIsNoHeading(p.Line());
  }

  /** Putting another text in the place of the value at the end. */
  lemma {:induction false} ValueCut(line: string, head: string, v: string)
    requires line == head + v
    ensures |v| <= |line| && line[..|line| - |v|] == head && line[|line| - |v|..] == v
  {
  }

  lemma {:induction false} Regroup(a: string, b: string, c: string)
    ensures a + (b + c) == (a + b) + c
  {
  }

  lemma {:induction false} RenamedIs(p: Tagged, blank: string, v: string, name: string)
    requires p.rest == blank + v
    ensures var line := p.Line(); |v| <= |line| && line[..|line| - |v|] + name == p.(rest := blank + name).Line()
  {
    var head := p.Head();
    Regroup(head, blank, v);
    Regroup(head, blank, name);
    ValueCut(p.Line(), head + blank, v);
  }

  /** The line of a field, and the line with another value. */
  lemma {:induction false} ReadRenamed(line: string, field: string, name: string) returns (p: Tagged, q: Tagged)
    requires ValueOf(line, field).Some?
    ensures p.Of(field) && q.Of(field) && line == p.Line()
    ensures line[..|line| - |ValueOf(line, field).value|] + name == q.Line()
  {
    var blank;
    p, blank := ReadTagged(line, field);
    q := p.(rest := blank + name);
    RenamedIs(p, blank, ValueOf(line, field).value, name);
  }

  lemma {:induction false} FieldIsNeutral(line: string, field: string, name: string, renamed: string)
    requires Rewritable(field) && ValueOf(line, field).Some?
    requires renamed == line[..|line| - |ValueOf(line, field).value|] + name
    ensures Neutral(OtherField(field), line) && Neutral(OtherField(field), renamed)
  {
    var p, q := ReadRenamed(line, field, name);
    TaggedIsNeutral(p, field);
    TaggedIsNeutral(q, field);
  }

  lemma {:induction false} LineReplaced(lines: seq<string>, field: string, k: nat, line: string, notes: seq<string>,
                                        fixed: seq<string>)
    requires k < |lines| && fixed == Splice(lines, k, 1, [line] + notes)
    requires Neutral(field, lines[k]) && Neutral(field, line) && NeutralLines(field, notes)
    ensures Shown(fixed, field) == Shown(lines, field)
  {
    ReplacedKeepsValue(lines, field, k, line, notes);
  }

  lemma {:induction false} RewriteIs(lines: seq<string>, field: string, name: string, note: Option<string>)
    returns (k: nat, line: string)
    requires RewriteValue(lines, field, name, note).Some?
    ensures k < |lines| && ValueOf(lines[k], field).Some?
    ensures line == lines[k][..|lines[k]| - |ValueOf(lines[k], field).value|] + name
    ensures RewriteValue(lines, field, name, note).value == Splice(lines, k, 1, [line] + NoteLines(field, note))
  {
    k := FieldLine(lines, field).value;
    line := lines[k][..|lines[k]| - |ValueOf(lines[k], field).value|] + name;
  }

  /** Rewriting one field leaves the other as it is, whatever its value was. */
  lemma {:induction false} RewriteLeavesOther(lines: seq<string>, field: string, name: string, note: Option<string>,
                                              fixed: seq<string>)
    requires Rewritable(field) && RewriteValue(lines, field, name, note) == Some(fixed)
    ensures Shown(fixed, OtherField(field)) == Shown(lines, OtherField(field))
  {
    var k, line := RewriteIs(lines, field, name, note);
    FieldIsNeutral(lines[k], field, name, line);
    NotesAreNeutral(field, note);
    LineReplaced(lines, OtherField(field), k, line, NoteLines(field, note), fixed);
  }

  // ---------------------------------------------------------------------
  // The fixes of titles and values

  /** What a fix leaves, when it edits lines. */
  ghost predicate Leaves(lines: seq<string>, actions: seq<Action>, fixed: seq<string>, field: string) {
    fixed != [] && Whole(fixed) && Carried(lines, actions, fixed, field)
  }

  lemma {:induction false} NewTitleWhole(hint: string)
    requires NoTerminator(hint)
    ensures NoTerminator("# " + (Trim(hint) + ": Untitled (repair placeholder)"))
  {
    TrimNoTerminator(hint);
    ConcatNoTerminator(Trim(hint), ": Untitled (repair placeholder)");
    ConcatNoTerminator("# ", Trim(hint) + ": Untitled (repair placeholder)");
  }

  lemma {:induction false} TopLinesCarry(field: string, title: string, lines: seq<string>)
    requires IsH1(title)
    ensures Shown([title, ""] + lines, field) == Shown(lines, field)
  {
    var top := [title, ""];
    H1IsNeutral(field, title);
    BlankIsNeutral(field);
    NeutralFirst(field, top, lines);
    FieldValueIs(top + lines, field);
    FieldValueIs(lines, field);
  }

  lemma {:induction false} NewTitleCarries(lines: seq<string>, title: string, field: string)
    requires Whole(lines) && IsH1(title) && NoTerminator(title)
    ensures Leaves(lines, [H1Inserted], [title, ""] + lines, field)
  {
    TopLinesCarry(field, title, lines);
    assert NoTerminator("");
    WholeBoth([title, ""], lines);
  }

  lemma {:induction false} TitleFixCarries(lines: seq<string>, hint: string, field: string)
    requires Whole(lines) && NoTerminator(hint) && FixMissingH1(lines, hint).Some?
    ensures Leaves(lines, [H1Inserted], FixMissingH1(lines, hint).value, field)
  {
    var fixed := FixMissingH1(lines, hint).value;
    TitleIsSupplied(lines, hint);
    NewTitleWhole(hint);
    NewTitleCarries(lines, fixed[0], field);
    TopLines(fixed, lines);
  }

  lemma {:induction false} TopLines(fixed: seq<string>, lines: seq<string>)
    requires |fixed| >= 2 && fixed[1] == "" && fixed[2..] == lines
    ensures fixed == [fixed[0], ""] + lines
  {
  }

  lemma {:induction false} SeparatorFixCarries(lines: seq<string>, field: string)
    requires Whole(lines) && FixH1Separator(lines).Some?
    ensures Leaves(lines, [H1SeparatorFixed], FixH1Separator(lines).value, field)
  {
    var k := FindH1(lines, 0);
    var t := Trim(lines[k]);
    var i := SpacesEnd(t, 1);
    SeparatorFixValues(lines, field);
    TrimNoTerminator(lines[k]);
    SeparatorLine(t, i, HeadingIdEnd(t, i), TitleStart(t));
    SpliceWhole(lines, k, 1, ["# " + t[i..HeadingIdEnd(t, i)] + ": " + t[TitleStart(t)..]]);
  }

  lemma {:induction false} FieldValueWhole(lines: seq<string>, field: string)
    requires Whole(lines) && FieldValue(lines, field).Some?
    ensures NoTerminator(FieldValue(lines, field).value)
  {
    var k := FieldLine(lines, field).value;
    var v := ValueOf(lines[k], field).value;
    ValueIsTail(lines[k], field);
    SliceNoTerminator(lines[k], |lines[k]| - |v|, |lines[k]|);
    TrimNoTerminator(v);
  }

  lemma {:induction false} ValueIsTail(line: string, field: string)
    requires ValueOf(line, field).Some?
    ensures var v := ValueOf(line, field).value; line[|line| - |v|..] == v
  {
    var p, blank := ReadTagged(line, field);
    var v := ValueOf(line, field).value;
    Regroup(p.Head(), blank, v);
    ValueCut(line, p.Head() + blank, v);
  }

  lemma {:induction false} RewriteWhole(lines: seq<string>, field: string, name: string, note: Option<string>)
    requires Whole(lines) && NoTerminator(field) && NoTerminator(name) && (note.Some? ==> NoTerminator(note.value))
    requires RewriteValue(lines, field, name, note).Some?
    ensures Whole(RewriteValue(lines, field, name, note).value) && RewriteValue(lines, field, name, note).value != []
  {
    var k := FieldLine(lines, field).value;
    var n := |lines[k]| - |ValueOf(lines[k], field).value|;
    SliceNoTerminator(lines[k], 0, n);
    assert lines[k][0..n] == lines[k][..n];
    ConcatNoTerminator(lines[k][..n], name);
    NotesWhole(field, note);
    SpliceWhole(lines, k, 1, [lines[k][..n] + name] + NoteLines(field, note));
  }

  lemma {:induction false} FieldNames()
    ensures NoTerminator("Priority") && NoTerminator("Status") && NoTerminator("Effort") && NoTerminator("P2-MEDIUM")
  {
  }

  lemma {:induction false} NotRecognizedWhole()
    ensures NoTerminator("\" was not recognized; defaulted to P2-MEDIUM ")
  {
    var a, b := "\" was not ", "recognized; ";
    assert NoTerminator(a) && NoTerminator(b);
    ConcatNoTerminator(a, b);
    DefaultedWhole();
    ConcatNoTerminator(a + b, "defaulted to P2-MEDIUM ");
    assert a + b + "defaulted to P2-MEDIUM " == "\" was not recognized; defaulted to P2-MEDIUM ";
  }

  lemma {:induction false} DefaultedWhole()
    ensures NoTerminator("defaulted to P2-MEDIUM ")
  {
  }

  lemma {:induction false} DefaultNoteWhole(raw: string)
    requires NoTerminator(raw)
    ensures NoTerminator(DefaultNote(raw))
  {
    var a, b := "original priority \"", "\" was not recognized; defaulted to P2-MEDIUM ";
    NotRecognizedWhole();
    ConfirmWhole();
    assert NoTerminator(a);
    ConcatNoTerminator(a, raw);
    ConcatNoTerminator(a + raw, b);
    ConcatNoTerminator(a + raw + b, CONFIRM);
    assert DefaultNote(raw) == a + raw + b + CONFIRM;
  }

  lemma {:induction false} ConfirmWhole()
    ensures NoTerminator(CONFIRM)
  {
    ConcatNoTerminator("by spec repair ", MARKER);
    ConcatNoTerminator("by spec repair " + MARKER, "; confirm before dispatch");
  }

  lemma {:induction false} PriorityFixCarries(lines: seq<string>, field: string)
    requires Whole(lines) && FixPriority(lines).Some? && Rewritable(field)
    ensures Leaves(lines, [FixPriority(lines).value.1], FixPriority(lines).value.0, field)
  {
    var raw := FieldValue(lines, "Priority").value;
    FieldValueWhole(lines, "Priority");
    FieldNames();
    if ExtractLeadingToken(raw, PRIORITIES).Some? {
      ExtractionCarries(lines, raw, field);
    } else {
      DefaultNoteWhole(raw);
      RewriteWhole(lines, "Priority", "P2-MEDIUM", Some(DefaultNote(raw)));
      if field == "Status" {
        RewriteLeavesOther(lines, "Priority", "P2-MEDIUM", Some(DefaultNote(raw)), FixPriority(lines).value.0);
      }
    }
  }

  lemma {:induction false} ExtractionCarries(lines: seq<string>, raw: string, field: string)
    requires Whole(lines) && FixPriority(lines).Some? && Rewritable(field)
    requires FieldValue(lines, "Priority") == Some(raw) && ExtractLeadingToken(raw, PRIORITIES).Some?
    requires NoTerminator(raw)
    ensures Leaves(lines, [FixPriority(lines).value.1], FixPriority(lines).value.0, field)
  {
    var name := ExtractLeadingToken(raw, PRIORITIES).value;
    var note := if Upper(raw) == name then None else Some(Normalized("priority", raw, name));
    FieldNames();
    PrioritiesStand();
    TokenStands(raw, PRIORITIES);
    PlainIsFirm(name);
    NormalizedNoTerminator("priority", raw, name);
    RewriteWhole(lines, "Priority", name, note);
    ExtractionValue(lines);
  }

  lemma {:induction false} StatusFixCarries(lines: seq<string>, field: string)
    requires Whole(lines) && FixStatus(lines).Some? && Rewritable(field)
    ensures Leaves(lines, [StatusNormalized], FixStatus(lines).value, field)
  {
    var raw := FieldValue(lines, "Status").value;
    var name := RecognizedStatus(raw).value;
    FieldNames();
    FieldValueWhole(lines, "Status");
    RecognizedStands(raw);
    PlainIsFirm(name);
    NormalizedNoTerminator("status", raw, name);
    RewriteWhole(lines, "Status", name, Some(Normalized("status", raw, name)));
    StatusValue(lines);
  }

  // ---------------------------------------------------------------------
  // The fixes that insert a field

  lemma {:induction false} EnsureWhole(lines: seq<string>)
    requires Whole(lines)
    ensures Whole(EnsureMetadata(lines))
  {
    assert NoTerminator("") && NoTerminator("## Metadata");
    var h1 := FindH1(lines, 0);
    SpliceWhole(lines, if h1 == |lines| then 0 else h1 + 1, 0, ["", "## Metadata"]);
  }

  lemma {:induction false} InsertionCarries(lines: seq<string>, name: string, value: string, note: Option<string>,
                                            actions: seq<Action>, field: string)
    requires Whole(lines) && NoTerminator(name) && NoTerminator(value) && (note.Some? ==> NoTerminator(note.value))
    requires Rewritable(field) && name != "" && (UpperChar(name[0]) == UpperChar(field[0]) ==> Supplied(actions, field))
    requires !Taken(actions, field) && (EnsureMetadata(lines) != lines ==> Supplied(actions, field))
    ensures Leaves(lines, actions, InsertField(lines, name, value, note), field)
  {
    var ensured := EnsureMetadata(lines);
    var inserted := [Bullet(name, value)] + NoteLines(name, note);
    var n := MetadataInsertIndex(ensured);
    EnsureWhole(lines);
    BulletWhole(name, value);
    NotesWhole(name, note);
    SpliceWhole(ensured, n, 0, inserted);
    if !Supplied(actions, field) {
      OtherIsNeutral(field, name, value);
      if note.Some? {
        OtherIsNeutral(field, name + "-Note", note.value);
      }
      assert ensured[n..n] == [];
      SpliceKeepsValue(ensured, field, n, 0, inserted);
    }
  }

  lemma {:induction false} MissingNoteWhole(name: string, value: string)
    requires NoTerminator(name) && NoTerminator(value)
    ensures NoTerminator(MissingNote(name, value))
  {
    var a := " missing in submission; defaulted to ";
    ConfirmWhole();
    ConcatNoTerminator(name, a);
    ConcatNoTerminator(name + a, value);
    ConcatNoTerminator(name + a + value, " ");
    ConcatNoTerminator(name + a + value + " ", CONFIRM);
  }

  // ---------------------------------------------------------------------
  // The fixes that append a section

  lemma {:induction false} SpacesOfBoth(a: string, rest: string)
    requires AllSpace(a + "\n" + rest)
    ensures AllSpace(a) && AllSpace(DropCr(a)) && AllSpace(rest)
  {
    var s := a + "\n" + rest;
    assert forall k :: 0 <= k < |a| ==> a[k] == s[k];
    assert forall k :: 0 <= k < |rest| ==> rest[k] == s[|a| + 1 + k];
  }

  lemma {:induction false} SplitOfSpaces(s: string)
    requires AllSpace(s)
    ensures forall k :: 0 <= k < |SplitLines(s)| ==> AllSpace(SplitLines(s)[k])
    decreases |s|
  {
    var a, rest := FirstLineOf(s);
    if FirstLf(s) < |s| {
      SpacesOfBoth(a, rest);
      SplitFirst(a, rest);
      SplitOfSpaces(rest);
    } else {
      SplitLast(a);
    }
  }

  /** The lines of a text without its trailing whitespace: those of the text up to some
      line, which loses its own, and what follows is blank. */
  ghost predicate Trimmed(lines: seq<string>, t: seq<string>) {
    0 < |t| <= |lines| && t[..|t| - 1] == lines[..|t| - 1] && t[|t| - 1] == TrimEnd(lines[|t| - 1]) &&
    forall k :: |t| <= k < |lines| ==> AllSpace(lines[k])
  }

  lemma {:induction false} TrimmedFirst(a: string, lines: seq<string>, t: seq<string>)
    requires Trimmed(lines, t)
    ensures Trimmed([a] + lines, [a] + t)
  {
    assert ([a] + t)[..|t|] == [a] + t[..|t| - 1] == [a] + lines[..|t| - 1] == ([a] + lines)[..|t|];
  }

  lemma {:induction false} PrefixHasNoLf(s: string)
    requires '\n' !in s
    ensures SplitLines(TrimEnd(s)) == [TrimEnd(s)]
  {
    TrimEndLemma(s);
    SplitLast(TrimEnd(s));
  }

  lemma {:induction false} TrimmedToFirst(a: string, rest: string)
    requires '\n' !in a && NoCr(a) && TrimEnd(rest) == ""
    ensures Trimmed(SplitLines(a + "\n" + rest), SplitLines(TrimEnd(a + "\n" + rest)))
  {
    var ws := TrimEndSplits(rest);
    assert a + "\n" + rest == a + ("\n" + rest) && AllSpace("\n" + rest);
    SpacesAtEnd(a, "\n" + rest);
    PrefixHasNoLf(a);
    SplitOfSpaces(rest);
    SplitFirst(a, rest);
    assert DropCr(a) == a by { assert a != "" ==> a[|a| - 1] in a; }
  }

  lemma {:induction false} TrimmedFurther(a: string, rest: string)
    requires '\n' !in a && NoCr(a) && TrimEnd(rest) != ""
    requires Trimmed(SplitLines(rest), SplitLines(TrimEnd(rest)))
    ensures Trimmed(SplitLines(a + "\n" + rest), SplitLines(TrimEnd(a + "\n" + rest)))
  {
    TrimEndOfConcat(a + "\n", rest);
    SplitFirst(a, rest);
    SplitFirst(a, TrimEnd(rest));
    assert DropCr(a) == a by { assert a != "" ==> a[|a| - 1] in a; }
    TrimmedFirst(a, SplitLines(rest), SplitLines(TrimEnd(rest)));
  }

  lemma {:induction false} TrimmedLines(content: string)
    requires NoCr(content)
    ensures Trimmed(SplitLines(content), SplitLines(TrimEnd(content)))
    decreases |content|
  {
    var a, rest := FirstLineOf(content);
    if FirstLf(content) == |content| {
      PrefixHasNoLf(content);
      SplitLast(content);
    } else if TrimEnd(rest) == "" {
      TrimmedToFirst(a, rest);
    } else {
      TrimmedLines(rest);
      TrimmedFurther(a, rest);
    }
  }

  /** The value of a line and of the line without its trailing whitespace. */
  ghost predicate SameValue(a: Option<string>, b: Option<string>) {
    if b.Some? then a.Some? && Trim(a.value) == Trim(b.value) else a.None? || Trim(a.value) == ""
  }

  lemma {:induction false} SomethingIsLeft(s: string)
    requires s != "" && !IsSpace(s[|s| - 1])
    ensures TrimStart(s) != "" && TrimStart(s)[|TrimStart(s)| - 1] == s[|s| - 1]
  {
    if IsSpace(s[0]) {
      SomethingIsLeft(s[1..]);
    }
  }

  /** Text that ends in no whitespace, and some whitespace behind it. */
  lemma {:induction false} StartOfTrimmed(s: string, ws: string)
    requires AllSpace(ws) && s != "" && !IsSpace(s[|s| - 1])
    ensures TrimStart(s) != "" && TrimStart(s + ws) == TrimStart(s) + ws
    ensures TrimStart(s)[|TrimStart(s)| - 1] == s[|s| - 1]
  {
    var before := TrimStartSplits(s);
    SomethingIsLeft(s);
    TrimStartLemma(s);
    assert s + ws == before + (TrimStart(s) + ws);
    TrimStartDrops(before, TrimStart(s) + ws);
  }


  lemma {:induction false} BehindTrimmed(rest: string, ws: string)
    requires AllSpace(ws) && NoTerminator(rest + ws) && (rest == "" || !IsSpace(rest[|rest| - 1]))
    ensures SameValue(Behind(rest + ws), Behind(rest))
  {
    if rest == "" {
      assert rest + ws == ws + "" == ws;
      TrimStartDrops(ws, "");
      if ws != "" {
        BlankValue(ws[|ws| - 1..]);
      }
    } else {
      StartOfTrimmed(rest, ws);
      SpacesBehind(TrimStart(rest), ws);
      assert NoTerminator(rest) by { assert forall c :: c in rest ==> c in rest + ws; }
      TailWhole(rest);
      TailWhole(rest + ws);
    }
  }

  lemma {:induction false} TailWhole(s: string)
    requires NoTerminator(s)
    ensures NoTerminator(TrimStart(s))
  {
    var before := TrimStartSplits(s);
    assert forall c :: c in TrimStart(s) ==> c in before + TrimStart(s);
  }


  lemma {:induction false} AfterDashTrimmed(c: string, ws: string, tag: string)
    requires AllSpace(ws) && NoTerminator(c + ws) && c != "" && !IsSpace(c[|c| - 1])
    requires tag != "" && tag[|tag| - 1] == '*'
    ensures SameValue(AfterDash(c + ws, tag), AfterDash(c, tag))
  {
    var n := |tag|;
    if n <= |c| {
      assert (c + ws)[..n] == c[..n] && (c + ws)[n..] == c[n..] + ws;
      assert NoTerminator(c[n..] + ws) by { assert forall x :: x in c[n..] + ws ==> x in c + ws; }
      BehindTrimmed(c[n..], ws);
    } else if n <= |c + ws| {
      assert (c + ws)[..n][n - 1] == ws[n - 1 - |c|];
      assert Upper((c + ws)[..n])[n - 1] == UpperChar(ws[n - 1 - |c|]) && Upper(tag)[n - 1] == '*';
    }
  }


  lemma {:induction false} RestWhole(b: string)
    requires b != "" && NoTerminator(b)
    ensures NoTerminator(b[1..])
  {
    assert forall c :: c in b[1..] ==> c in b;
  }

  lemma {:induction false} TrimmedLineValue(line: string, field: string)
    requires NoTerminator(line)
    ensures SameValue(ValueOf(line, field), ValueOf(TrimEnd(line), field))
  {
    var t := TrimEnd(line);
    var ws := TrimEndSplits(line);
    TrimEndLemma(line);
    ValueOfIs(line, field);
    ValueOfIs(t, field);
    if t == "" {
      assert line == ws + "";
      TrimStartDrops(ws, "");
    } else {
      StartOfTrimmed(t, ws);
      TailWhole(line);
      RestWhole(TrimStart(line));
      StartedLineValue(TrimStart(t), ws, field);
    }
  }

  lemma {:induction false} StartedLineValue(b: string, ws: string, field: string)
    requires AllSpace(ws) && b != "" && !IsSpace(b[|b| - 1]) && NoTerminator((b + ws)[1..])
    ensures
      var read := (t: string) => if StartsWith(t, "-") then AfterDash(TrimStart(t[1..]), Tag(field)) else None;
      SameValue(read(b + ws), read(b))
  {
    assert (b + ws)[1..] == b[1..] + ws;
    DashTrimmed(b[1..], ws, field);
  }

  lemma {:induction false} DashTrimmed(s: string, ws: string, field: string)
    requires AllSpace(ws) && (s == "" || !IsSpace(s[|s| - 1]))
    requires NoTerminator(s + ws)
    ensures SameValue(AfterDash(TrimStart(s + ws), Tag(field)), AfterDash(TrimStart(s), Tag(field)))
  {
    if s == "" {
      assert s + ws == ws + "";
      TrimStartDrops(ws, "");
    } else {
      StartOfTrimmed(s, ws);
      TailWhole(s + ws);
      AfterDashTrimmed(TrimStart(s), ws, Tag(field));
    }
  }

  function OrEmpty(v: Option<string>): string {
    match v
    case Some(text) => text
    case None => ""
  }

  ghost predicate NoValues(field: string, lines: seq<string>) {
    SectionValue(field, lines) == None && MetaValue(field, lines) == None
  }

  lemma {:induction false} SpacesAreNeutral(field: string, line: string)
    requires AllSpace(line)
    ensures Neutral(field, line)
  {
    TrimStartDrops(line, "");
    assert line + "" == line;
    assert Trim(line) == "" && Lower("") == "";
  }

  lemma {:induction false} SpacesHaveNoValues(field: string, lines: seq<string>)
    requires forall k :: 0 <= k < |lines| ==> AllSpace(lines[k])
    ensures NoValues(field, lines)
  {
    if lines != [] {
      SpacesAreNeutral(field, lines[0]);
      SpacesHaveNoValues(field, lines[1..]);
    }
  }

  /** A section that starts with its own heading. */
  lemma {:induction false} SectionHasNoValues(field: string, title: string, body: string)
    requires IsH2(title) && !IsMetadataHeading(title) && !IsMetadataHeading(body)
    ensures NoValues(field, ["", title, "", body, ""])
  {
    BlankIsNeutral(field);
    var lines := ["", title, "", body, ""];
    assert lines[1..] == [title, "", body, ""] && lines[1..][1..] == ["", body, ""];
    assert lines[1..][1..][1..] == [body, ""] && lines[1..][1..][1..][1..] == [""];
    assert lines[1..][1..][1..][1..][1..] == [];
    assert MetaValue(field, [""]) == None;
    assert MetaValue(field, [body, ""]) == None;
    assert MetaValue(field, ["", body, ""]) == None;
    assert MetaValue(field, [title, "", body, ""]) == None;
  }

  lemma {:induction false} NextLine(a: seq<string>, x: string, z: seq<string>)
    ensures a == [] ==> (a + [x] + z)[0] == x && (a + [x] + z)[1..] == z
    ensures a != [] ==> (a + [x] + z)[0] == a[0] && (a + [x] + z)[1..] == a[1..] + [x] + z
  {
  }

  lemma {:induction false} SectionTailsAgree(field: string, a: seq<string>, x: string, z: seq<string>, x': string,
                                             z': seq<string>)
    requires IsH2(x) == IsH2(x') && SameValue(ValueOf(x, field), ValueOf(x', field))
    requires NoValues(field, z) && NoValues(field, z')
    ensures OrEmpty(SectionValue(field, a + [x] + z)) == OrEmpty(SectionValue(field, a + [x'] + z'))
  {
    NextLine(a, x, z);
    NextLine(a, x', z');
    if a != [] {
      SectionTailsAgree(field, a[1..], x, z, x', z');
    }
  }

  /** What stands behind a line matters to no value, if it holds none. */
  lemma {:induction false} TailsAgree(field: string, a: seq<string>, x: string, z: seq<string>, x': string, z': seq<string>)
    requires IsH2(x) == IsH2(x') && IsMetadataHeading(x) == IsMetadataHeading(x')
    requires SameValue(ValueOf(x, field), ValueOf(x', field)) && NoValues(field, z) && NoValues(field, z')
    ensures OrEmpty(MetaValue(field, a + [x] + z)) == OrEmpty(MetaValue(field, a + [x'] + z'))
  {
    NextLine(a, x, z);
    NextLine(a, x', z');
    if a != [] {
      TailsAgree(field, a[1..], x, z, x', z');
      SectionTailsAgree(field, a[1..], x, z, x', z');
    }
  }

  lemma {:induction false} TrimmedLineLooksAlike(x: string)
    ensures IsH2(TrimEnd(x)) == IsH2(x) && IsMetadataHeading(TrimEnd(x)) == IsMetadataHeading(x)
  {
    var ws := TrimEndSplits(x);
    SpacesBehind(TrimEnd(x), ws);
  }

  lemma {:induction false} AroundLine(lines: seq<string>, n: nat)
    requires n < |lines|
    ensures lines == lines[..n] + [lines[n]] + lines[n + 1..]
  {
  }

  /** An appended section moves no value. */
  lemma {:induction false} AppendingKeepsShown(lines: seq<string>, t: seq<string>, section: seq<string>, field: string)
    requires Whole(lines) && Trimmed(lines, t) && NoValues(field, section)
    ensures Shown(t + section, field) == Shown(lines, field)
  {
    var n := |t| - 1;
    var a, x, z := lines[..n], lines[n], lines[n + 1..];
    AroundLine(lines, n);
    AroundLine(t, n);
    assert t[n + 1..] == [] && t == a + [TrimEnd(x)];
    SpacesHaveNoValues(field, z);
    TrimmedLineLooksAlike(x);
    TrimmedLineValue(x, field);
    TailsAgree(field, a, x, z, TrimEnd(x), section);
    ShownIs(lines, field);
    ShownIs(t + section, field);
  }

  lemma {:induction false} ShownIs(lines: seq<string>, field: string)
    ensures Shown(lines, field) == OrEmpty(MetaValue(field, lines))
  {
    FieldValueIs(lines, field);
  }

  // ---------------------------------------------------------------------
  // The headings of the appended sections

  lemma {:induction false} NotHash(line: string)
    requires Trim(line) != "" && Trim(line)[0] != '#'
    ensures !IsMetadataHeading(line)
  {
    var t := Lower(Trim(line));
    assert t[0] == LowerChar(Trim(line)[0]) != '#';
    if !IsSpace(t[0]) {
      CollapseStart(t);
    }
    assert "## metadata"[0] == "## metadata ("[0] == "## metadata:"[0] == "## metadata -"[0] == '#';
    TrimmedEnds(line);
    assert IsSpace(t[0]) <==> IsSpace(Trim(line)[0]);
  }

  lemma {:induction false} CollapsedH2(v: string)
    requires v != "" && !IsSpace(v[0])
    ensures var c := RepairGuard.CollapseSpaces("## " + v); |c| > 3 && c[3] == v[0]
  {
    var u := "## " + v;
    CollapseStart(v);
    assert u[1..][1..][1..] == v && u[1..][1..][0] == ' ' && u[1..][1..][1] == v[0];
    assert RepairGuard.CollapseSpaces(u[1..][1..]) == " " + RepairGuard.CollapseSpaces(v);
    assert RepairGuard.CollapseSpaces(u[1..]) == "#" + RepairGuard.CollapseSpaces(u[1..][1..]);
    assert RepairGuard.CollapseSpaces(u) == "#" + RepairGuard.CollapseSpaces(u[1..]);
  }

  /** A heading whose name does not begin as `metadata` does. */
  lemma {:induction false} OtherHeading(name: string)
    requires name != "" && NoSpaceAtEnds(name) && LowerChar(name[0]) != 'm'
    ensures IsH2("## " + name) && !IsMetadataHeading("## " + name)
  {
    var title := "## " + name;
    TrimmedEnds(title);
    assert Lower(title) == "## " + Lower(name) && Lower(name)[0] == LowerChar(name[0]);
    assert IsSpace(Lower(name)[0]) <==> IsSpace(name[0]);
    CollapsedH2(Lower(name));
    assert "## metadata"[3] == 'm' && "## metadata ("[3] == 'm' && "## metadata:"[3] == 'm' && "## metadata -"[3] == 'm';
  }

  lemma {:induction false} BodyIsNoHeading(start: string, rest: string)
    requires start != "" && !IsSpace(start[0]) && start[0] != '#'
    ensures !IsMetadataHeading(start + rest)
  {
    TrimEndKeepsFirst(start + rest);
    NotHash(start + rest);
  }

  lemma {:induction false} SectionNames(kind: FixKind)
    requires IsSection(kind)
    ensures
      var name := SectionOf(kind).0;
      name != "" && NoSpaceAtEnds(name) && LowerChar(name[0]) != 'm'
  {
  }

  lemma {:induction false} SectionBodies(kind: FixKind)
    requires IsSection(kind)
    ensures !IsMetadataHeading(SectionOf(kind).1)
  {
    if kind == MissingProblem {
      BodyIsNoHeading("TBD " + MARKER, PROBLEM_REQUEST);
    } else if kind == MissingCriteria {
      BodyIsNoHeading("- [ ] TBD " + MARKER, CRITERIA_REQUEST);
    } else {
      BodyIsNoHeading("- [ ] TBD " + MARKER, TESTS_REQUEST);
    }
  }

  lemma {:induction false} TrimmedWhole(lines: seq<string>, t: seq<string>)
    requires Whole(lines) && Trimmed(lines, t)
    ensures Whole(t)
  {
    var n := |t| - 1;
    forall k | 0 <= k < |t| ensures NoTerminator(t[k]) {
      if k < n {
        assert t[k] == t[..n][k] == lines[..n][k] == lines[k];
      } else {
        TrimEndLemma(lines[n]);
        SliceNoTerminator(lines[n], 0, |t[n]|);
      }
    }
  }

  lemma {:induction false} AppendedNoCr(content: string, heading: string, body: string)
    requires NoCr(content) && NoTerminator(heading) && NoTerminator(body)
    ensures NoCr(AppendSection(content, heading, body))
  {
    TrimEndLemma(content);
    WholeLine(heading);
    WholeLine(body);
    AppendedText(content, heading, body);
  }

  /** A text that is read back as it was joined. */
  ghost predicate Good(content: string) {
    NoCr(content) && Whole(SplitLines(content))
  }

  ghost predicate CarriesOn(content: string, next: Draft, field: string) {
    Good(next.content) && Carried(SplitLines(content), next.actions, SplitLines(next.content), field)
  }

  lemma {:induction false} AppendedCarries(content: string, heading: string, body: string, field: string)
    requires Good(content) && NoTerminator(heading) && NoTerminator(body)
    requires IsH2("## " + heading) && !IsMetadataHeading("## " + heading) && !IsMetadataHeading(body)
    ensures
      var text := AppendSection(content, heading, body);
      Good(text) && Shown(SplitLines(text), field) == Shown(SplitLines(content), field)
  {
    var lines, t, title := SplitLines(content), SplitLines(TrimEnd(content)), "## " + heading;
    var section := ["", title, "", body, ""];
    SectionIsAppended(content, heading, body);
    SectionHasNoValues(field, title, body);
    TrimmedLines(content);
    TrimmedWhole(lines, t);
    AppendingKeepsShown(lines, t, section, field);
    AppendedNoCr(content, heading, body);
    ConcatNoTerminator("## ", heading);
    WholeBoth(t, section);
  }

  lemma {:induction false} SectionCarries(content: string, kind: FixKind, options: Options, field: string)
    requires Good(content) && IsSection(kind) && Rewritable(field)
    ensures ApplyFix(content, kind, options).Some? && CarriesOn(content, ApplyFix(content, kind, options).value, field)
  {
    SectionIsPlain(kind);
    SectionNames(kind);
    SectionBodies(kind);
    OtherHeading(SectionOf(kind).0);
    AppendedCarries(content, SectionOf(kind).0, SectionOf(kind).1, field);
    SectionDraft(content, kind, options, field);
  }

  lemma {:induction false} WholeBoth(a: seq<string>, b: seq<string>)
    requires Whole(a) && Whole(b)
    ensures Whole(a + b)
  {
  }

  lemma {:induction false} SectionDraft(content: string, kind: FixKind, options: Options, field: string)
    requires IsSection(kind)
    ensures ApplyFix(content, kind, options).Some?
    ensures
      var next := ApplyFix(content, kind, options).value;
      next.content == AppendSection(content, SectionOf(kind).0, SectionOf(kind).1) &&
      !Taken(next.actions, field) && !Supplied(next.actions, field)
  {
  }

  // ---------------------------------------------------------------------
  // One fix

  lemma {:induction false} EditCarries(content: string, fixed: Option<seq<string>>, action: Action, field: string)
    requires fixed.Some? && Leaves(SplitLines(content), [action], fixed.value, field)
    ensures CarriesOn(content, Edited(fixed, action).value, field)
  {
    WholeJoin(fixed.value);
  }

  lemma {:induction false} ActionsOfInsertion(content: string, name: string, value: string, note: Option<string>,
                                              action: Action, field: string)
    requires Rewritable(field) && !Taken([action], field)
    ensures
      var next := InsertMetadataField(content, name, value, note, action);
      && !Taken(next.actions, field)
      && (EnsureMetadata(SplitLines(content)) != SplitLines(content) ==> Supplied(next.actions, field))
      && (Supplied([action], field) ==> Supplied(next.actions, field))
  {
  }

  lemma {:induction false} InsertedFieldCarries(content: string, name: string, value: string, note: Option<string>,
                                                action: Action, field: string)
    requires Good(content) && Rewritable(field) && !Taken([action], field)
    requires NoTerminator(name) && NoTerminator(value) && (note.Some? ==> NoTerminator(note.value))
    requires name != "" && (UpperChar(name[0]) == UpperChar(field[0]) ==> Supplied([action], field))
    ensures CarriesOn(content, InsertMetadataField(content, name, value, note, action), field)
  {
    var next := InsertMetadataField(content, name, value, note, action);
    ActionsOfInsertion(content, name, value, note, action, field);
    InsertionCarries(SplitLines(content), name, value, note, next.actions, field);
    WholeJoin(InsertField(SplitLines(content), name, value, note));
  }

  lemma {:induction false} MissingNotesWhole()
    ensures NoTerminator(MissingNote("priority", "P2-MEDIUM")) && NoTerminator(MissingNote("status", "BACKLOG"))
  {
    DefaultsAreValues();
    assert NoTerminator("priority") && NoTerminator("status");
    MissingNoteWhole("priority", "P2-MEDIUM");
    MissingNoteWhole("status", "BACKLOG");
  }

  lemma {:induction false} MissingFieldCarries(content: string, kind: FixKind, options: Options, field: string)
    requires Good(content) && Rewritable(field)
    requires kind == MissingPriority || kind == MissingEffort || kind == MissingStatus
    ensures ApplyFix(content, kind, options).Some? && CarriesOn(content, ApplyFix(content, kind, options).value, field)
  {
    FieldNames();
    MissingNotesWhole();
    if kind == MissingPriority {
      InsertedFieldCarries(content, "Priority", "P2-MEDIUM", Some(MissingNote("priority", "P2-MEDIUM")),
                           PriorityDefaulted, field);
    } else if kind == MissingEffort {
      EffortFix(content, options);
      PlaceholderIsValue();
      InsertedFieldCarries(content, "Effort", "TBD " + MARKER, None, EffortDefaulted, field);
    } else {
      StatusFix(content, options);
      DefaultsAreValues();
      InsertedFieldCarries(content, "Status", "BACKLOG", Some(MissingNote("status", "BACKLOG")), StatusDefaulted, field);
    }
  }

  lemma {:induction false} LineFixCarries(content: string, kind: FixKind, options: Options, field: string)
    requires Good(content) && Rewritable(field) && NoTerminator(options.taskIdHint)
    requires kind == MissingH1 || kind == H1Separator || kind == InvalidStatus
    requires ApplyFix(content, kind, options).Some?
    ensures CarriesOn(content, ApplyFix(content, kind, options).value, field)
  {
    var lines := SplitLines(content);
    if kind == MissingH1 {
      TitleFixCarries(lines, options.taskIdHint, field);
      EditCarries(content, FixMissingH1(lines, options.taskIdHint), H1Inserted, field);
    } else if kind == H1Separator {
      SeparatorFixCarries(lines, field);
      EditCarries(content, FixH1Separator(lines), H1SeparatorFixed, field);
    } else {
      StatusFixCarries(lines, field);
      EditCarries(content, FixStatus(lines), StatusNormalized, field);
    }
  }

  lemma {:induction false} PriorityCarries(content: string, options: Options, field: string)
    requires Good(content) && Rewritable(field) && ApplyFix(content, InvalidPriority, options).Some?
    ensures CarriesOn(content, ApplyFix(content, InvalidPriority, options).value, field)
  {
    var lines := SplitLines(content);
    PriorityFixCarries(lines, field);
    EditCarries(content, Some(FixPriority(lines).value.0), FixPriority(lines).value.1, field);
  }

  /** Every fix carries the two values on. */
  lemma {:induction false} FixCarries(content: string, kind: FixKind, options: Options, field: string)
    requires Good(content) && Rewritable(field) && NoTerminator(options.taskIdHint)
    requires ApplyFix(content, kind, options).Some?
    ensures CarriesOn(content, ApplyFix(content, kind, options).value, field)
  {
    if IsSection(kind) {
      SectionCarries(content, kind, options, field);
    } else if kind == MissingPriority || kind == MissingEffort || kind == MissingStatus {
      MissingFieldCarries(content, kind, options, field);
    } else if kind == InvalidPriority {
      PriorityCarries(content, options, field);
    } else {
      LineFixCarries(content, kind, options, field);
    }
  }

  // ---------------------------------------------------------------------
  // A run of the normalizer

  ghost predicate Carries(fix: Fixer, field: string) {
    forall content, message :: Good(content) && fix(content, message).Some? ==>
      CarriesOn(content, fix(content, message).value, field)
  }

  lemma {:induction false} FixerCarries(options: Options, field: string)
    requires Rewritable(field) && NoTerminator(options.taskIdHint)
    ensures Carries(FixerFor(options), field)
  {
    var fix := FixerFor(options);
    forall content, message | Good(content) && fix(content, message).Some?
      ensures CarriesOn(content, fix(content, message).value, field)
    {
      FixCarries(content, FixFor(message), options, field);
    }
  }

  /** A relation between texts, the actions taken, and the texts that come of them, which
      every fix of a good text extends. */
  type Relation = (string, seq<Action>, string) -> bool

  ghost predicate Extends(fix: Fixer, good: string -> bool, related: Relation) {
    (forall content :: good(content) ==> related(content, [], content)) &&
    forall content, message :: good(content) && fix(content, message).Some? ==>
      var next := fix(content, message).value;
      good(next.content) &&
      forall rest, final :: related(next.content, rest, final) ==> related(content, next.actions + rest, final)
  }

  lemma {:induction false} RoundsCarry(parse: Parser, fix: Fixer, good: string -> bool, related: Relation,
                                       draft: Draft, lastError: string, n: nat, d: Draft)
    returns (taken: seq<Action>)
    requires Extends(fix, good, related) && good(draft.content)
    requires Rounds(parse, fix, draft, lastError, n).0 == Some(d)
    ensures d.actions == draft.actions + taken && good(d.content) && related(draft.content, taken, d.content)
    decreases n
  {
    var outcome := parse(SplitLines(draft.content));
    RoundsStep(parse, fix, draft, lastError, n, d);
    if outcome.Parsed? {
      taken := [];
      assert draft.actions + [] == draft.actions;
    } else {
      var next := fix(draft.content, outcome.message).value;
      var after := Draft(next.content, draft.actions + next.actions);
      var rest := RoundsCarry(parse, fix, good, related, after, outcome.message, n - 1, d);
      taken := next.actions + rest;
      assert draft.actions + next.actions + rest == draft.actions + taken;
    }
  }

  predicate CarriedText(content: string, actions: seq<Action>, final: string, field: string) {
    Carried(SplitLines(content), actions, SplitLines(final), field)
  }

  lemma {:induction false} FixerExtends(options: Options, field: string)
    requires Rewritable(field) && NoTerminator(options.taskIdHint)
    ensures Extends(FixerFor(options), c => Good(c), (c, actions, final) => CarriedText(c, actions, final, field))
  {
    var fix := FixerFor(options);
    FixerCarries(options, field);
    forall content, message | Good(content) && fix(content, message).Some?
      ensures
        var next := fix(content, message).value;
        Good(next.content) &&
        forall rest, final ::
          CarriedText(next.content, rest, final, field) ==> CarriedText(content, next.actions + rest, final, field)
    {
      var next := fix(content, message).value;
      assert CarriesOn(content, next, field);
      forall rest, final | CarriedText(next.content, rest, final, field)
        ensures CarriedText(content, next.actions + rest, final, field)
      {
        CarriedThen(SplitLines(content), next.actions, SplitLines(next.content), rest, SplitLines(final), field);
      }
    }
  }

  lemma {:induction false} WholeLf(content: string)
    requires Whole(SplitLines(content))
    ensures SplitLines(ToLf(content)) == SplitLines(content) && NoCr(ToLf(content))
    decreases |content|
  {
    var a, rest := FirstLineOf(content);
    var lines := SplitLines(content);
    WholeLine(lines[0]);
    if FirstLf(content) == |content| {
      LfOfLastLine(content);
    } else {
      SplitFirst(a, rest);
      assert lines[0] == DropCr(a) && lines[1..] == SplitLines(rest);
      LfOfFirstLine(a, rest);
      SplitFirst(DropCr(a), ToLf(rest));
      WholeRest(lines);
      WholeLf(rest);
    }
  }

  lemma {:induction false} WholeRest(lines: seq<string>)
    requires Whole(lines) && lines != []
    ensures Whole(lines[1..])
  {
  }

  lemma {:induction false} ProvenanceCarries(content: string, actions: seq<Action>, date: string, field: string)
    requires Good(content) && NoTerminator(date) && Rewritable(field)
    ensures
      var repaired := AddProvenance(content, actions, date);
      NoCr(repaired) && Shown(SplitLines(repaired), field) == Shown(SplitLines(content), field)
  {
    var lines := SplitLines(content);
    if AddProvenance(content, actions, date) != content {
      var at := MetadataInsertIndex(lines);
      var text := ProvenanceIsClosed(actions, date);
      var stamped := Splice(lines, at, 0, [Bullet("Repaired", text)]);
      SpliceWhole(lines, at, 0, [Bullet("Repaired", text)]);
      WholeJoin(stamped);
      ProvenanceValue(lines, at, text, field);
    }
  }

  lemma {:induction false} FinishCarries(original: string, content: string, actions: seq<Action>, date: string,
                                         field: string)
    requires Good(content) && NoTerminator(date) && Rewritable(field)
    ensures Shown(SplitLines(InLineEndsOf(original, AddProvenance(content, actions, date))), field) ==
            Shown(SplitLines(content), field)
  {
    ProvenanceCarries(content, actions, date, field);
    LineEndsKeepLines(original, AddProvenance(content, actions, date));
  }

  /** In every resolved repair, whatever else was fixed, a priority or status that nobody
      supplied is the submitted one, or what the token stands for that was taken from
      it. */
  lemma {:induction false} ResolvedValues(parse: Parser, content: string, options: Options, r: NormalizeResult,
                                          field: string)
    requires r == Normalize(parse, content, options) && r.resolved && Rewritable(field)
    requires Whole(SplitLines(content)) && NoTerminator(options.date) && NoTerminator(options.taskIdHint)
    ensures Carried(SplitLines(content), r.actions, SplitLines(r.content), field)
  {
    var start := Draft(ToLf(content), []);
    var d := Rounds(parse, FixerFor(options), start, "", MAX_FIX_ITERATIONS).0.value;
    WholeLf(content);
    FixerIsSound(options);
    RoundsActions(parse, FixerFor(options), start, "", MAX_FIX_ITERATIONS);
    if d.actions != [] {
      FixerExtends(options, field);
      var taken := RoundsCarry(parse, FixerFor(options), c => Good(c),
                               (c, actions, final) => CarriedText(c, actions, final, field), start, "",
                               MAX_FIX_ITERATIONS, d);
      assert d.actions == taken;
      FinishCarries(content, d.content, d.actions, options.date, field);
    }
  }

  /** The priority of a resolved repair, unless it or a Metadata section was supplied: an
      extracted one is the level whose name, of all names that lead the submitted value,
      is the longest; another one is the submitted one. */
  lemma {:induction false} ResolvedPriority(parse: Parser, content: string, options: Options, r: NormalizeResult)
    requires r == Normalize(parse, content, options) && r.resolved
    requires PriorityDefaulted !in r.actions && MetadataSectionInserted !in r.actions
    requires Whole(SplitLines(content)) && NoTerminator(options.date) && NoTerminator(options.taskIdHint)
    ensures
      var was, now := Shown(SplitLines(content), "Priority"), Shown(SplitLines(r.content), "Priority");
      if PriorityExtracted in r.actions then MeansPriority(was, now) else now == was
  {
    ResolvedValues(parse, content, options, r, "Priority");
    PriorityExactly(Shown(SplitLines(content), "Priority"));
  }

  /** The status likewise. */
  lemma {:induction false} ResolvedStatus(parse: Parser, content: string, options: Options, r: NormalizeResult)
    requires r == Normalize(parse, content, options) && r.resolved
    requires StatusDefaulted !in r.actions && MetadataSectionInserted !in r.actions
    requires Whole(SplitLines(content)) && NoTerminator(options.date) && NoTerminator(options.taskIdHint)
    ensures
      var was, now := Shown(SplitLines(content), "Status"), Shown(SplitLines(r.content), "Status");
      if StatusNormalized in r.actions then NormalizeStatus(was).None? && MeansStatus(was, now) else now == was
  {
    var was, now := Shown(SplitLines(content), "Status"), Shown(SplitLines(r.content), "Status");
    ResolvedValues(parse, content, options, r, "Status");
    StatusExactly(was, now);
  }
}
