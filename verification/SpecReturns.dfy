/** What stability needs of the parser.  A parser that tells lines by the carriage
    returns at their ends may refuse the result of a repair as the next normalization
    reads it: of LF submissions that end in two or more carriage returns, but of no
    others. */
module SpecReturns {
  import opened Base
  import opened Text
  import opened Lines
  import opened Alignment
  import opened RepairGuard
  import opened SpecFixes
  import opened SpecNormalizer
  import opened SpecStability

  function Crs(k: nat): (s: string)
    ensures |s| == k && forall i :: 0 <= i < k ==> s[i] == '\r'
  {
    seq(k, i => '\r')
  }

  /** The text ends in exactly `k` carriage returns. */
  predicate EndsInExactly(s: string, k: nat) {
    k <= |s| && s[|s| - k..] == Crs(k) && !EndsInCr(s[..|s| - k])
  }

  predicate PlainOptions(options: Options) {
    NoCr(options.taskIdHint) && NoCr(options.date)
  }

  /** What the normalizer makes of the submission it leaves as it is. */
  predicate Stable(parse: Parser, content: string, options: Options) {
    var r := Normalize(parse, content, options);
    r.resolved ==> Normalize(parse, r.content, options) == NormalizeResult(false, r.content, [], true)
  }

  // ---------------------------------------------------------------------
  // The submission: a Metadata heading and an unfinished bullet, no H1

  const METADATA := "## Metadata"
  const HINT := "T1"
  const DATE := "now"
  const TITLE := "# " + HINT + ": Untitled " + RepairGuard.MARKER
  const EFFORT := Bullet("Effort", "TBD " + RepairGuard.MARKER)
  const STAMP := " spec-normalizer: " + H1Inserted.Key()
  const REPAIRED := Bullet("Repaired", DATE + STAMP)

  function EffortLine(k: nat): string {
    EFFORT + Crs(k)
  }

  function Submission(k: nat): seq<string> {
    [METADATA, EffortLine(k)]
  }

  /** The submission with a title, and with a title and provenance. */
  function Titled(k: nat): seq<string> {
    [TITLE, "", METADATA, EffortLine(k)]
  }

  function Stamped(k: nat): seq<string> {
    [TITLE, "", METADATA, EffortLine(k), REPAIRED]
  }

  const COMPLAINT := "Missing required H1 heading"

  /** Accepts what the first normalization comes to, and nothing else. */
  function Picky(k: nat): Parser
    requires k > 0
  {
    lines => if lines == Titled(k) || lines == Stamped(k - 1) then Parsed else TaskParseError(COMPLAINT)
  }

  // ---------------------------------------------------------------------
  // The shapes of its lines

  lemma {:induction false} TrimEndOfCrs(s: string, k: nat)
    requires NoSpaceAtEnds(s)
    ensures TrimEnd(s + Crs(k)) == s
    decreases k
  {
    if k == 0 {
      assert s + Crs(0) == s;
    } else {
      assert (s + Crs(k))[..|s| + k - 1] == s + Crs(k - 1);
      TrimEndOfCrs(s, k - 1);
    }
  }

  lemma {:induction false} TrimOfCrs(s: string, k: nat)
    requires NoSpaceAtEnds(s) && s != ""
    ensures Trim(s + Crs(k)) == s
  {
    assert (s + Crs(k))[0] == s[0];
    TrimEndOfCrs(s, k);
  }

  /** A bullet whose value ends in no space is trimmed. */
  lemma {:induction false} BulletEnds(field: string, before: string, last: string)
    requires last != "" && !IsSpace(last[|last| - 1])
    ensures var b := Bullet(field, before + last); b != "" && b[0] == '-' && NoSpaceAtEnds(b)
  {
    var b := Bullet(field, before + last);
    assert b[|b| - 1] == last[|last| - 1];
  }

  lemma {:induction false} FieldEndIs(s: string, i: nat, e: nat)
    requires i <= e < |s| && (s[e] == ':' || s[e] == '*')
    requires forall k :: i <= k < e ==> s[k] != ':' && s[k] != '*'
    ensures FieldEnd(s, i) == e
    decreases e - i
  {
    if i < e {
      FieldEndIs(s, i + 1, e);
    }
  }

  lemma {:induction false} BulletParts(field: string, value: string)
    requires field != "" && forall c :: c in field ==> c != ':' && c != '*'
    ensures
      var bullet := "**" + field + ":** " + value;
      && FieldEnd(bullet, 2) == 2 + |field|
      && bullet[2..2 + |field|] == field
      && StartsWith(bullet[2 + |field|..], ":**")
  {
    var bullet, e := "**" + field + ":** " + value, 2 + |field|;
    forall k | 2 <= k < e ensures bullet[k] != ':' && bullet[k] != '*' {
      assert bullet[k] == field[k - 2] && field[k - 2] in field;
    }
    FieldEndIs(bullet, 2, e);
    assert bullet[2..e] == field;
    assert bullet[e..] == ":** " + value;
  }

  lemma {:induction false} BulletStart(field: string, value: string)
    ensures TrimStart(Bullet(field, value)[1..]) == "**" + field + ":** " + value
  {
    var bullet := "**" + field + ":** " + value;
    assert Bullet(field, value)[1..] == " " + bullet;
    assert (" " + bullet)[1..] == bullet && bullet[0] == '*';
  }

  lemma {:induction false} BulletField(field: string, value: string)
    requires field != "" && forall c :: c in field ==> c != ':' && c != '*'
    ensures MetaField(Bullet(field, value)) == Some(Lower(Trim(field)))
  {
    BulletStart(field, value);
    BulletParts(field, value);
    var bullet := "**" + field + ":** " + value;
    assert StartsWith(bullet, "**");
  }

  lemma {:induction false} BulletClass(line: string, field: string, value: string)
    requires Trim(line) == Bullet(field, value)
    requires field != "" && forall c :: c in field ==> c != ':' && c != '*'
    ensures ClassifyLine(line) == Meta(Lower(Trim(field)))
  {
    BulletField(field, value);
    assert Trim(line)[0] == '-';
  }

  lemma {:induction false} FieldNames()
    ensures Lower(Trim("Effort")) == "effort" && Lower(Trim("Repaired")) == "repaired"
  {
    TrimmedEnds("Effort");
    TrimmedEnds("Repaired");
  }

  lemma {:induction false} EffortTrimmed(k: nat)
    ensures Trim(EffortLine(k)) == EFFORT && EFFORT != "" && EFFORT[0] == '-'
  {
    BulletEnds("Effort", "TBD ", RepairGuard.MARKER);
    TrimOfCrs(EFFORT, k);
  }

  lemma {:induction false} EffortClass(k: nat)
    ensures ClassifyLine(EffortLine(k)) == Meta("effort")
  {
    EffortTrimmed(k);
    FieldNames();
    BulletClass(EffortLine(k), "Effort", "TBD " + RepairGuard.MARKER);
  }

  lemma {:induction false} StampEnds()
    ensures STAMP != "" && !IsSpace(STAMP[|STAMP| - 1])
  {
    assert STAMP[|STAMP| - 1] == "h1-inserted"[10];
  }

  lemma {:induction false} RepairedClass()
    ensures ClassifyLine(REPAIRED) == Meta("repaired")
  {
    StampEnds();
    BulletEnds("Repaired", DATE, STAMP);
    TrimmedEnds(REPAIRED);
    FieldNames();
    BulletClass(REPAIRED, "Repaired", DATE + STAMP);
  }

  lemma {:induction false} TitleTrimmed()
    ensures Trim(TITLE) == TITLE && StartsWith(TITLE, "# ") && |TITLE| > 2 && TITLE[2] == 'T'
  {
    assert TITLE == "# " + (HINT + ": Untitled " + RepairGuard.MARKER);
    assert TITLE[|TITLE| - 1] == RepairGuard.MARKER[|RepairGuard.MARKER| - 1];
    TrimmedEnds(TITLE);
  }

  lemma {:induction false} TitleClass()
    ensures ClassifyLine(TITLE) == H1
  {
    TitleTrimmed();
  }

  lemma {:induction false} CollapseFirst(s: string)
    requires s != ""
    ensures var c := CollapseSpaces(s); c != "" && c[0] == if IsSpace(s[0]) then ' ' else s[0]
  {
    if IsSpace(s[0]) && |s| > 1 && IsSpace(s[1]) {
      CollapseFirst(s[1..]);
    }
  }

  lemma {:induction false} TitleIsNoMetadata()
    ensures !IsMetadataHeading(TITLE)
  {
    TitleTrimmed();
    var t := Lower(TITLE);
    assert t[0] == '#' && t[1] == ' ';
    CollapseFirst(t[1..]);
    assert CollapseSpaces(t) == "#" + CollapseSpaces(t[1..]);
    assert CollapseSpaces(t)[1] == ' ';
    assert "## metadata"[1] == "## metadata ("[1] == "## metadata:"[1] == "## metadata -"[1] == '#';
  }

  lemma {:induction false} BlankIsNoMetadata()
    ensures ClassifyLine("") == Blank && !IsMetadataHeading("") && Trim("") == ""
  {
    assert Lower("") == "";
  }

  lemma {:induction false} CollapsePlain(s: string)
    requires forall c :: c in s ==> !IsSpace(c)
    ensures CollapseSpaces(s) == s
  {
    if s != "" {
      assert s[0] in s && forall c :: c in s[1..] ==> c in s;
      CollapsePlain(s[1..]);
    }
  }

  lemma {:induction false} CollapseWords(a: string, b: string)
    requires b != "" && forall c :: c in a + b ==> !IsSpace(c)
    ensures CollapseSpaces(a + " " + b) == a + " " + b
  {
    assert b[0] in a + b && forall c :: c in b ==> c in a + b;
    if a == "" {
      assert a + " " + b == " " + b && (" " + b)[1..] == b;
      CollapsePlain(b);
    } else {
      assert a[0] in a + b && forall c :: c in a[1..] + b ==> c in a + b;
      CollapseWords(a[1..], b);
      assert (a + " " + b)[1..] == a[1..] + " " + b;
    }
  }

  lemma {:induction false} BeforeNothing(s: string)
    requires forall c :: c in s ==> !StartsQualifier(c)
    ensures BeforeQualifier(s) == s
  {
    if s != "" {
      assert s[0] in s && forall c :: c in s[1..] ==> c in s;
      BeforeNothing(s[1..]);
    }
  }

  const WORD := "metadata"

  lemma {:induction false} WordIsPlain()
    ensures forall c :: c in WORD ==> !IsSpace(c) && !StartsQualifier(c)
  {
  }

  lemma {:induction false} WordInCapitals()
    ensures Lower(Trim("Metadata")) == WORD && Trim(WORD) == WORD
  {
    TrimmedEnds("Metadata");
    TrimmedEnds(WORD);
  }

  lemma {:induction false} MetadataName()
    ensures NormalizeHeadingName("Metadata") == WORD
  {
    WordInCapitals();
    WordIsPlain();
    CollapsePlain(WORD);
    BeforeNothing(WORD);
  }

  lemma {:induction false} MetadataClass()
    ensures ClassifyLine(METADATA) == Heading(WORD)
  {
    TrimmedEnds(METADATA);
    assert METADATA == "## " + "Metadata" && METADATA[3..] == "Metadata";
    MetadataName();
  }

  lemma {:induction false} MetadataInWords()
    ensures Lower(METADATA) == "##" + " " + WORD && Trim(METADATA) == METADATA
  {
    TrimmedEnds(METADATA);
  }

  lemma {:induction false} CollapsedMetadata()
    ensures CollapseSpaces("##" + " " + WORD) == "##" + " " + WORD
  {
    WordIsPlain();
    assert forall c :: c in "##" + WORD ==> c == '#' || c in WORD;
    CollapseWords("##", WORD);
  }

  lemma {:induction false} MetadataIsFound()
    ensures IsMetadataHeading(METADATA) && !IsH1(METADATA)
  {
    MetadataInWords();
    CollapsedMetadata();
    assert "##" + " " + WORD == "## metadata";
    assert METADATA[1] == '#' && "# "[1] == ' ';
  }

  // ---------------------------------------------------------------------
  // Lines that lose a carriage return

  lemma {:induction false} LiteralLines()
    ensures '\n' !in METADATA && '\r' !in METADATA && '\n' !in TITLE && '\r' !in TITLE
  {
  }

  lemma {:induction false} BulletLines(k: nat)
    ensures '\n' !in EffortLine(k) && '\n' !in REPAIRED && '\r' !in EFFORT
  {
  }

  lemma {:induction false} EffortLosesOne(k: nat)
    requires k > 0
    ensures DropCr(EffortLine(k)) == EffortLine(k - 1)
  {
    assert EffortLine(k)[|EffortLine(k)| - 1] == Crs(k)[k - 1];
    assert Crs(k)[..k - 1] == Crs(k - 1);
  }

  lemma {:induction false} ReadBackFirst(a: string, rest: seq<string>)
    requires rest != []
    ensures ReadBack([a] + rest) == [DropCr(a)] + ReadBack(rest)
  {
    assert ([a] + rest)[1..] == rest;
  }

  lemma {:induction false} ReadBackThree(a: string, b: string, c: string, rest: seq<string>)
    requires rest != []
    ensures ReadBack([a, b, c] + rest) == [DropCr(a), DropCr(b), DropCr(c)] + ReadBack(rest)
  {
    ReadBackFirst(c, rest);
    ReadBackFirst(b, [c] + rest);
    ReadBackFirst(a, [b] + ([c] + rest));
    assert [a, b, c] + rest == [a] + ([b] + ([c] + rest));
  }

  lemma {:induction false} CleanHeads()
    ensures DropCr(METADATA) == METADATA && DropCr(TITLE) == TITLE && DropCr("") == ""
  {
    LiteralLines();
    assert METADATA[|METADATA| - 1] in METADATA && TITLE[|TITLE| - 1] in TITLE;
  }

  lemma {:induction false} ReadSubmission(k: nat)
    ensures NoLfLines(Submission(k)) && ReadBack(Submission(k)) == Submission(k)
  {
    LiteralLines();
    BulletLines(k);
    CleanHeads();
    assert Submission(k)[1..] == [EffortLine(k)];
  }

  lemma {:induction false} ReadTitled(k: nat)
    ensures NoLfLines(Titled(k)) && ReadBack(Titled(k)) == Titled(k)
  {
    LiteralLines();
    BulletLines(k);
    CleanHeads();
    ReadBackThree(TITLE, "", METADATA, [EffortLine(k)]);
    assert Titled(k) == [TITLE, "", METADATA] + [EffortLine(k)];
  }

  lemma {:induction false} ReadStamped(k: nat)
    requires k > 0
    ensures NoLfLines(Stamped(k)) && ReadBack(Stamped(k)) == Stamped(k - 1)
  {
    LiteralLines();
    BulletLines(k);
    CleanHeads();
    EffortLosesOne(k);
    var rest := [EffortLine(k), REPAIRED];
    assert rest[1..] == [REPAIRED];
    ReadBackThree(TITLE, "", METADATA, rest);
    assert Stamped(k) == [TITLE, "", METADATA] + rest;
  }

  // ---------------------------------------------------------------------
  // The fix, the provenance and the guard

  lemma {:induction false} NoTitleYet(k: nat)
    ensures FindH1(Submission(k), 0) == 2
  {
    MetadataIsFound();
    EffortTrimmed(k);
  }

  lemma {:induction false} TitleIsAdded(k: nat)
    ensures FixMissingH1(Submission(k), HINT) == Some(Titled(k))
  {
    NoTitleYet(k);
    TrimmedEnds(HINT);
    assert ["# " + Trim(HINT) + ": Untitled " + RepairGuard.MARKER, ""] + Submission(k) == Titled(k);
  }

  lemma {:induction false} StampIsLast(k: nat)
    ensures FindMetadataHeading(Titled(k), 0) == 2 && MetadataInsertIndex(Titled(k)) == 4
  {
    TitleIsNoMetadata();
    BlankIsNoMetadata();
    MetadataIsFound();
    EffortTrimmed(k);
    assert FindMetadataHeading(Titled(k), 1) == FindMetadataHeading(Titled(k), 2) == 2;
    assert StartsWith(EFFORT, "- ");
    assert InsertIndex(Titled(k), 3, 4, 4) == 4;
  }

  lemma {:induction false} MarkersHeld(k: nat)
    ensures Contains(EffortLine(k), RepairGuard.MARKER) && Contains(TITLE, RepairGuard.MARKER)
  {
    ContainsPart("- **Effort:** TBD ", RepairGuard.MARKER, Crs(k));
    assert EffortLine(k) == "- **Effort:** TBD " + RepairGuard.MARKER + Crs(k);
    ContainsPart("# " + HINT + ": Untitled ", RepairGuard.MARKER, "");
    assert TITLE == "# " + HINT + ": Untitled " + RepairGuard.MARKER + "";
  }

  lemma {:induction false} ShortenedIsNotFound(k: nat)
    requires k > 0
    ensures Find(Stamped(k - 1), METADATA, 0) == 2
    ensures Find(Stamped(k - 1), EffortLine(k), 3) == 5
  {
    var r := Stamped(k - 1);
    assert TITLE[1] == ' ' && METADATA[1] == '#';
    assert EFFORT[4] == 'E' && REPAIRED[4] == 'R';
    assert EffortLine(k)[4] == EFFORT[4];
    assert |EffortLine(k)| == |EFFORT| + k;
    assert Find(r, METADATA, 1) == Find(r, METADATA, 2) == 2;
    assert Find(r, EffortLine(k), 4) == Find(r, EffortLine(k), 5) == 5;
  }

  lemma {:induction false} ShortenedAlignment(k: nat)
    requires k > 0
    ensures Greedy(Submission(k), Stamped(k - 1), 0, 0) == [Some(2), None]
  {
    var o, r := Submission(k), Stamped(k - 1);
    ShortenedIsNotFound(k);
    assert Greedy(o, r, 2, 3) == [];
    assert Greedy(o, r, 1, 3) == [None];
  }

  lemma {:induction false} BulletIsReplaced(k: nat)
    requires k > 0
    ensures OnLost(Submission(k), Stamped(k - 1), 1) == []
  {
    var o, r := Submission(k), Stamped(k - 1);
    EffortClass(k);
    EffortClass(k - 1);
    MetadataClass();
    TitleClass();
    BlankIsNoMetadata();
    MarkersHeld(k - 1);
    assert InMetadata(o, 0) && EnvelopeAt(o, 1);
    assert InMetadata(r, 2) && MetaAt(r, 3, "effort");
    assert FindMeta(r, "effort", 1) == FindMeta(r, "effort", 2) == FindMeta(r, "effort", 3) == 3;
    assert FindMeta(r, "effort", 0) == 3;
  }

  lemma {:induction false} TitleIsInserted(k: nat)
    ensures MayBeInserted(Submission(k + 1), Stamped(k), 0)
  {
    TitleTrimmed();
    MarkersHeld(k);
    assert TITLE[0] == '#' && TITLE[1] == ' ';
    assert IsNarrowPlaceholderLine(TITLE);
  }

  lemma {:induction false} BulletsAreInserted(k: nat, i: nat)
    requires i == 3 || i == 4
    ensures MayBeInserted(Submission(k + 1), Stamped(k), i)
  {
    var r := Stamped(k);
    EffortClass(k);
    MetadataClass();
    RepairedClass();
    MarkersHeld(k);
    assert InMetadata(r, 2) && InMetadata(r, 3) && InMetadata(r, 4);
  }

  lemma {:induction false} RestIsInserted(k: nat, i: nat)
    requires k > 0 && i < 5 && i != 2
    ensures MayBeInserted(Submission(k), Stamped(k - 1), i)
  {
    if i == 0 {
      TitleIsInserted(k - 1);
    } else if i == 1 {
      BlankIsNoMetadata();
    } else {
      BulletsAreInserted(k - 1, i);
    }
  }

  /** The guard takes the shortened bullet for a replaced one. */
  lemma {:induction false} ShorteningIsAccepted(k: nat)
    requires k > 0
    ensures Accepts(Submission(k), Stamped(k - 1))
  {
    var o, r := Submission(k), Stamped(k - 1);
    ShortenedAlignment(k);
    BulletIsReplaced(k);
    forall i | 0 <= i < |r| && i != 2 ensures MayBeInserted(o, r, i) {
      RestIsInserted(k, i);
    }
    AcceptsExactly(o, r);
  }

  // ---------------------------------------------------------------------
  // Two normalizations

  lemma {:induction false} SubmissionEnds(k: nat)
    ensures !UsesCrlf(JoinLines(Submission(k))) && EndsInExactly(JoinLines(Submission(k)), k)
  {
    var content, text := JoinLines(Submission(k)), METADATA + "\n" + EFFORT;
    JoinFirst(METADATA, [EffortLine(k)]);
    assert Submission(k) == [METADATA] + [EffortLine(k)];
    assert content == METADATA + "\n" + EffortLine(k) == text + Crs(k);
    assert content[|content| - k..] == Crs(k) && content[..|content| - k] == text;
    LiteralLines();
    BulletLines(k);
    BulletEnds("Effort", "TBD ", RepairGuard.MARKER);
    forall i ensures !OccursAt(content, "\r\n", i) {
      NoBreakAt(content, k, i);
    }
  }

  lemma {:induction false} NoBreakAt(content: string, k: nat, i: int)
    requires content == METADATA + "\n" + EffortLine(k)
    requires '\n' !in METADATA && '\r' !in METADATA && '\n' !in EffortLine(k)
    ensures !OccursAt(content, "\r\n", i)
  {
    if 0 <= i <= |content| - 2 {
      assert content[i..i + 2][0] == content[i] && content[i..i + 2][1] == content[i + 1];
      assert i < |METADATA| ==> content[i] in METADATA;
      assert i >= |METADATA| ==> content[i + 1] in EffortLine(k);
    }
  }

  lemma {:induction false} FixApplies(k: nat)
    ensures FixerFor(Options(HINT, DATE))(JoinLines(Submission(k)), COMPLAINT) ==
            Some(Draft(JoinLines(Titled(k)), [H1Inserted]))
  {
    ReadSubmission(k);
    SplitOfJoin(Submission(k));
    TitleIsAdded(k);
    assert OccursAt(COMPLAINT, COMPLAINT, 0);
    assert FixFor(COMPLAINT) == MissingH1;
  }

  lemma {:induction false} OneRound(parse: Parser, fix: Fixer, content: string, message: string, next: Draft, n: nat)
    requires parse(SplitLines(content)) == TaskParseError(message) && message != ""
    requires fix(content, message) == Some(next) && parse(SplitLines(next.content)).Parsed? && n >= 2
    ensures Rounds(parse, fix, Draft(content, []), "", n).0 == Some(next)
  {
    assert [] + next.actions == next.actions;
    assert Rounds(parse, fix, next, message, n - 1).0 == Some(next);
  }

  lemma {:induction false} FirstRound(k: nat)
    requires k > 0
    ensures
      Rounds(Picky(k), FixerFor(Options(HINT, DATE)), Draft(ToLf(JoinLines(Submission(k))), []), "",
             MAX_FIX_ITERATIONS).0 == Some(Draft(JoinLines(Titled(k)), [H1Inserted]))
  {
    ReadSubmission(k);
    SplitOfJoin(Submission(k));
    LfOfJoin(Submission(k));
    FixApplies(k);
    ReadTitled(k);
    SplitOfJoin(Titled(k));
    assert |Submission(k)| == 2;
    OneRound(Picky(k), FixerFor(Options(HINT, DATE)), JoinLines(Submission(k)), COMPLAINT,
             Draft(JoinLines(Titled(k)), [H1Inserted]), MAX_FIX_ITERATIONS);
  }

  lemma {:induction false} ProvenanceIsAdded(k: nat)
    ensures AddProvenance(JoinLines(Titled(k)), [H1Inserted], DATE) == JoinLines(Stamped(k))
  {
    ReadTitled(k);
    SplitOfJoin(Titled(k));
    StampIsLast(k);
    assert JoinActions([H1Inserted]) == H1Inserted.Key();
    assert DATE + " spec-normalizer: " + H1Inserted.Key() == DATE + STAMP;
    assert Splice(Titled(k), 4, 0, [REPAIRED]) == Stamped(k);
  }

  /** The first normalization repairs the submission and loses a carriage return
      where the provenance line follows the bullet. */
  lemma {:induction false} FirstNormalization(k: nat)
    requires k > 0
    ensures Normalize(Picky(k), JoinLines(Submission(k)), Options(HINT, DATE)) ==
            NormalizeResult(true, JoinLines(Stamped(k)), [H1Inserted], true)
  {
    FirstRound(k);
    ProvenanceIsAdded(k);
    SubmissionEnds(k);
    ReadSubmission(k);
    SplitOfJoin(Submission(k));
    ReadStamped(k);
    SplitOfJoin(Stamped(k));
    ShorteningIsAccepted(k);
  }

  /** The second one reads the bullet without another one. */
  lemma {:induction false} SecondReading(k: nat)
    requires k >= 2
    ensures SplitLines(ToLf(JoinLines(Stamped(k)))) == Stamped(k - 2)
    ensures Picky(k)(Stamped(k - 2)) == TaskParseError(COMPLAINT)
  {
    ReadStamped(k);
    ReadStamped(k - 1);
    LfOfJoin(Stamped(k));
    SplitOfJoin(Stamped(k - 1));
    assert |EffortLine(k - 2)| != |EffortLine(k - 1)|;
    assert Stamped(k - 2)[3] != Stamped(k - 1)[3];
    assert |Stamped(k - 2)| != |Titled(k)|;
  }

  /** An LF submission that ends in two or more carriage returns may be resolved
      into a text that the next normalization does not accept. */
  lemma {:induction false} DoubledReturnsAreNotStable(k: nat)
    requires k >= 2
    ensures
      var content := JoinLines(Submission(k));
      !UsesCrlf(content) && EndsInExactly(content, k) && !Stable(Picky(k), content, Options(HINT, DATE))
  {
    var options := Options(HINT, DATE);
    SubmissionEnds(k);
    FirstNormalization(k);
    SecondReading(k);
    UnchangedExactly(Picky(k), JoinLines(Stamped(k)), options);
  }

  /** LF submissions that end in `k` carriage returns are all normalized to a fixed
      point, by every parser, exactly when `k` is at most one. */
  lemma {:induction false} StableExactly(k: nat)
    ensures
      (forall parse: Parser, content, options ::
         !UsesCrlf(content) && EndsInExactly(content, k) && PlainOptions(options) ==> Stable(parse, content, options))
      <==> k <= 1
  {
    if k <= 1 {
      forall parse: Parser, content, options | !UsesCrlf(content) && EndsInExactly(content, k) && PlainOptions(options)
        ensures Stable(parse, content, options)
      {
        FewReturns(content, k);
        if Normalize(parse, content, options).resolved {
          StableForEveryParser(parse, content, options, Normalize(parse, content, options));
        }
      }
    } else {
      DoubledReturnsAreNotStable(k);
      assert PlainOptions(Options(HINT, DATE));
    }
  }

  lemma {:induction false} FewReturns(content: string, k: nat)
    requires EndsInExactly(content, k) && k <= 1
    ensures !EndsInTwoCrs(content)
  {
    if |content| >= 2 {
      var n := |content| - 2;
      assert content[n..][0] == content[n] && content[n..][1] == content[n + 1];
      assert k == 1 ==> content[..n + 1][n] == content[n];
      assert k == 0 ==> content[..n + 2][n + 1] == content[n + 1];
    }
  }
}
