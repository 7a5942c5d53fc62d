/** How far the normalizer goes: up to eleven fixes, each for another error than the one
    before, until the text parses. */
module SpecRounds {
  import opened Base
  import opened Text
  import opened Lines
  import opened SpecFixes
  import opened SpecNormalizer

  /** After exactly `k` fixes, each for another error than the one before, the text
      parses, and `d` is what has come of it. */
  ghost predicate ParsesAfter(parse: Parser, fix: Fixer, draft: Draft, lastError: string, k: nat, d: Draft)
    decreases k
  {
    match parse(SplitLines(draft.content))
    case Parsed => k == 0 && d == draft
    case OtherError(_) => false
    case TaskParseError(message) =>
      k > 0 && message != lastError && fix(draft.content, message).Some? &&
      var next := fix(draft.content, message).value;
      ParsesAfter(parse, fix, Draft(next.content, draft.actions + next.actions), message, k - 1, d)
  }

  /** What the rounds reach, they reach after fewer fixes than there are rounds. */
  lemma {:induction false} RoundsReach(parse: Parser, fix: Fixer, draft: Draft, lastError: string, n: nat, d: Draft)
    returns (k: nat)
    requires Rounds(parse, fix, draft, lastError, n).0 == Some(d)
    ensures k < n && ParsesAfter(parse, fix, draft, lastError, k, d)
    decreases n
  {
    k := 0;
    var outcome := parse(SplitLines(draft.content));
    if outcome.TaskParseError? {
      var next := fix(draft.content, outcome.message).value;
      var rest := RoundsReach(parse, fix, Draft(next.content, draft.actions + next.actions), outcome.message, n - 1, d);
      k := rest + 1;
    }
  }

  lemma {:induction false} ReachedByRounds(parse: Parser, fix: Fixer, draft: Draft, lastError: string, n: nat, d: Draft,
                                           k: nat)
    requires k < n && ParsesAfter(parse, fix, draft, lastError, k, d)
    ensures Rounds(parse, fix, draft, lastError, n).0 == Some(d)
    decreases n
  {
    var outcome := parse(SplitLines(draft.content));
    if outcome.TaskParseError? {
      var next := fix(draft.content, outcome.message).value;
      var after := Draft(next.content, draft.actions + next.actions);
      ReachedByRounds(parse, fix, after, outcome.message, n - 1, d, k - 1);
    }
  }

  /** What stands at the start of every run. */
  function Submitted(content: string): Draft {
    Draft(ToLf(content), [])
  }

  /** The last checks: with its provenance, the text is accepted by the guard and
      parses. */
  function LastChecks(parse: Parser, options: Options, content: string): Draft -> bool {
    (d: Draft) => Finalize(parse, options, content, d).resolved
  }

  /** Fewer than `n` fixes, no error twice in a row, a text that parses, and that ends
      well. */
  ghost predicate Reaches(parse: Parser, fix: Fixer, start: Draft, n: nat, well: Draft -> bool, k: nat, d: Draft) {
    k < n && ParsesAfter(parse, fix, start, "", k, d) && well(d)
  }

  lemma {:induction false} EndsExactly(parse: Parser, fix: Fixer, start: Draft, n: nat, well: Draft -> bool)
    ensures
      var r := Rounds(parse, fix, start, "", n).0;
      r.Some? && well(r.value) <==> exists k, d :: Reaches(parse, fix, start, n, well, k, d)
  {
    var r := Rounds(parse, fix, start, "", n).0;
    if r.Some? && well(r.value) {
      var k := RoundsReach(parse, fix, start, "", n, r.value);
      assert Reaches(parse, fix, start, n, well, k, r.value);
    }
    forall k, d | Reaches(parse, fix, start, n, well, k, d) ensures r == Some(d) && well(d) {
      ReachedByRounds(parse, fix, start, "", n, d, k);
    }
  }

  /** A submission is resolved exactly when it parses after fewer than twelve fixes, none
      of which leaves the error as it was, and what has come of it passes the last
      checks. */
  lemma {:induction false} ResolvedExactly(parse: Parser, content: string, options: Options)
    ensures
      var well := LastChecks(parse, options, content);
      Normalize(parse, content, options).resolved <==>
        exists k, d :: Reaches(parse, FixerFor(options), Submitted(content), 12, well, k, d)
  {
    NormalizedIs(parse, content, options);
    EndsExactly(parse, FixerFor(options), Submitted(content), MAX_FIX_ITERATIONS, LastChecks(parse, options, content));
  }

  lemma {:induction false} NormalizedIs(parse: Parser, content: string, options: Options)
    ensures
      var r := Rounds(parse, FixerFor(options), Submitted(content), "", MAX_FIX_ITERATIONS).0;
      Normalize(parse, content, options).resolved <==> r.Some? && LastChecks(parse, options, content)(r.value)
  {
  }

  // ---------------------------------------------------------------------
  // What is recorded

  function JoinedKeys(keys: seq<string>): string {
    if keys == [] then "" else if |keys| == 1 then keys[0] else keys[0] + ", " + JoinedKeys(keys[1..])
  }

  function KeysOf(actions: seq<Action>): (keys: seq<string>)
    ensures |keys| == |actions| && forall k :: 0 <= k < |keys| ==> keys[k] == actions[k].Key()
  {
    seq(|actions|, k requires 0 <= k < |actions| => actions[k].Key())
  }

  lemma {:induction false} JoinedIs(actions: seq<Action>)
    ensures JoinActions(actions) == JoinedKeys(KeysOf(actions))
  {
    if |actions| > 1 {
      JoinedIs(actions[1..]);
      assert KeysOf(actions)[1..] == KeysOf(actions[1..]);
    }
  }

  lemma {:induction false} KeyIsJoined(keys: seq<string>, k: nat)
    requires k < |keys|
    ensures Contains(JoinedKeys(keys), keys[k])
  {
    if |keys| == 1 {
      ContainsPart("", keys[0], "");
      assert "" + keys[0] + "" == keys[0];
    } else if k == 0 {
      ContainsPart("", keys[0], ", " + JoinedKeys(keys[1..]));
      assert "" + keys[0] + (", " + JoinedKeys(keys[1..])) == keys[0] + ", " + JoinedKeys(keys[1..]);
    } else {
      KeyIsJoined(keys[1..], k - 1);
      ContainsWider(keys[0] + ", ", JoinedKeys(keys[1..]), "", keys[k]);
      assert keys[0] + ", " + JoinedKeys(keys[1..]) + "" == JoinedKeys(keys);
    }
  }

  /** A repair of a text with a Metadata section adds one line to it, the provenance with
      the date and the key of every action that was taken. */
  lemma {:induction false} ProvenanceRecords(content: string, actions: seq<Action>, date: string)
    returns (at: nat, keys: string)
    requires actions != [] && FindMetadataHeading(SplitLines(content), 0) < |SplitLines(content)|
    ensures
      var lines := SplitLines(content);
      at <= |lines| &&
      AddProvenance(content, actions, date) ==
        JoinLines(lines[..at] + ["- **" + "Repaired" + ":** " + (date + " spec-normalizer: " + keys)] + lines[at..])
    ensures forall a :: a in actions ==> Contains(keys, a.Key())
  {
    at, keys := MetadataInsertIndex(SplitLines(content)), JoinActions(actions);
    JoinedIs(actions);
    forall a | a in actions ensures Contains(keys, a.Key()) {
      var k :| 0 <= k < |actions| && actions[k] == a;
      KeyIsJoined(KeysOf(actions), k);
    }
  }

  lemma {:induction false} ShortKeys()
    ensures |H1Inserted.Key()| == 11 && |H1SeparatorFixed.Key()| == 18 && |MetadataSectionInserted.Key()| == 25
    ensures |PriorityExtracted.Key()| == 18 && |PriorityDefaulted.Key()| == 18 && |EffortDefaulted.Key()| == 16
    ensures |StatusDefaulted.Key()| == 16 && |StatusNormalized.Key()| == 17
    ensures H1SeparatorFixed.Key()[0] == 'h' && PriorityExtracted.Key()[0] == 'p' == PriorityDefaulted.Key()[0]
    ensures PriorityExtracted.Key()[9] == 'e' && PriorityDefaulted.Key()[9] == 'd'
    ensures EffortDefaulted.Key()[0] == 'e' && StatusDefaulted.Key()[0] == 's'
  {
  }

  lemma {:induction false} LongKeys()
    ensures |ProblemStatementPlaceholder.Key()| == 29 && |SuccessCriteriaPlaceholder.Key()| == 28
    ensures |TestingRequirementsPlaceholder.Key()| == 32
  {
  }

  /** The recorded keys tell the actions apart. */
  lemma {:induction false} KeysTellActions(a: Action, b: Action)
    ensures a.Key() == b.Key() <==> a == b
  {
    ShortKeys();
    LongKeys();
  }
}
