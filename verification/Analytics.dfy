/** Run statistics: updated run by run, or rebuilt from all runs at once. */
module Analytics {

  datatype Outcome = Approved | Rejected | Error

  datatype Run = Run(outcome: Outcome, tags: seq<string>, files: seq<string>, filesToModify: nat, criteria: nat,
                     gateScore: real, themes: seq<string>)

  datatype Stats = Stats(runs: nat, approved: nat, rejected: nat, rate: real)

  datatype Theme = Theme(theme: string, count: nat)

  datatype Totals = Totals(runs: nat, approved: nat, rejected: nat, errors: nat)

  datatype Db = Db(totals: Totals, byTag: map<string, Stats>, byFile: map<string, Stats>,
                   byComplexity: map<string, Stats>, byGateScore: map<string, Stats>, themes: seq<Theme>)

  // ---------------------------------------------------------------------
  // Buckets

  function ClassifyComplexity(filesToModify: nat, criteria: nat): string {
    if filesToModify <= 2 && criteria <= 5 then "simple"
    else if filesToModify <= 5 && criteria <= 10 then "medium"
    else "complex"
  }

  function ClassifyGateScore(score: real): string {
    if score < 3.0 then "<3.0"
    else if score < 3.5 then "3.0-3.5"
    else if score < 4.0 then "3.5-4.0"
    else if score < 4.5 then "4.0-4.5"
    else "4.5+"
  }

  // The keys under which a run is counted.

  type Keys = Run -> seq<string>

  function TagsOf(r: Run): seq<string> { r.tags }

  function FilesOf(r: Run): seq<string> { r.files }

  function ComplexityOf(r: Run): seq<string> { [ClassifyComplexity(r.filesToModify, r.criteria)] }

  function GateOf(r: Run): seq<string> { [ClassifyGateScore(r.gateScore)] }

  function ThemesOf(r: Run): seq<string> { r.themes }

  // ---------------------------------------------------------------------
  // One run

  const NO_RUNS := Stats(0, 0, 0, 0.0)

  function StatsFor(m: map<string, Stats>, key: string): Stats {
    if key in m then m[key] else NO_RUNS
  }

  function Counted(s: Stats, outcome: Outcome): Stats {
    var approved := if outcome == Approved then s.approved + 1 else s.approved;
    Stats(s.runs + 1, approved, if outcome == Rejected then s.rejected + 1 else s.rejected,
          approved as real / (s.runs + 1) as real)
  }

  function Count(m: map<string, Stats>, key: string, outcome: Outcome): map<string, Stats> {
    m[key := Counted(StatsFor(m, key), outcome)]
  }

  function CountAll(m: map<string, Stats>, keys: seq<string>, outcome: Outcome, n: nat): map<string, Stats>
    requires n <= |keys|
  {
    if n == 0 then m else Count(CountAll(m, keys, outcome, n - 1), keys[n - 1], outcome)
  }

  /** Where a theme is in the list, or the length. */
  function FindTheme(s: seq<Theme>, theme: string, i: nat): (k: nat)
    requires i <= |s|
    ensures i <= k <= |s| && (k < |s| ==> s[k].theme == theme)
    decreases |s| - i
  {
    if i == |s| || s[i].theme == theme then i else FindTheme(s, theme, i + 1)
  }

  function AddTheme(s: seq<Theme>, theme: string): seq<Theme> {
    var k := FindTheme(s, theme, 0);
    if k < |s| then s[k := Theme(theme, s[k].count + 1)] else s + [Theme(theme, 1)]
  }

  function AddThemes(s: seq<Theme>, themes: seq<string>, n: nat): seq<Theme>
    requires n <= |themes|
  {
    if n == 0 then s else AddTheme(AddThemes(s, themes, n - 1), themes[n - 1])
  }

  function AddTotals(t: Totals, outcome: Outcome): Totals {
    match outcome
    case Approved => t.(runs := t.runs + 1, approved := t.approved + 1)
    case Rejected => t.(runs := t.runs + 1, rejected := t.rejected + 1)
    case Error => t.(runs := t.runs + 1, errors := t.errors + 1)
  }

  function Record(db: Db, r: Run): Db {
    Db(AddTotals(db.totals, r.outcome),
       CountAll(db.byTag, r.tags, r.outcome, |r.tags|),
       CountAll(db.byFile, r.files, r.outcome, |r.files|),
       Count(db.byComplexity, ClassifyComplexity(r.filesToModify, r.criteria), r.outcome),
       Count(db.byGateScore, ClassifyGateScore(r.gateScore), r.outcome),
       AddThemes(db.themes, r.themes, |r.themes|))
  }

  const EMPTY := Db(Totals(0, 0, 0, 0), map[], map[],
                    map["simple" := NO_RUNS, "medium" := NO_RUNS, "complex" := NO_RUNS], map[], [])

  /** Where a theme with this count goes: before the first with a smaller one. */
  function Place(s: seq<Theme>, count: nat, i: nat): (p: nat)
    requires i <= |s|
    ensures i <= p <= |s| && (p < |s| ==> s[p].count < count)
    decreases |s| - i
  {
    if i == |s| || s[i].count < count then i else Place(s, count, i + 1)
  }

  function InsertTheme(t: Theme, s: seq<Theme>): seq<Theme> {
    var p := Place(s, t.count, 0);
    s[..p] + [t] + s[p..]
  }

  /** A stable sort by falling counts. */
  function SortedThemes(s: seq<Theme>, n: nat): seq<Theme>
    requires n <= |s|
  {
    if n == 0 then [] else InsertTheme(s[n - 1], SortedThemes(s, n - 1))
  }

  function SortThemes(s: seq<Theme>): seq<Theme> {
    SortedThemes(s, |s|)
  }

  function Update(db: Db, r: Run): Db {
    var recorded := Record(db, r);
    recorded.(themes := SortThemes(recorded.themes))
  }

  /** The database after the first `n` runs. */
  function Replay(step: (Db, Run) -> Db, runs: seq<Run>, n: nat): Db
    requires n <= |runs|
  {
    if n == 0 then EMPTY else step(Replay(step, runs, n - 1), runs[n - 1])
  }

  /** Rebuilding sorts the themes once, at the end. */
  function Rebuilt(runs: seq<Run>): Db {
    var db := Replay(Record, runs, |runs|);
    db.(themes := SortThemes(db.themes))
  }

  /** Updating run by run sorts them every time. */
  function Updated(runs: seq<Run>): Db {
    Replay(Update, runs, |runs|)
  }

  // ---------------------------------------------------------------------
  // The database as it is kept

  class PatternDb {
    var totals: Totals
    var byTag: map<string, Stats>
    var byFile: map<string, Stats>
    var byComplexity: map<string, Stats>
    var byGateScore: map<string, Stats>
    var themes: seq<Theme>

    function Value(): Db
      reads this
    {
      Db(totals, byTag, byFile, byComplexity, byGateScore, themes)
    }

    constructor ()
      ensures Value() == EMPTY
    {
      totals := EMPTY.totals;
      byTag, byFile, byComplexity, byGateScore := map[], map[], EMPTY.byComplexity, map[];
      themes := [];
    }

    method RecordRun(r: Run)
      modifies this
      ensures Value() == Record(old(Value()), r)
    {
      totals := totals.(runs := totals.runs + 1);
      if r.outcome == Approved {
        totals := totals.(approved := totals.approved + 1);
      } else if r.outcome == Rejected {
        totals := totals.(rejected := totals.rejected + 1);
      } else {
        totals := totals.(errors := totals.errors + 1);
      }
      for i := 0 to |r.tags|
        invariant byTag == CountAll(old(byTag), r.tags, r.outcome, i)
        invariant byFile == old(byFile) && byComplexity == old(byComplexity) && byGateScore == old(byGateScore)
        invariant themes == old(themes) && totals == AddTotals(old(totals), r.outcome)
      {
        byTag := Count(byTag, r.tags[i], r.outcome);
      }
      for i := 0 to |r.files|
        invariant byFile == CountAll(old(byFile), r.files, r.outcome, i)
        invariant byTag == CountAll(old(byTag), r.tags, r.outcome, |r.tags|)
        invariant byComplexity == old(byComplexity) && byGateScore == old(byGateScore)
        invariant themes == old(themes) && totals == AddTotals(old(totals), r.outcome)
      {
        byFile := Count(byFile, r.files[i], r.outcome);
      }
      byComplexity := Count(byComplexity, ClassifyComplexity(r.filesToModify, r.criteria), r.outcome);
      byGateScore := Count(byGateScore, ClassifyGateScore(r.gateScore), r.outcome);
      CountThemes(r.themes);
    }

    method CountThemes(found: seq<string>)
      modifies this`themes
      ensures themes == AddThemes(old(themes), found, |found|)
    {
      for i := 0 to |found|
        invariant themes == AddThemes(old(themes), found, i)
      {
        var k := 0;
        while k < |themes| && themes[k].theme != found[i]
          invariant k <= |themes| && FindTheme(themes, found[i], 0) == FindTheme(themes, found[i], k)
          decreases |themes| - k
        {
          k := k + 1;
        }
        if k < |themes| {
          themes := themes[k := Theme(found[i], themes[k].count + 1)];
        } else {
          themes := themes + [Theme(found[i], 1)];
        }
      }
    }

    method UpdateAnalytics(r: Run)
      modifies this
      ensures Value() == Update(old(Value()), r)
    {
      RecordRun(r);
      themes := SortThemes(themes);
    }
  }

  method RebuildAnalyticsDb(runs: seq<Run>) returns (db: PatternDb)
    ensures fresh(db) && db.Value() == Rebuilt(runs)
  {
    db := new PatternDb();
    for i := 0 to |runs|
      invariant fresh(db) && db.Value() == Replay(Record, runs, i)
    {
      db.RecordRun(runs[i]);
    }
    db.themes := SortThemes(db.themes);
  }

  // ---------------------------------------------------------------------
  // What the counts mean

  function Occurrences(keys: seq<string>, key: string, n: nat): nat
    requires n <= |keys|
  {
    if n == 0 then 0 else Occurrences(keys, key, n - 1) + if keys[n - 1] == key then 1 else 0
  }

  /** How often a key occurs in the first `n` runs with an outcome. */
  function Occurring(keysOf: Keys, runs: seq<Run>, n: nat, key: string, outcomes: set<Outcome>): nat
    requires n <= |runs|
  {
    if n == 0 then 0
    else
      var r := runs[n - 1];
      Occurring(keysOf, runs, n - 1, key, outcomes) +
      if r.outcome in outcomes then Occurrences(keysOf(r), key, |keysOf(r)|) else 0
  }

  const ANY := {Approved, Rejected, Error}

  function Rate(approved: nat, runs: nat): real {
    if runs == 0 then 0.0 else approved as real / runs as real
  }

  /** The statistics of a key after the first `n` runs. */
  function Tally(keysOf: Keys, runs: seq<Run>, n: nat, key: string): Stats
    requires n <= |runs|
  {
    var all, approved := Occurring(keysOf, runs, n, key, ANY), Occurring(keysOf, runs, n, key, {Approved});
    Stats(all, approved, Occurring(keysOf, runs, n, key, {Rejected}), Rate(approved, all))
  }

  function Plus(s: Stats, k: nat, outcome: Outcome): Stats {
    var approved := if outcome == Approved then s.approved + k else s.approved;
    Stats(s.runs + k, approved, if outcome == Rejected then s.rejected + k else s.rejected, Rate(approved, s.runs + k))
  }

  lemma {:induction false} CountAllOfKey(m: map<string, Stats>, keys: seq<string>, outcome: Outcome, n: nat,
                                         key: string)
    requires n <= |keys| && StatsFor(m, key).rate == Rate(StatsFor(m, key).approved, StatsFor(m, key).runs)
    ensures StatsFor(CountAll(m, keys, outcome, n), key) == Plus(StatsFor(m, key), Occurrences(keys, key, n), outcome)
  {
    if n > 0 {
      CountAllOfKey(m, keys, outcome, n - 1, key);
    }
  }

  lemma {:induction false} CountOne(m: map<string, Stats>, key: string, outcome: Outcome)
    ensures Count(m, key, outcome) == CountAll(m, [key], outcome, 1)
  {
    assert CountAll(m, [key], outcome, 0) == m;
  }

  /** One more run, counted under its keys. */
  lemma {:induction false} TallyStep(keysOf: Keys, runs: seq<Run>, n: nat, m: map<string, Stats>, key: string)
    requires 0 < n <= |runs| && StatsFor(m, key) == Tally(keysOf, runs, n - 1, key)
    ensures var r := runs[n - 1];
            StatsFor(CountAll(m, keysOf(r), r.outcome, |keysOf(r)|), key) == Tally(keysOf, runs, n, key)
  {
    var r := runs[n - 1];
    CountAllOfKey(m, keysOf(r), r.outcome, |keysOf(r)|, key);
  }

  /** The statistics under one kind of keys. */
  function CountedBy(keysOf: Keys, none: map<string, Stats>, runs: seq<Run>, n: nat): map<string, Stats>
    requires n <= |runs|
  {
    if n == 0 then none
    else
      var r := runs[n - 1];
      CountAll(CountedBy(keysOf, none, runs, n - 1), keysOf(r), r.outcome, |keysOf(r)|)
  }

  lemma {:induction false} CountedTallies(keysOf: Keys, none: map<string, Stats>, runs: seq<Run>, n: nat, key: string)
    requires n <= |runs| && StatsFor(none, key) == NO_RUNS
    ensures StatsFor(CountedBy(keysOf, none, runs, n), key) == Tally(keysOf, runs, n, key)
  {
    if n > 0 {
      CountedTallies(keysOf, none, runs, n - 1, key);
      TallyStep(keysOf, runs, n, CountedBy(keysOf, none, runs, n - 1), key);
    }
  }

  function TotalsOf(runs: seq<Run>, n: nat): Totals
    requires n <= |runs|
  {
    if n == 0 then EMPTY.totals else AddTotals(TotalsOf(runs, n - 1), runs[n - 1].outcome)
  }

  /** The database after `n` runs, part by part. */
  function ByParts(runs: seq<Run>, n: nat, themes: seq<Theme>): Db
    requires n <= |runs|
  {
    Db(TotalsOf(runs, n), CountedBy(TagsOf, map[], runs, n), CountedBy(FilesOf, map[], runs, n),
       CountedBy(ComplexityOf, EMPTY.byComplexity, runs, n), CountedBy(GateOf, map[], runs, n), themes)
  }

  lemma {:induction false} RecordByParts(runs: seq<Run>, n: nat, themes: seq<Theme>)
    requires 0 < n <= |runs|
    ensures var r := runs[n - 1];
            Record(ByParts(runs, n - 1, themes), r) == ByParts(runs, n, AddThemes(themes, r.themes, |r.themes|))
  {
    var r, db := runs[n - 1], ByParts(runs, n - 1, themes);
    CountOne(db.byComplexity, ClassifyComplexity(r.filesToModify, r.criteria), r.outcome);
    CountOne(db.byGateScore, ClassifyGateScore(r.gateScore), r.outcome);
  }

  /** A replay is any series of states that begins empty and goes step by step. */
  lemma {:induction false} ReplayIs(step: (Db, Run) -> Db, runs: seq<Run>, at: nat -> Db, n: nat)
    requires n <= |runs| && at(0) == EMPTY
    requires forall k: nat :: k < |runs| ==> at(k + 1) == step(at(k), runs[k])
    ensures Replay(step, runs, n) == at(n)
  {
    if n > 0 {
      ReplayIs(step, runs, at, n - 1);
      assert at(n - 1 + 1) == step(at(n - 1), runs[n - 1]);
    }
  }

  function AddedAt(runs: seq<Run>, k: nat): Db {
    if k <= |runs| then ByParts(runs, k, ThemesAdded(runs, k)) else EMPTY
  }

  function SortedAt(runs: seq<Run>, k: nat): Db {
    if k <= |runs| then ByParts(runs, k, ThemesSorted(runs, k)) else EMPTY
  }

  lemma {:induction false} AddedAtStep(runs: seq<Run>, k: nat)
    requires k < |runs|
    ensures AddedAt(runs, k + 1) == Record(AddedAt(runs, k), runs[k])
  {
    RecordByParts(runs, k + 1, ThemesAdded(runs, k));
  }

  lemma {:induction false} SortedAtStep(runs: seq<Run>, k: nat)
    requires k < |runs|
    ensures SortedAt(runs, k + 1) == Update(SortedAt(runs, k), runs[k])
  {
    RecordByParts(runs, k + 1, ThemesSorted(runs, k));
  }

  lemma {:induction false} RecordedParts(runs: seq<Run>)
    ensures Replay(Record, runs, |runs|) == ByParts(runs, |runs|, ThemesAdded(runs, |runs|))
  {
    var at := (k: nat) => AddedAt(runs, k);
    forall k: nat | k < |runs| ensures at(k + 1) == Record(at(k), runs[k]) {
      AddedAtStep(runs, k);
    }
    ReplayIs(Record, runs, at, |runs|);
  }

  lemma {:induction false} UpdatedParts(runs: seq<Run>)
    ensures Updated(runs) == ByParts(runs, |runs|, ThemesSorted(runs, |runs|))
  {
    var at := (k: nat) => SortedAt(runs, k);
    forall k: nat | k < |runs| ensures at(k + 1) == Update(at(k), runs[k]) {
      SortedAtStep(runs, k);
    }
    ReplayIs(Update, runs, at, |runs|);
  }

  /** After any runs, every statistic is the tally of the runs. */
  lemma {:induction false} RecordedTallies(runs: seq<Run>, key: string)
    ensures var db := Rebuilt(runs);
            && StatsFor(db.byTag, key) == Tally(TagsOf, runs, |runs|, key)
            && StatsFor(db.byFile, key) == Tally(FilesOf, runs, |runs|, key)
            && StatsFor(db.byComplexity, key) == Tally(ComplexityOf, runs, |runs|, key)
            && StatsFor(db.byGateScore, key) == Tally(GateOf, runs, |runs|, key)
  {
    RecordedParts(runs);
    CountedTallies(TagsOf, map[], runs, |runs|, key);
    CountedTallies(FilesOf, map[], runs, |runs|, key);
    CountedTallies(ComplexityOf, EMPTY.byComplexity, runs, |runs|, key);
    CountedTallies(GateOf, map[], runs, |runs|, key);
  }

  /** The themes, sorted never or after every run. */
  function ThemesAdded(runs: seq<Run>, n: nat): seq<Theme>
    requires n <= |runs|
  {
    if n == 0 then [] else AddThemes(ThemesAdded(runs, n - 1), runs[n - 1].themes, |runs[n - 1].themes|)
  }

  function ThemesSorted(runs: seq<Run>, n: nat): seq<Theme>
    requires n <= |runs|
  {
    if n == 0 then []
    else SortThemes(AddThemes(ThemesSorted(runs, n - 1), runs[n - 1].themes, |runs[n - 1].themes|))
  }

  // ---------------------------------------------------------------------
  // Themes

  function ThemeCountIn(s: seq<Theme>, theme: string, n: nat): nat
    requires n <= |s|
  {
    if n == 0 then 0 else ThemeCountIn(s, theme, n - 1) + if s[n - 1].theme == theme then s[n - 1].count else 0
  }

  /** How often a theme is counted in a list. */
  function ThemeCount(s: seq<Theme>, theme: string): nat {
    ThemeCountIn(s, theme, |s|)
  }

  lemma {:induction false} CountInFirst(a: seq<Theme>, b: seq<Theme>, theme: string, n: nat)
    requires n <= |a|
    ensures ThemeCountIn(a + b, theme, n) == ThemeCountIn(a, theme, n)
  {
    if n > 0 {
      CountInFirst(a, b, theme, n - 1);
    }
  }

  lemma {:induction false} CountInBoth(a: seq<Theme>, b: seq<Theme>, theme: string, n: nat)
    requires n <= |b|
    ensures ThemeCountIn(a + b, theme, |a| + n) == ThemeCount(a, theme) + ThemeCountIn(b, theme, n)
  {
    if n == 0 {
      CountInFirst(a, b, theme, |a|);
    } else {
      CountInBoth(a, b, theme, n - 1);
      assert (a + b)[|a| + n - 1] == b[n - 1];
    }
  }

  lemma {:induction false} ThemeCountAppend(a: seq<Theme>, b: seq<Theme>, theme: string)
    ensures ThemeCount(a + b, theme) == ThemeCount(a, theme) + ThemeCount(b, theme)
  {
    CountInBoth(a, b, theme, |b|);
  }

  lemma {:induction false} AddThemeCounts(s: seq<Theme>, added: string, theme: string)
    ensures ThemeCount(AddTheme(s, added), theme) == ThemeCount(s, theme) + if added == theme then 1 else 0
  {
    var k := FindTheme(s, added, 0);
    if k < |s| {
      var x := Theme(added, s[k].count + 1);
      assert s == s[..k] + [s[k]] + s[k + 1..];
      assert s[k := x] == s[..k] + [x] + s[k + 1..];
      ThreeParts(s[..k], s[k], s[k + 1..], theme);
      ThreeParts(s[..k], x, s[k + 1..], theme);
    } else {
      ThemeCountAppend(s, [Theme(added, 1)], theme);
      OneTheme(Theme(added, 1), theme);
    }
  }

  lemma {:induction false} OneTheme(x: Theme, theme: string)
    ensures ThemeCount([x], theme) == if x.theme == theme then x.count else 0
  {
    assert ThemeCountIn([x], theme, 0) == 0;
  }

  lemma {:induction false} ThreeParts(a: seq<Theme>, x: Theme, b: seq<Theme>, theme: string)
    ensures ThemeCount(a + [x] + b, theme) ==
            ThemeCount(a, theme) + (if x.theme == theme then x.count else 0) + ThemeCount(b, theme)
  {
    ThemeCountAppend(a + [x], b, theme);
    ThemeCountAppend(a, [x], theme);
    OneTheme(x, theme);
  }

  lemma {:induction false} AddThemesCounts(s: seq<Theme>, themes: seq<string>, n: nat, theme: string)
    requires n <= |themes|
    ensures ThemeCount(AddThemes(s, themes, n), theme) == ThemeCount(s, theme) + Occurrences(themes, theme, n)
  {
    if n > 0 {
      AddThemesCounts(s, themes, n - 1, theme);
      AddThemeCounts(AddThemes(s, themes, n - 1), themes[n - 1], theme);
    }
  }

  lemma {:induction false} InsertCounts(t: Theme, s: seq<Theme>, theme: string)
    ensures ThemeCount(InsertTheme(t, s), theme) == ThemeCount(s, theme) + if t.theme == theme then t.count else 0
  {
    var p := Place(s, t.count, 0);
    ThreeParts(s[..p], t, s[p..], theme);
    ThemeCountAppend(s[..p], s[p..], theme);
    assert s == s[..p] + s[p..];
  }

  lemma {:induction false} SortedCounts(s: seq<Theme>, theme: string, n: nat)
    requires n <= |s|
    ensures ThemeCount(SortedThemes(s, n), theme) == ThemeCountIn(s, theme, n)
  {
    if n == 0 {
      assert ThemeCountIn([], theme, 0) == 0;
    } else {
      SortedCounts(s, theme, n - 1);
      InsertCounts(s[n - 1], SortedThemes(s, n - 1), theme);
    }
  }

  lemma {:induction false} SortCounts(s: seq<Theme>, theme: string)
    ensures ThemeCount(SortThemes(s), theme) == ThemeCount(s, theme)
  {
    SortedCounts(s, theme, |s|);
  }

  predicate Falling(s: seq<Theme>) {
    forall i, j :: 0 <= i < j < |s| ==> s[i].count >= s[j].count
  }

  lemma {:induction false} PlaceIsFirst(s: seq<Theme>, count: nat, i: nat, k: nat)
    requires i <= |s| && i <= k < Place(s, count, i)
    ensures s[k].count >= count
    decreases k - i
  {
    if i < k {
      PlaceIsFirst(s, count, i + 1, k);
    }
  }

  lemma {:induction false} InsertFalls(t: Theme, s: seq<Theme>)
    requires Falling(s)
    ensures Falling(InsertTheme(t, s))
  {
    var p := Place(s, t.count, 0);
    forall k | 0 <= k < p ensures s[k].count >= t.count {
      PlaceIsFirst(s, t.count, 0, k);
    }
    var r := InsertTheme(t, s);
    forall i, j | 0 <= i < j < |r| ensures r[i].count >= r[j].count {
      assert r[i] == (if i < p then s[i] else if i == p then t else s[i - 1]);
      assert r[j] == (if j < p then s[j] else if j == p then t else s[j - 1]);
    }
  }

  lemma {:induction false} SortedFalls(s: seq<Theme>, n: nat)
    requires n <= |s|
    ensures Falling(SortedThemes(s, n))
  {
    if n > 0 {
      SortedFalls(s, n - 1);
      InsertFalls(s[n - 1], SortedThemes(s, n - 1));
    }
  }

  // ---------------------------------------------------------------------
  // Updating and rebuilding agree

  lemma {:induction false} AnyOutcome(outcome: Outcome)
    ensures outcome in ANY
  {
  }

  lemma {:induction false} OneMoreRun(runs: seq<Run>, n: nat, theme: string)
    requires 0 < n <= |runs|
    ensures var r := runs[n - 1];
            Occurring(ThemesOf, runs, n, theme, ANY) ==
            Occurring(ThemesOf, runs, n - 1, theme, ANY) + Occurrences(r.themes, theme, |r.themes|)
  {
    AnyOutcome(runs[n - 1].outcome);
    assert ThemesOf(runs[n - 1]) == runs[n - 1].themes;
  }

  lemma {:induction false} AddedThemes(runs: seq<Run>, n: nat, theme: string)
    requires n <= |runs|
    ensures ThemeCount(ThemesAdded(runs, n), theme) == Occurring(ThemesOf, runs, n, theme, ANY)
  {
    if n > 0 {
      AddedThemes(runs, n - 1, theme);
      OneMoreRun(runs, n, theme);
      AddThemesCounts(ThemesAdded(runs, n - 1), runs[n - 1].themes, |runs[n - 1].themes|, theme);
    }
  }

  lemma {:induction false} AddAndSortCounts(s: seq<Theme>, themes: seq<string>, theme: string)
    ensures ThemeCount(SortThemes(AddThemes(s, themes, |themes|)), theme) ==
            ThemeCount(s, theme) + Occurrences(themes, theme, |themes|)
  {
    AddThemesCounts(s, themes, |themes|, theme);
    SortCounts(AddThemes(s, themes, |themes|), theme);
  }

  lemma {:induction false} SortedThemesCounts(runs: seq<Run>, n: nat, theme: string)
    requires n <= |runs|
    ensures ThemeCount(ThemesSorted(runs, n), theme) == Occurring(ThemesOf, runs, n, theme, ANY)
  {
    if n > 0 {
      SortedThemesCounts(runs, n - 1, theme);
      OneMoreRun(runs, n, theme);
      AddAndSortCounts(ThemesSorted(runs, n - 1), runs[n - 1].themes, theme);
    }
  }

  /** Rebuilding from all runs gives the statistics of updating run by run, and the
      same count for every theme. */
  lemma {:induction false} RebuildingIsUpdating(runs: seq<Run>, theme: string)
    ensures var rebuilt, updated := Rebuilt(runs), Updated(runs);
            && rebuilt.(themes := []) == updated.(themes := [])
            && ThemeCount(rebuilt.themes, theme) == ThemeCount(updated.themes, theme)
            && ThemeCount(rebuilt.themes, theme) == Occurring(ThemesOf, runs, |runs|, theme, ANY)
            && Falling(rebuilt.themes) && Falling(updated.themes)
  {
    var added := ThemesAdded(runs, |runs|);
    RecordedParts(runs);
    UpdatedParts(runs);
    AddedThemes(runs, |runs|, theme);
    SortedThemesCounts(runs, |runs|, theme);
    SortCounts(added, theme);
    SortedFalls(added, |added|);
    UpdatedFalls(runs);
  }

  lemma {:induction false} UpdatedFalls(runs: seq<Run>)
    ensures Falling(ThemesSorted(runs, |runs|))
  {
    if runs != [] {
      var n := |runs|;
      var themes := AddThemes(ThemesSorted(runs, n - 1), runs[n - 1].themes, |runs[n - 1].themes|);
      SortedFalls(themes, |themes|);
    }
  }

  // ---------------------------------------------------------------------
  // Buckets and totals

  lemma {:induction false} TotalsAddUp(runs: seq<Run>, n: nat)
    requires n <= |runs|
    ensures var t := TotalsOf(runs, n); t.runs == n && t.approved + t.rejected + t.errors == n
  {
    if n > 0 {
      TotalsAddUp(runs, n - 1);
    }
  }

  lemma {:induction false} OneKey(keys: seq<string>, key: string)
    requires |keys| == 1
    ensures Occurrences(keys, key, 1) == if keys[0] == key then 1 else 0
  {
    assert Occurrences(keys, key, 0) == 0;
  }

  lemma {:induction false} OccurringStep(keysOf: Keys, runs: seq<Run>, n: nat, key: string)
    requires 0 < n <= |runs| && |keysOf(runs[n - 1])| == 1
    ensures Occurring(keysOf, runs, n, key, ANY) ==
            Occurring(keysOf, runs, n - 1, key, ANY) + if keysOf(runs[n - 1])[0] == key then 1 else 0
  {
    AnyOutcome(runs[n - 1].outcome);
    OneKey(keysOf(runs[n - 1]), key);
  }

  /** The bucket names are different. */
  lemma {:induction false} BucketNames()
    ensures "3.0-3.5" != "3.5-4.0" && "3.5-4.0" != "4.0-4.5" && "4.0-4.5" != "3.0-3.5" && "<3.0" != "4.5+"
    ensures "simple" != "medium"
  {
    assert "3.0-3.5"[2] == '0' && "3.5-4.0"[2] == '5' && "3.5-4.0"[0] == '3' && "4.0-4.5"[0] == '4';
    assert "3.0-3.5"[0] == '3' && "<3.0"[0] == '<' && "4.5+"[0] == '4' && "simple"[0] == 's' && "medium"[0] == 'm';
  }

  lemma {:induction false} ComplexityAddsUp(runs: seq<Run>, n: nat)
    requires n <= |runs|
    ensures Occurring(ComplexityOf, runs, n, "simple", ANY) + Occurring(ComplexityOf, runs, n, "medium", ANY) +
            Occurring(ComplexityOf, runs, n, "complex", ANY) == n
  {
    if n > 0 {
      BucketNames();
      ComplexityAddsUp(runs, n - 1);
      OccurringStep(ComplexityOf, runs, n, "simple");
      OccurringStep(ComplexityOf, runs, n, "medium");
      OccurringStep(ComplexityOf, runs, n, "complex");
    }
  }

  lemma {:induction false} GateScoresAddUp(runs: seq<Run>, n: nat)
    requires n <= |runs|
    ensures Occurring(GateOf, runs, n, "<3.0", ANY) + Occurring(GateOf, runs, n, "3.0-3.5", ANY) +
            Occurring(GateOf, runs, n, "3.5-4.0", ANY) + Occurring(GateOf, runs, n, "4.0-4.5", ANY) +
            Occurring(GateOf, runs, n, "4.5+", ANY) == n
  {
    if n > 0 {
      BucketNames();
      GateScoresAddUp(runs, n - 1);
      OccurringStep(GateOf, runs, n, "<3.0");
      OccurringStep(GateOf, runs, n, "3.0-3.5");
      OccurringStep(GateOf, runs, n, "3.5-4.0");
      OccurringStep(GateOf, runs, n, "4.0-4.5");
      OccurringStep(GateOf, runs, n, "4.5+");
    }
  }

  /** Where the buckets begin and end. */
  lemma {:induction false} BucketsExactly(files: nat, criteria: nat, score: real)
    ensures ClassifyComplexity(files, criteria) == "simple" <==> files < 3 && criteria < 6
    ensures ClassifyComplexity(files, criteria) == "complex" <==> files > 5 || criteria > 10
    ensures ClassifyComplexity(files, criteria) in {"simple", "medium", "complex"}
    ensures ClassifyGateScore(score) == "<3.0" <==> score < 3.0
    ensures ClassifyGateScore(score) == "3.0-3.5" <==> 3.0 <= score < 3.5
    ensures ClassifyGateScore(score) == "3.5-4.0" <==> 3.5 <= score < 4.0
    ensures ClassifyGateScore(score) == "4.0-4.5" <==> 4.0 <= score < 4.5
    ensures ClassifyGateScore(score) == "4.5+" <==> score >= 4.5
  {
    BucketNames();
  }

  /** After any runs, outcomes, complexity buckets and gate buckets each add up to
      the number of runs. */
  lemma {:induction false} BucketsAddUp(runs: seq<Run>)
    ensures var db := Rebuilt(runs);
            && db.totals.runs == |runs| == db.totals.approved + db.totals.rejected + db.totals.errors
            && StatsFor(db.byComplexity, "simple").runs + StatsFor(db.byComplexity, "medium").runs +
               StatsFor(db.byComplexity, "complex").runs == |runs|
            && StatsFor(db.byGateScore, "<3.0").runs + StatsFor(db.byGateScore, "3.0-3.5").runs +
               StatsFor(db.byGateScore, "3.5-4.0").runs + StatsFor(db.byGateScore, "4.0-4.5").runs +
               StatsFor(db.byGateScore, "4.5+").runs == |runs|
  {
    TotalsAddUp(runs, |runs|);
    RecordedParts(runs);
    ComplexityAddsUp(runs, |runs|);
    GateScoresAddUp(runs, |runs|);
    RecordedTallies(runs, "simple");
    RecordedTallies(runs, "medium");
    RecordedTallies(runs, "complex");
    RecordedTallies(runs, "<3.0");
    RecordedTallies(runs, "3.0-3.5");
    RecordedTallies(runs, "3.5-4.0");
    RecordedTallies(runs, "4.0-4.5");
    RecordedTallies(runs, "4.5+");
  }
}
