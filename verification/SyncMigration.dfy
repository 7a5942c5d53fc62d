/** The GitHub sync-map migration: eight rules that rewrite entries keyed by file
    name to the task ids the files declare. */
module SyncMigration {
  import opened Base
  import opened Claimants
  import opened Alignment
  import opened StableSort

  /** A map entry; what the rules do not look at is kept as one field. */
  datatype SyncEntry = SyncEntry(taskId: string, issueNumber: int, details: string)

  /** The task files, and the order in which names are listed. */
  datatype Inventory = Inventory(declarations: seq<Declaration>, basenames: set<string>, order: Order)

  datatype Action =
    | RawDuplicate(entry: SyncEntry)
    | Rewritten(toTaskId: string, entry: SyncEntry)
    | MergedRedundant(targetTaskId: string, entry: SyncEntry)

  datatype Unresolved =
    | ContestedTarget(targetTaskId: string, claimants: seq<string>, entry: SyncEntry)
    | IssueConflict(targetTaskId: string, targetIssueNumber: int, entry: SyncEntry)
    | UnresolvableCurrent(entry: SyncEntry)
    | Orphan(entry: SyncEntry)

  /** What the rules make of one surviving entry. */
  datatype Decision =
    | Keep
    | KeepUnresolved(problem: Unresolved)
    | Rewrite(toTaskId: string)
    | Merge(targetTaskId: string)

  // ---------------------------------------------------------------------
  // Lookups

  /** The id declared by a file; the last declaration counts. */
  function DeclaredBy(declarations: seq<Declaration>, fileName: string): Option<string> {
    if declarations == [] then None
    else
      var last := declarations[|declarations| - 1];
      if last.fileName == fileName then Some(last.declaredId)
      else DeclaredBy(declarations[..|declarations| - 1], fileName)
  }

  /** The id declared by the file an entry is named after. */
  function Resolved(inv: Inventory, e: SyncEntry): Option<string> {
    match DeclaredBy(inv.declarations, e.taskId + ".md")
    case Some(id) => if id == "" then None else Some(id)
    case None => None
  }

  /** The entry with this id; the last one counts. */
  function Lookup(entries: seq<SyncEntry>, id: string): Option<SyncEntry> {
    if entries == [] then None
    else if entries[|entries| - 1].taskId == id then Some(entries[|entries| - 1])
    else Lookup(entries[..|entries| - 1], id)
  }

  predicate IsContested(inv: Inventory, id: string) {
    Contested(inv.declarations, id)
  }

  function ContestedId(inv: Inventory, e: SyncEntry): Option<string> {
    if IsContested(inv, e.taskId) then Some(e.taskId)
    else
      match Resolved(inv, e)
      case Some(id) => if IsContested(inv, id) then Some(id) else None
      case None => None
  }

  // ---------------------------------------------------------------------
  // The rules

  function Decide(inv: Inventory, survivors: seq<SyncEntry>, e: SyncEntry): Decision {
    match ContestedId(inv, e)
    case Some(id) =>
      KeepUnresolved(ContestedTarget(id, SortedClaimants(inv.order, inv.declarations, id), e))
    case None =>
      if Declares(inv.declarations, e.taskId) then Keep
      else
        match Resolved(inv, e)
        case Some(id) =>
          (match Lookup(survivors, id)
           case None => Rewrite(id)
           case Some(target) =>
             if target.issueNumber == e.issueNumber then Merge(id)
             else KeepUnresolved(IssueConflict(id, target.issueNumber, e)))
        case None =>
          if e.taskId + ".md" in inv.basenames then KeepUnresolved(UnresolvableCurrent(e))
          else KeepUnresolved(Orphan(e))
  }

  /** No later entry has the same id. */
  predicate IsLast(entries: seq<SyncEntry>, i: nat)
    requires i < |entries|
  {
    forall j :: i < j < |entries| ==> entries[j].taskId != entries[i].taskId
  }

  /** The last entry of every id among the first `n`. */
  function Survivors(entries: seq<SyncEntry>, n: nat): seq<SyncEntry>
    requires n <= |entries|
  {
    if n == 0 then []
    else if IsLast(entries, n - 1) then Survivors(entries, n - 1) + [entries[n - 1]]
    else Survivors(entries, n - 1)
  }

  function Duplicates(entries: seq<SyncEntry>, n: nat): seq<Action>
    requires n <= |entries|
  {
    if n == 0 then []
    else if IsLast(entries, n - 1) then Duplicates(entries, n - 1)
    else Duplicates(entries, n - 1) + [RawDuplicate(entries[n - 1])]
  }

  function ActionOf(d: Decision, e: SyncEntry): seq<Action> {
    match d
    case Rewrite(id) => [Rewritten(id, e)]
    case Merge(id) => [MergedRedundant(id, e)]
    case _ => []
  }

  function OutputOf(d: Decision, e: SyncEntry): seq<SyncEntry> {
    match d
    case Rewrite(id) => [e.(taskId := id)]
    case Merge(_) => []
    case _ => [e]
  }

  function ProblemOf(d: Decision): seq<Unresolved> {
    if d.KeepUnresolved? then [d.problem] else []
  }

  function DecisionAt(inv: Inventory, survivors: seq<SyncEntry>, i: nat): Decision
    requires i < |survivors|
  {
    Decide(inv, survivors, survivors[i])
  }

  function Decisions(inv: Inventory, survivors: seq<SyncEntry>): (ds: seq<Decision>)
    ensures |ds| == |survivors|
  {
    seq(|survivors|, i requires 0 <= i < |survivors| => DecisionAt(inv, survivors, i))
  }

  /** What decisions make of the first `n` entries of a list. */
  function Actions(s: seq<SyncEntry>, ds: seq<Decision>, n: nat): seq<Action>
    requires n <= |s| == |ds|
  {
    if n == 0 then [] else Actions(s, ds, n - 1) + ActionOf(ds[n - 1], s[n - 1])
  }

  function Outputs(s: seq<SyncEntry>, ds: seq<Decision>, n: nat): seq<SyncEntry>
    requires n <= |s| == |ds|
  {
    if n == 0 then [] else Outputs(s, ds, n - 1) + OutputOf(ds[n - 1], s[n - 1])
  }

  function Problems(ds: seq<Decision>, n: nat): seq<Unresolved>
    requires n <= |ds|
  {
    if n == 0 then [] else Problems(ds, n - 1) + ProblemOf(ds[n - 1])
  }

  datatype Migration = Migration(actions: seq<Action>, unresolved: seq<Unresolved>, entries: seq<SyncEntry>)

  /** What is reported, in the order in which it is done, and the migrated map. */
  function Migrate(inv: Inventory, entries: seq<SyncEntry>): Migration {
    var s := Survivors(entries, |entries|);
    var ds := Decisions(inv, s);
    Migration(Duplicates(entries, |entries|) + Actions(s, ds, |s|), Problems(ds, |s|), Outputs(s, ds, |s|))
  }

  // ---------------------------------------------------------------------
  // The migration as it runs

  predicate LastIndexes(entries: seq<SyncEntry>, n: nat, index: map<string, nat>)
    requires n <= |entries|
  {
    (forall i :: 0 <= i < n ==> entries[i].taskId in index && i <= index[entries[i].taskId]) &&
    (forall id :: id in index ==> index[id] < n && entries[index[id]].taskId == id)
  }

  method IndexLast(entries: seq<SyncEntry>) returns (index: map<string, nat>)
    ensures LastIndexes(entries, |entries|, index)
  {
    index := map[];
    for i := 0 to |entries|
      invariant LastIndexes(entries, i, index)
    {
      index := index[entries[i].taskId := i];
    }
  }

  method SplitSurvivors(entries: seq<SyncEntry>) returns (survivors: seq<SyncEntry>, duplicates: seq<Action>)
    ensures survivors == Survivors(entries, |entries|)
    ensures duplicates == Duplicates(entries, |entries|)
  {
    var lastIndexByTaskId := IndexLast(entries);
    survivors, duplicates := [], [];
    for i := 0 to |entries|
      invariant survivors == Survivors(entries, i)
      invariant duplicates == Duplicates(entries, i)
    {
      assert IsLast(entries, i) <==> lastIndexByTaskId[entries[i].taskId] == i;
      if lastIndexByTaskId[entries[i].taskId] != i {
        duplicates := duplicates + [RawDuplicate(entries[i])];
      } else {
        survivors := survivors + [entries[i]];
      }
    }
  }

  method IndexByTaskId(survivors: seq<SyncEntry>) returns (byId: map<string, SyncEntry>)
    ensures forall id :: Lookup(survivors, id) == if id in byId then Some(byId[id]) else None
  {
    byId := map[];
    for i := 0 to |survivors|
      invariant forall id :: Lookup(survivors[..i], id) == if id in byId then Some(byId[id]) else None
    {
      assert survivors[..i + 1][..i] == survivors[..i];
      byId := byId[survivors[i].taskId := survivors[i]];
    }
    assert survivors[..|survivors|] == survivors;
  }

  method IndexByFile(declarations: seq<Declaration>) returns (byFile: map<string, string>)
    ensures forall f :: DeclaredBy(declarations, f) == if f in byFile then Some(byFile[f]) else None
  {
    byFile := map[];
    for i := 0 to |declarations|
      invariant forall f :: DeclaredBy(declarations[..i], f) == if f in byFile then Some(byFile[f]) else None
    {
      assert declarations[..i + 1][..i] == declarations[..i];
      byFile := byFile[declarations[i].fileName := declarations[i].declaredId];
    }
    assert declarations[..|declarations|] == declarations;
  }

  method FindContestedId(ghost inv: Inventory, contested: map<string, seq<string>>, e: SyncEntry, resolved: string)
    returns (contestedId: Option<string>)
    requires forall id :: id in contested <==> Contested(inv.declarations, id)
    requires Resolved(inv, e) == if resolved == "" then None else Some(resolved)
    ensures contestedId == ContestedId(inv, e)
  {
    if e.taskId in contested {
      return Some(e.taskId);
    }
    if resolved != "" && resolved in contested {
      return Some(resolved);
    }
    return None;
  }

  /** The rules for an entry that no contested id concerns. */
  method DecideUncontested(ghost inv: Inventory, ghost survivors: seq<SyncEntry>, basenames: set<string>,
                           claimants: map<string, seq<string>>, byId: map<string, SyncEntry>, e: SyncEntry,
                           resolved: string)
    returns (d: Decision)
    requires basenames == inv.basenames
    requires Resolved(inv, e) == (if resolved == "" then None else Some(resolved)) && ContestedId(inv, e).None?
    requires forall id :: id in claimants <==> Declares(inv.declarations, id)
    requires forall id :: Lookup(survivors, id) == if id in byId then Some(byId[id]) else None
    ensures d == Decide(inv, survivors, e)
  {
    if e.taskId in claimants {
      return Keep;
    }
    if resolved != "" {
      if resolved !in byId {
        return Rewrite(resolved);
      }
      var target := byId[resolved];
      if target.issueNumber == e.issueNumber {
        return Merge(resolved);
      }
      return KeepUnresolved(IssueConflict(resolved, target.issueNumber, e));
    }
    if e.taskId + ".md" in basenames {
      return KeepUnresolved(UnresolvableCurrent(e));
    }
    return KeepUnresolved(Orphan(e));
  }

  /** The rule cascade for one survivor, over the four indexes. */
  method DecideEntry(ghost inv: Inventory, survivors: seq<SyncEntry>, ghost ds: seq<Decision>, basenames: set<string>,
                     byFile: map<string, string>, contested: map<string, seq<string>>,
                     claimants: map<string, seq<string>>, byId: map<string, SyncEntry>, i: nat)
    returns (d: Decision)
    requires basenames == inv.basenames && ds == Decisions(inv, survivors) && i < |survivors|
    requires forall f :: DeclaredBy(inv.declarations, f) == if f in byFile then Some(byFile[f]) else None
    requires forall id :: id in contested <==> Contested(inv.declarations, id)
    requires forall id :: id in contested ==> contested[id] == SortedClaimants(inv.order, inv.declarations, id)
    requires forall id :: id in claimants <==> Declares(inv.declarations, id)
    requires forall id :: Lookup(survivors, id) == if id in byId then Some(byId[id]) else None
    ensures d == ds[i]
  {
    assert ds[i] == DecisionAt(inv, survivors, i);
    var e := survivors[i];
    var matchingFileName := e.taskId + ".md";
    var resolved := if matchingFileName in byFile then byFile[matchingFileName] else "";
    var contestedId := FindContestedId(inv, contested, e, resolved);
    if contestedId.Some? {
      return KeepUnresolved(ContestedTarget(contestedId.value, contested[contestedId.value], e));
    }
    d := DecideUncontested(inv, survivors, basenames, claimants, byId, e, resolved);
  }

  // The report lists actions and unresolved entries by rule, task id, issue number and
  // the serialized entry, in this order.

  datatype Ranked = Ranked(rule: int, entry: SyncEntry)

  function RankOfAction(action: Action): Ranked {
    match action
    case RawDuplicate(e) => Ranked(1, e)
    case Rewritten(_, e) => Ranked(4, e)
    case MergedRedundant(_, e) => Ranked(5, e)
  }

  function RankOfProblem(problem: Unresolved): Ranked {
    match problem
    case ContestedTarget(_, _, e) => Ranked(2, e)
    case IssueConflict(_, _, e) => Ranked(6, e)
    case UnresolvableCurrent(e) => Ranked(7, e)
    case Orphan(e) => Ranked(8, e)
  }

  predicate RankBefore(order: Order, json: SyncEntry -> string, x: Ranked, y: Ranked) {
    if x.rule != y.rule then x.rule < y.rule
    else if x.entry.taskId != y.entry.taskId then order(x.entry.taskId, y.entry.taskId)
    else if x.entry.issueNumber != y.entry.issueNumber then x.entry.issueNumber < y.entry.issueNumber
    else order(json(x.entry), json(y.entry))
  }

  function ActionsByRank(order: Order, json: SyncEntry -> string): Comparison<Action> {
    (x, y) => RankBefore(order, json, RankOfAction(x), RankOfAction(y))
  }

  function ProblemsByRank(order: Order, json: SyncEntry -> string): Comparison<Unresolved> {
    (x, y) => RankBefore(order, json, RankOfProblem(x), RankOfProblem(y))
  }

  function InReportOrder(order: Order, json: SyncEntry -> string, m: Migration): Migration {
    Migration(SortBy(ActionsByRank(order, json), m.actions), SortBy(ProblemsByRank(order, json), m.unresolved),
              m.entries)
  }

  datatype Outcome = Refused(reason: string) | Migrated(report: Migration)

  /** A scan that fails refuses the migration. */
  method MigrateGitHubSyncMap(scan: Scan, basenames: set<string>, order: Order, json: SyncEntry -> string,
                              entries: seq<SyncEntry>)
    returns (outcome: Outcome)
    ensures scan.Listed? ==>
              var inv := Inventory(scan.declarations, basenames, order);
              outcome == Migrated(InReportOrder(order, json, Migrate(inv, entries)))
    ensures scan.ScanFailed? ==> outcome == Refused("Duplicate claimant scan failed: " + scan.detail)
    ensures scan.NoProducer? ==> outcome.Refused?
  {
    var contested := BuildStrictDuplicateClaimantIndex(order, scan);
    if contested.Unavailable? {
      return Refused(contested.reason);
    }
    var inv := Inventory(scan.declarations, basenames, order);
    var byFile := IndexByFile(inv.declarations);
    var claimants := GroupTaskClaimantsByDeclaredId(inv.declarations);
    var survivors, duplicates := SplitSurvivors(entries);
    var byId := IndexByTaskId(survivors);
    var actions, unresolved, migrated :=
      ApplyRules(inv, survivors, inv.basenames, byFile, contested.files, claimants, byId);
    actions := SortBy(ActionsByRank(order, json), duplicates + actions);
    unresolved := SortBy(ProblemsByRank(order, json), unresolved);
    return Migrated(Migration(actions, unresolved, migrated));
  }

  method ApplyRules(ghost inv: Inventory, survivors: seq<SyncEntry>, basenames: set<string>,
                    byFile: map<string, string>, contested: map<string, seq<string>>,
                    claimants: map<string, seq<string>>, byId: map<string, SyncEntry>)
    returns (actions: seq<Action>, unresolved: seq<Unresolved>, migrated: seq<SyncEntry>)
    requires basenames == inv.basenames
    requires forall f :: DeclaredBy(inv.declarations, f) == if f in byFile then Some(byFile[f]) else None
    requires forall id :: id in contested <==> Contested(inv.declarations, id)
    requires forall id :: id in contested ==> contested[id] == SortedClaimants(inv.order, inv.declarations, id)
    requires forall id :: id in claimants <==> Declares(inv.declarations, id)
    requires forall id :: Lookup(survivors, id) == if id in byId then Some(byId[id]) else None
    ensures actions == Actions(survivors, Decisions(inv, survivors), |survivors|)
    ensures unresolved == Problems(Decisions(inv, survivors), |survivors|)
    ensures migrated == Outputs(survivors, Decisions(inv, survivors), |survivors|)
  {
    ghost var ds := Decisions(inv, survivors);
    actions, unresolved, migrated := [], [], [];
    for i := 0 to |survivors|
      invariant actions == Actions(survivors, ds, i)
      invariant unresolved == Problems(ds, i)
      invariant migrated == Outputs(survivors, ds, i)
    {
      var d := DecideEntry(inv, survivors, ds, basenames, byFile, contested, claimants, byId, i);
      actions := actions + ActionOf(d, survivors[i]);
      unresolved := unresolved + ProblemOf(d);
      migrated := migrated + OutputOf(d, survivors[i]);
    }
  }

  lemma {:induction false} RanksAreOrdered(order: Order, json: SyncEntry -> string, x: Ranked, y: Ranked, z: Ranked)
    requires TotalOrder(order)
    ensures RankBefore(order, json, x, y) || RankBefore(order, json, y, x)
    ensures RankBefore(order, json, x, y) && RankBefore(order, json, y, z) ==> RankBefore(order, json, x, z)
  {
  }

  /** The report lists what was done and what was not, each once, sorted by rank. */
  lemma {:induction false} ReportIsSorted(order: Order, json: SyncEntry -> string, m: Migration)
    requires TotalOrder(order)
    ensures
      var r := InReportOrder(order, json, m);
      && multiset(r.actions) == multiset(m.actions) && multiset(r.unresolved) == multiset(m.unresolved)
      && SortedBy(ActionsByRank(order, json), r.actions) && SortedBy(ProblemsByRank(order, json), r.unresolved)
      && r.entries == m.entries
  {
    var byAction, byProblem := ActionsByRank(order, json), ProblemsByRank(order, json);
    forall x, y, z {
      RanksAreOrdered(order, json, RankOfAction(x), RankOfAction(y), RankOfAction(z));
    }
    forall x, y, z {
      RanksAreOrdered(order, json, RankOfProblem(x), RankOfProblem(y), RankOfProblem(z));
    }
    assert TotalPreorder(byAction) && TotalPreorder(byProblem);
    SortByPermutes(byAction, m.actions);
    SortByPermutes(byProblem, m.unresolved);
    SortBySorts(byAction, m.actions);
    SortBySorts(byProblem, m.unresolved);
  }

  // ---------------------------------------------------------------------
  // Conservation: every raw entry is kept, in order, or accounted for

  function RemovedBy(action: Action): seq<SyncEntry> {
    if action.Rewritten? then [] else [action.entry]
  }

  /** The entries that rules 1 and 5 take out of the map. */
  function Removed(actions: seq<Action>): seq<SyncEntry> {
    if actions == [] then [] else Removed(actions[..|actions| - 1]) + RemovedBy(actions[|actions| - 1])
  }

  /** The entries the outputs come from, in the same order. */
  function Sources(s: seq<SyncEntry>, ds: seq<Decision>, n: nat): seq<SyncEntry>
    requires n <= |s| == |ds|
  {
    if n == 0 then []
    else if ds[n - 1].Merge? then Sources(s, ds, n - 1)
    else Sources(s, ds, n - 1) + [s[n - 1]]
  }

  /** An output is its source, or the source under the id of a rule-4 action. */
  predicate ComesFrom(output: SyncEntry, source: SyncEntry, actions: seq<Action>) {
    output == source || (Rewritten(output.taskId, source) in actions && output == source.(taskId := output.taskId))
  }

  lemma {:induction false} RemovedLast(actions: seq<Action>, action: Action)
    ensures Removed(actions + [action]) == Removed(actions) + RemovedBy(action)
  {
    assert (actions + [action])[..|actions|] == actions;
  }

  lemma {:induction false} RemovedAppend(a: seq<Action>, b: seq<Action>)
    ensures Removed(a + b) == Removed(a) + Removed(b)
  {
    if b == [] {
      assert a + b == a;
    } else {
      var init, last := b[..|b| - 1], b[|b| - 1];
      calc {
        Removed(a + b);
        { assert a + b == (a + init) + [last]; RemovedLast(a + init, last); }
        Removed(a + init) + RemovedBy(last);
        { RemovedAppend(a, init); }
        Removed(a) + Removed(init) + RemovedBy(last);
        Removed(a) + (Removed(init) + RemovedBy(last));
        Removed(a) + Removed(b);
      }
    }
  }

  ghost predicate Accounted(entries: seq<SyncEntry>, kept: seq<SyncEntry>, gone: seq<SyncEntry>) {
    multiset(entries) == multiset(kept) + multiset(gone)
  }

  lemma {:induction false} AccountKept(entries: seq<SyncEntry>, kept: seq<SyncEntry>, gone: seq<SyncEntry>,
                                       e: SyncEntry)
    requires Accounted(entries, kept, gone)
    ensures Accounted(entries + [e], kept + [e], gone)
  {
  }

  lemma {:induction false} AccountGone(entries: seq<SyncEntry>, kept: seq<SyncEntry>, gone: seq<SyncEntry>,
                                       e: SyncEntry)
    requires Accounted(entries, kept, gone)
    ensures Accounted(entries + [e], kept, gone + [e])
  {
  }

  lemma {:induction false} SurvivorOrDuplicate(entries: seq<SyncEntry>, kept: seq<SyncEntry>, actions: seq<Action>,
                                               e: SyncEntry, last: bool)
    requires Accounted(entries, kept, Removed(actions))
    ensures Accounted(entries + [e], if last then kept + [e] else kept,
                      Removed(if last then actions else actions + [RawDuplicate(e)]))
  {
    if last {
      AccountKept(entries, kept, Removed(actions), e);
    } else {
      AccountGone(entries, kept, Removed(actions), e);
      RemovedLast(actions, RawDuplicate(e));
    }
  }

  lemma {:induction false} SurvivorsAndDuplicates(entries: seq<SyncEntry>, n: nat)
    requires n <= |entries|
    ensures Accounted(entries[..n], Survivors(entries, n), Removed(Duplicates(entries, n)))
  {
    if n > 0 {
      SurvivorsAndDuplicates(entries, n - 1);
      assert entries[..n] == entries[..n - 1] + [entries[n - 1]];
      SurvivorOrDuplicate(entries[..n - 1], Survivors(entries, n - 1), Duplicates(entries, n - 1), entries[n - 1],
                          IsLast(entries, n - 1));
    }
  }

  lemma {:induction false} RemovedByDecision(before: seq<Action>, d: Decision, e: SyncEntry)
    ensures Removed(before + ActionOf(d, e)) == if d.Merge? then Removed(before) + [e] else Removed(before)
  {
    if ActionOf(d, e) == [] {
      assert before + ActionOf(d, e) == before;
    } else {
      RemovedLast(before, ActionOf(d, e)[0]);
      assert Removed(before) + [] == Removed(before);
    }
  }

  lemma {:induction false} SourceOrMerge(entries: seq<SyncEntry>, kept: seq<SyncEntry>, actions: seq<Action>,
                                         e: SyncEntry, d: Decision)
    requires Accounted(entries, kept, Removed(actions))
    ensures Accounted(entries + [e], if d.Merge? then kept else kept + [e], Removed(actions + ActionOf(d, e)))
  {
    RemovedByDecision(actions, d, e);
    if d.Merge? {
      AccountGone(entries, kept, Removed(actions), e);
    } else {
      AccountKept(entries, kept, Removed(actions), e);
    }
  }

  lemma {:induction false} SourcesAndMerges(s: seq<SyncEntry>, ds: seq<Decision>, n: nat)
    requires n <= |s| == |ds|
    ensures Accounted(s[..n], Sources(s, ds, n), Removed(Actions(s, ds, n)))
  {
    if n > 0 {
      SourcesAndMerges(s, ds, n - 1);
      assert s[..n] == s[..n - 1] + [s[n - 1]];
      SourceOrMerge(s[..n - 1], Sources(s, ds, n - 1), Actions(s, ds, n - 1), s[n - 1], ds[n - 1]);
    }
  }

  lemma {:induction false} OutputsHaveSources(s: seq<SyncEntry>, ds: seq<Decision>, n: nat)
    requires n <= |s| == |ds|
    ensures |Outputs(s, ds, n)| == |Sources(s, ds, n)|
    ensures forall k :: 0 <= k < |Sources(s, ds, n)| ==>
              ComesFrom(Outputs(s, ds, n)[k], Sources(s, ds, n)[k], Actions(s, ds, n))
  {
    if n > 0 {
      OutputsHaveSources(s, ds, n - 1);
    }
  }

  lemma {:induction false} SourcesInOrder(s: seq<SyncEntry>, ds: seq<Decision>, n: nat)
    requires n <= |s| == |ds|
    ensures Subsequence(Sources(s, ds, n), s[..n])
  {
    if n > 0 {
      var before := Sources(s, ds, n - 1);
      SourcesInOrder(s, ds, n - 1);
      SubsequenceAppend(before, s[..n - 1], s[n - 1]);
      assert s[..n] == s[..n - 1] + [s[n - 1]];
    }
  }

  lemma {:induction false} SurvivorsInOrder(entries: seq<SyncEntry>, n: nat)
    requires n <= |entries|
    ensures Subsequence(Survivors(entries, n), entries[..n])
  {
    if n > 0 {
      var before := Survivors(entries, n - 1);
      SurvivorsInOrder(entries, n - 1);
      SubsequenceAppend(before, entries[..n - 1], entries[n - 1]);
      assert entries[..n] == entries[..n - 1] + [entries[n - 1]];
    }
  }

  /** Every raw entry is either the source of exactly one output, in the order of
      the map, or named by exactly one rule-1 or rule-5 action. */
  lemma {:induction false} NothingIsLost(inv: Inventory, entries: seq<SyncEntry>) returns (sources: seq<SyncEntry>)
    ensures
      var m := Migrate(inv, entries);
      && Subsequence(sources, entries)
      && |sources| == |m.entries|
      && (forall k :: 0 <= k < |sources| ==> ComesFrom(m.entries[k], sources[k], m.actions))
      && Accounted(entries, sources, Removed(m.actions))
  {
    var s := Survivors(entries, |entries|);
    var ds := Decisions(inv, s);
    sources := Sources(s, ds, |s|);
    assert entries[..|entries|] == entries && s[..|s|] == s;
    SurvivorsAndDuplicates(entries, |entries|);
    SourcesAndMerges(s, ds, |s|);
    RemovedAppend(Duplicates(entries, |entries|), Actions(s, ds, |s|));
    OutputsHaveSources(s, ds, |s|);
    SourcesInOrder(s, ds, |s|);
    SurvivorsInOrder(entries, |entries|);
    SubsequenceTransitive(sources, s, entries);
  }

  // ---------------------------------------------------------------------
  // Unique ids

  ghost predicate UniqueIds(entries: seq<SyncEntry>) {
    forall i, j :: 0 <= i < j < |entries| ==> entries[i].taskId != entries[j].taskId
  }

  /** Declared ids are in normalized form, as every id a heading declares is. */
  ghost predicate CanonicalIds(inv: Inventory) {
    forall k :: 0 <= k < |inv.declarations| ==> Canonical(inv.declarations[k].declaredId)
  }

  /** The position, among the raw entries, of each survivor. */
  lemma {:induction false} SurvivorsAreLast(entries: seq<SyncEntry>, n: nat)
    requires n <= |entries|
    ensures UniqueIds(Survivors(entries, n))
    ensures forall e :: e in Survivors(entries, n) ==> exists i :: 0 <= i < n && IsLast(entries, i) && entries[i] == e
  {
    if n > 0 {
      SurvivorsAreLast(entries, n - 1);
      var before := Survivors(entries, n - 1);
      forall e | e in before ensures e.taskId != entries[n - 1].taskId {
        var i :| 0 <= i < n - 1 && IsLast(entries, i) && entries[i] == e;
      }
    }
  }

  lemma {:induction false} SurvivorsOfUnique(entries: seq<SyncEntry>, n: nat)
    requires n <= |entries| && UniqueIds(entries)
    ensures Survivors(entries, n) == entries[..n] && Duplicates(entries, n) == []
  {
    if n > 0 {
      SurvivorsOfUnique(entries, n - 1);
      assert IsLast(entries, n - 1);
      assert entries[..n] == entries[..n - 1] + [entries[n - 1]];
    }
  }

  lemma {:induction false} LookupFinds(entries: seq<SyncEntry>, id: string)
    ensures Lookup(entries, id).None? <==> forall e :: e in entries ==> e.taskId != id
    ensures Lookup(entries, id).Some? ==> Lookup(entries, id).value in entries && Lookup(entries, id).value.taskId == id
  {
    if entries != [] {
      var n := |entries| - 1;
      LookupFinds(entries[..n], id);
      assert entries == entries[..n] + [entries[n]];
    }
  }

  lemma {:induction false} DeclaredByFinds(declarations: seq<Declaration>, fileName: string)
    ensures DeclaredBy(declarations, fileName).Some? ==>
              exists k :: 0 <= k < |declarations| &&
                declarations[k] == Declaration(fileName, DeclaredBy(declarations, fileName).value)
  {
    if declarations != [] {
      var n := |declarations| - 1;
      DeclaredByFinds(declarations[..n], fileName);
      if declarations[n].fileName != fileName && DeclaredBy(declarations[..n], fileName).Some? {
        var k :| 0 <= k < n && declarations[..n][k] == Declaration(fileName, DeclaredBy(declarations, fileName).value);
        assert declarations[k] == declarations[..n][k];
      }
    }
  }

  /** Two files that declare one canonical id make it contested. */
  lemma {:induction false} TwoFilesContest(inv: Inventory, e: SyncEntry, f: SyncEntry, id: string)
    requires CanonicalIds(inv) && Resolved(inv, e) == Some(id) == Resolved(inv, f) && e.taskId != f.taskId
    ensures IsContested(inv, id)
  {
    var ds := inv.declarations;
    DeclaredByFinds(ds, e.taskId + ".md");
    DeclaredByFinds(ds, f.taskId + ".md");
    var j :| 0 <= j < |ds| && ds[j] == Declaration(e.taskId + ".md", id);
    var k :| 0 <= k < |ds| && ds[k] == Declaration(f.taskId + ".md", id);
    assert (e.taskId + ".md")[..|e.taskId|] == e.taskId && (f.taskId + ".md")[..|f.taskId|] == f.taskId;
    assert |e.taskId + ".md"| == |f.taskId + ".md"| ==> |e.taskId| == |f.taskId|;
    assert j != k;
    var n := NormalizeDeclarations(ds);
    assert Canonical(ds[j].declaredId);
    assert n[j].declaredId == id == n[k].declaredId;
    ClaimantCount(n, id);
  }

  lemma {:induction false} RewriteMeans(inv: Inventory, s: seq<SyncEntry>, e: SyncEntry, id: string)
    requires Decide(inv, s, e) == Rewrite(id)
    ensures Resolved(inv, e) == Some(id) && !IsContested(inv, id) && Lookup(s, id).None?
  {
  }

  /** Two survivors are rewritten to one id. */
  ghost predicate SharedTarget(inv: Inventory, s: seq<SyncEntry>) {
    exists i, j :: 0 <= i < j < |s| && Decide(inv, s, s[i]).Rewrite? && Decide(inv, s, s[i]) == Decide(inv, s, s[j])
  }

  /** Canonical declared ids rule that out. */
  lemma {:induction false} NoSharedTarget(inv: Inventory, s: seq<SyncEntry>)
    requires CanonicalIds(inv) && UniqueIds(s)
    ensures !SharedTarget(inv, s)
  {
    if i, j :| 0 <= i < j < |s| && Decide(inv, s, s[i]).Rewrite? && Decide(inv, s, s[i]) == Decide(inv, s, s[j]) {
      var id := Decide(inv, s, s[i]).toTaskId;
      RewriteMeans(inv, s, s[i], id);
      RewriteMeans(inv, s, s[j], id);
      TwoFilesContest(inv, s[i], s[j], id);
    }
  }

  /** The id an entry has in the output. */
  function NewId(d: Decision, e: SyncEntry): string {
    if d.Rewrite? then d.toTaskId else e.taskId
  }

  ghost predicate TargetsApart(s: seq<SyncEntry>, ds: seq<Decision>)
    requires |s| == |ds|
  {
    forall i, j :: 0 <= i < j < |s| ==> NewId(ds[i], s[i]) != NewId(ds[j], s[j])
  }

  /** A rewrite never meets the id of another survivor. */
  lemma {:induction false} TargetIsNew(inv: Inventory, s: seq<SyncEntry>, e: SyncEntry, f: SyncEntry)
    requires f in s && Decide(inv, s, e).Rewrite?
    ensures Decide(inv, s, e).toTaskId != f.taskId
  {
    RewriteMeans(inv, s, e, Decide(inv, s, e).toTaskId);
    LookupFinds(s, Decide(inv, s, e).toTaskId);
  }

  lemma {:induction false} DecisionsKeepIdsApart(inv: Inventory, s: seq<SyncEntry>)
    requires UniqueIds(s) && !SharedTarget(inv, s)
    ensures TargetsApart(s, Decisions(inv, s))
  {
    var ds := Decisions(inv, s);
    forall i, j | 0 <= i < j < |s| ensures NewId(ds[i], s[i]) != NewId(ds[j], s[j]) {
      assert ds[i] == Decide(inv, s, s[i]) && ds[j] == Decide(inv, s, s[j]);
      if ds[i].Rewrite? {
        TargetIsNew(inv, s, s[i], s[j]);
      }
      if ds[j].Rewrite? {
        TargetIsNew(inv, s, s[j], s[i]);
      }
    }
  }

  lemma {:induction false} OutputsAreMembers(s: seq<SyncEntry>, ds: seq<Decision>, n: nat, e: SyncEntry)
    requires n <= |s| == |ds|
    ensures e in Outputs(s, ds, n) <==> exists i :: 0 <= i < n && e in OutputOf(ds[i], s[i])
  {
    if n > 0 {
      OutputsAreMembers(s, ds, n - 1, e);
    }
  }

  lemma {:induction false} OutputIdsUnique(s: seq<SyncEntry>, ds: seq<Decision>, n: nat)
    requires n <= |s| == |ds| && TargetsApart(s, ds)
    ensures UniqueIds(Outputs(s, ds, n))
  {
    if n > 0 {
      OutputIdsUnique(s, ds, n - 1);
      forall e | e in Outputs(s, ds, n - 1) ensures e.taskId != NewId(ds[n - 1], s[n - 1]) {
        OutputsAreMembers(s, ds, n - 1, e);
      }
    }
  }

  lemma {:induction false} OutputsExtend(s: seq<SyncEntry>, ds: seq<Decision>, i: nat, n: nat)
    requires i <= n <= |s| == |ds|
    ensures Outputs(s, ds, i) <= Outputs(s, ds, n)
  {
    if i < n {
      OutputsExtend(s, ds, i, n - 1);
    }
  }

  /** Two entries rewritten to one id both stay in the output. */
  lemma {:induction false} SharedTargetsCollide(s: seq<SyncEntry>, ds: seq<Decision>, i: nat, j: nat)
    requires i < j < |s| == |ds| && ds[i].Rewrite? && ds[i] == ds[j]
    ensures !UniqueIds(Outputs(s, ds, |s|))
  {
    var at, at' := |Outputs(s, ds, i)|, |Outputs(s, ds, j)|;
    OutputsExtend(s, ds, i + 1, j);
    OutputsExtend(s, ds, j + 1, |s|);
    assert |Outputs(s, ds, i + 1)| == at + 1 && at < at';
    OutputAt(s, ds, i);
    OutputAt(s, ds, j);
  }

  lemma {:induction false} OutputAt(s: seq<SyncEntry>, ds: seq<Decision>, i: nat)
    requires i < |s| == |ds| && ds[i].Rewrite?
    ensures |Outputs(s, ds, i)| < |Outputs(s, ds, |s|)|
    ensures Outputs(s, ds, |s|)[|Outputs(s, ds, i)|].taskId == ds[i].toTaskId
  {
    OutputsExtend(s, ds, i + 1, |s|);
    assert Outputs(s, ds, i + 1) == Outputs(s, ds, i) + [s[i].(taskId := ds[i].toTaskId)];
  }

  /** Migrated ids are unique exactly when no two surviving entries are rewritten
      to one id. */
  lemma {:induction false} MigratedIdsUniqueExactly(inv: Inventory, entries: seq<SyncEntry>)
    ensures UniqueIds(Migrate(inv, entries).entries) <==> !SharedTarget(inv, Survivors(entries, |entries|))
  {
    var s := Survivors(entries, |entries|);
    var ds := Decisions(inv, s);
    SurvivorsAreLast(entries, |entries|);
    if i, j :| 0 <= i < j < |s| && Decide(inv, s, s[i]).Rewrite? && Decide(inv, s, s[i]) == Decide(inv, s, s[j]) {
      assert ds[i] == Decide(inv, s, s[i]) && ds[j] == Decide(inv, s, s[j]);
      SharedTargetsCollide(s, ds, i, j);
    } else {
      DecisionsKeepIdsApart(inv, s);
      OutputIdsUnique(s, ds, |s|);
    }
  }

  /** With canonical declared ids, no two migrated entries share an id. */
  lemma {:induction false} MigratedIdsUnique(inv: Inventory, entries: seq<SyncEntry>)
    requires CanonicalIds(inv)
    ensures UniqueIds(Migrate(inv, entries).entries)
  {
    SurvivorsAreLast(entries, |entries|);
    NoSharedTarget(inv, Survivors(entries, |entries|));
    MigratedIdsUniqueExactly(inv, entries);
  }

  /** Every id that a task heading can declare is canonical. */
  lemma {:induction false} HeadingsMigrateUniquely(inv: Inventory, entries: seq<SyncEntry>)
    requires forall k :: 0 <= k < |inv.declarations| ==> HeadingId(inv.declarations[k].declaredId)
    ensures UniqueIds(Migrate(inv, entries).entries)
  {
    forall k | 0 <= k < |inv.declarations| ensures Canonical(inv.declarations[k].declaredId) {
      HeadingIdsAreCanonical(inv.declarations[k].declaredId);
    }
    MigratedIdsUnique(inv, entries);
  }

  // ---------------------------------------------------------------------
  // Merge targets

  /** An entry under a declared, uncontested id is kept as it is. */
  lemma {:induction false} DeclaredIsKept(inv: Inventory, s: seq<SyncEntry>, e: SyncEntry)
    requires Declares(inv.declarations, e.taskId)
    ensures OutputOf(Decide(inv, s, e), e) == [e] && ActionOf(Decide(inv, s, e), e) == []
  {
  }

  lemma {:induction false} ResolvedIsDeclared(inv: Inventory, e: SyncEntry)
    requires Resolved(inv, e).Some?
    ensures Declares(inv.declarations, Resolved(inv, e).value)
  {
    DeclaredByFinds(inv.declarations, e.taskId + ".md");
  }

  lemma {:induction false} TargetIsKept(inv: Inventory, s: seq<SyncEntry>, e: SyncEntry)
    requires Resolved(inv, e).Some? && Lookup(s, Resolved(inv, e).value).Some?
    ensures Lookup(s, Resolved(inv, e).value).value in Outputs(s, Decisions(inv, s), |s|)
  {
    var id := Resolved(inv, e).value;
    LookupFinds(s, id);
    var target := Lookup(s, id).value;
    var i :| 0 <= i < |s| && s[i] == target;
    ResolvedIsDeclared(inv, e);
    DeclaredIsKept(inv, s, target);
    OutputsAreMembers(s, Decisions(inv, s), |s|, target);
  }

  lemma {:induction false} ActionsAreDecided(s: seq<SyncEntry>, ds: seq<Decision>, n: nat, action: Action)
    requires n <= |s| == |ds| && action in Actions(s, ds, n)
    ensures exists i :: 0 <= i < n && action in ActionOf(ds[i], s[i])
  {
    if action !in ActionOf(ds[n - 1], s[n - 1]) {
      ActionsAreDecided(s, ds, n - 1, action);
    }
  }

  lemma {:induction false} DuplicatesAreDuplicates(entries: seq<SyncEntry>, n: nat, action: Action)
    requires n <= |entries| && action in Duplicates(entries, n)
    ensures action.RawDuplicate?
  {
    if n > 0 && action in Duplicates(entries, n - 1) {
      DuplicatesAreDuplicates(entries, n - 1, action);
    }
  }

  lemma {:induction false} MergeMeans(inv: Inventory, s: seq<SyncEntry>, e: SyncEntry, id: string)
    requires Decide(inv, s, e) == Merge(id)
    ensures Resolved(inv, e) == Some(id) && Lookup(s, id).Some? && Lookup(s, id).value.issueNumber == e.issueNumber
  {
  }

  /** What an entry was merged into is itself in the migrated map, for the same
      issue. */
  lemma {:induction false} MergeTargetIsKept(inv: Inventory, entries: seq<SyncEntry>, target: string, e: SyncEntry)
    requires MergedRedundant(target, e) in Migrate(inv, entries).actions
    ensures exists kept :: kept in Migrate(inv, entries).entries &&
              kept.taskId == target && kept.issueNumber == e.issueNumber
  {
    var s := Survivors(entries, |entries|);
    var ds := Decisions(inv, s);
    var action := MergedRedundant(target, e);
    if action in Duplicates(entries, |entries|) {
      DuplicatesAreDuplicates(entries, |entries|, action);
    }
    ActionsAreDecided(s, ds, |s|, action);
    var i :| 0 <= i < |s| && action in ActionOf(ds[i], s[i]);
    assert ds[i] == Decide(inv, s, s[i]);
    MergeMeans(inv, s, e, target);
    TargetIsKept(inv, s, e);
    LookupFinds(s, target);
  }

  // ---------------------------------------------------------------------
  // A second migration

  lemma {:induction false} RewrittenIsSettled(inv: Inventory, s: seq<SyncEntry>, s': seq<SyncEntry>, e: SyncEntry,
                                              id: string)
    requires Decide(inv, s, e) == Rewrite(id)
    ensures ActionOf(Decide(inv, s', e.(taskId := id)), e.(taskId := id)) == []
  {
    RewriteMeans(inv, s, e, id);
    ResolvedIsDeclared(inv, e);
    DeclaredIsKept(inv, s', e.(taskId := id));
  }

  /** What the inventory alone decides, it decides alike for every map. */
  lemma {:induction false} DecidedByInventory(inv: Inventory, s: seq<SyncEntry>, s': seq<SyncEntry>, e: SyncEntry)
    requires ContestedId(inv, e).Some? || Declares(inv.declarations, e.taskId) || Resolved(inv, e).None?
    ensures Decide(inv, s', e) == Decide(inv, s, e)
  {
  }

  lemma {:induction false} ConflictMeans(inv: Inventory, s: seq<SyncEntry>, e: SyncEntry)
    requires ContestedId(inv, e).None? && !Declares(inv.declarations, e.taskId) && Resolved(inv, e).Some?
    requires ActionOf(Decide(inv, s, e), e) == []
    ensures var target := Lookup(s, Resolved(inv, e).value);
            target.Some? && target.value.issueNumber != e.issueNumber
  {
  }

  lemma {:induction false} ConflictIsKept(inv: Inventory, s: seq<SyncEntry>, e: SyncEntry)
    requires ContestedId(inv, e).None? && !Declares(inv.declarations, e.taskId) && Resolved(inv, e).Some?
    requires var target := Lookup(s, Resolved(inv, e).value);
             target.Some? && target.value.issueNumber != e.issueNumber
    ensures ActionOf(Decide(inv, s, e), e) == []
  {
  }

  /** A kept entry is kept again by the migrated map. */
  lemma {:induction false} KeptIsSettled(inv: Inventory, s: seq<SyncEntry>, s': seq<SyncEntry>, e: SyncEntry)
    requires s' == Outputs(s, Decisions(inv, s), |s|) && UniqueIds(s') && ActionOf(Decide(inv, s, e), e) == []
    ensures ActionOf(Decide(inv, s', e), e) == []
  {
    if ContestedId(inv, e).Some? || Declares(inv.declarations, e.taskId) || Resolved(inv, e).None? {
      DecidedByInventory(inv, s, s', e);
    } else {
      var id := Resolved(inv, e).value;
      ConflictMeans(inv, s, e);
      LookupFinds(s, id);
      TargetIsKept(inv, s, e);
      LookupUnique(s', Lookup(s, id).value);
      ConflictIsKept(inv, s', e);
    }
  }

  lemma {:induction false} LookupUnique(entries: seq<SyncEntry>, e: SyncEntry)
    requires UniqueIds(entries) && e in entries
    ensures Lookup(entries, e.taskId) == Some(e)
  {
    LookupFinds(entries, e.taskId);
    var i :| 0 <= i < |entries| && entries[i] == e;
    var found := Lookup(entries, e.taskId).value;
    var j :| 0 <= j < |entries| && entries[j] == found;
    assert i == j;
  }

  lemma {:induction false} NoActionKeeps(d: Decision, e: SyncEntry)
    requires ActionOf(d, e) == []
    ensures OutputOf(d, e) == [e]
  {
  }

  lemma {:induction false} NoActions(s: seq<SyncEntry>, ds: seq<Decision>, n: nat)
    requires n <= |s| == |ds| && forall i :: 0 <= i < n ==> ActionOf(ds[i], s[i]) == []
    ensures Actions(s, ds, n) == []
    ensures Outputs(s, ds, n) == s[..n]
  {
    if n > 0 {
      NoActions(s, ds, n - 1);
      NoActionKeeps(ds[n - 1], s[n - 1]);
      assert s[..n] == s[..n - 1] + [s[n - 1]];
      assert Actions(s, ds, n - 1) + [] == [];
    }
  }

  lemma {:induction false} OutputIsSettled(inv: Inventory, s: seq<SyncEntry>, s': seq<SyncEntry>, e: SyncEntry)
    requires s' == Outputs(s, Decisions(inv, s), |s|) && UniqueIds(s') && e in s'
    ensures ActionOf(Decide(inv, s', e), e) == []
  {
    var ds := Decisions(inv, s);
    OutputsAreMembers(s, ds, |s|, e);
    var i :| 0 <= i < |s| && e in OutputOf(ds[i], s[i]);
    if ds[i].Rewrite? {
      RewrittenIsSettled(inv, s, s', s[i], ds[i].toTaskId);
    } else {
      KeptIsSettled(inv, s, s', s[i]);
    }
  }

  /** An entry that another one of the same id follows is a rule-1 duplicate. */
  lemma {:induction false} NotLastIsDuplicate(entries: seq<SyncEntry>, i: nat, n: nat)
    requires i < n <= |entries| && !IsLast(entries, i)
    ensures Duplicates(entries, n) != []
  {
    if i < n - 1 {
      NotLastIsDuplicate(entries, i, n - 1);
    }
  }

  lemma {:induction false} SharedIdsAreDuplicates(entries: seq<SyncEntry>)
    requires !UniqueIds(entries)
    ensures Duplicates(entries, |entries|) != []
  {
    var i, j :| 0 <= i < j < |entries| && entries[i].taskId == entries[j].taskId;
    NotLastIsDuplicate(entries, i, |entries|);
  }

  lemma {:induction false} UniqueOutputIsSettled(inv: Inventory, entries: seq<SyncEntry>)
    requires UniqueIds(Migrate(inv, entries).entries)
    ensures
      var once := Migrate(inv, entries);
      var twice := Migrate(inv, once.entries);
      twice.actions == [] && twice.entries == once.entries
  {
    var s := Survivors(entries, |entries|);
    var s' := Migrate(inv, entries).entries;
    var ds' := Decisions(inv, s');
    SurvivorsOfUnique(s', |s'|);
    assert s'[..|s'|] == s';
    forall i | 0 <= i < |s'| ensures ActionOf(ds'[i], s'[i]) == [] {
      OutputIsSettled(inv, s, s', s'[i]);
    }
    NoActions(s', ds', |s'|);
  }

  /** Migrating the migrated map against the same inventory takes no action exactly
      when no two surviving entries of the first map are rewritten to one id. */
  lemma {:induction false} SecondMigrationIdleExactly(inv: Inventory, entries: seq<SyncEntry>)
    ensures
      var once := Migrate(inv, entries);
      var twice := Migrate(inv, once.entries);
      && (twice.actions == [] <==> !SharedTarget(inv, Survivors(entries, |entries|)))
      && (twice.actions == [] <==> UniqueIds(once.entries))
      && (twice.actions == [] ==> twice.entries == once.entries)
  {
    var once := Migrate(inv, entries);
    MigratedIdsUniqueExactly(inv, entries);
    if UniqueIds(once.entries) {
      UniqueOutputIsSettled(inv, entries);
    } else {
      SharedIdsAreDuplicates(once.entries);
    }
  }

  /** With canonical declared ids it never does anything. */
  lemma {:induction false} SecondMigrationDoesNothing(inv: Inventory, entries: seq<SyncEntry>)
    requires CanonicalIds(inv)
    ensures
      var once := Migrate(inv, entries);
      var twice := Migrate(inv, once.entries);
      twice.actions == [] && twice.entries == once.entries
  {
    MigratedIdsUnique(inv, entries);
    UniqueOutputIsSettled(inv, entries);
  }

  // ---------------------------------------------------------------------
  // A third migration

  /** The last entry of every id of a list is a survivor. */
  lemma {:induction false} IdsSurvive(entries: seq<SyncEntry>, id: string)
    requires exists e :: e in entries && e.taskId == id
    ensures exists e :: e in Survivors(entries, |entries|) && e.taskId == id
  {
    var e :| e in entries && e.taskId == id;
    var i :| 0 <= i < |entries| && entries[i] == e;
    var k := LastWith(entries, id, i);
    LastSurvives(entries, k, |entries|);
  }

  lemma {:induction false} LastWith(entries: seq<SyncEntry>, id: string, i: nat) returns (k: nat)
    requires i < |entries| && entries[i].taskId == id
    ensures k < |entries| && entries[k].taskId == id && IsLast(entries, k)
    decreases |entries| - i
  {
    k := i;
    if j :| i < j < |entries| && entries[j].taskId == id {
      k := LastWith(entries, id, j);
    }
  }

  lemma {:induction false} LastSurvives(entries: seq<SyncEntry>, i: nat, n: nat)
    requires i < n <= |entries| && IsLast(entries, i)
    ensures entries[i] in Survivors(entries, n)
  {
    if i < n - 1 {
      LastSurvives(entries, i, n - 1);
    }
  }

  /** A second migration never rewrites: what the first one kept is decided by the
      inventory alone, or conflicts with an entry that the first one kept. */
  lemma {:induction false} NotRewrittenAgain(inv: Inventory, s: seq<SyncEntry>, s': seq<SyncEntry>,
                                             s'': seq<SyncEntry>, e: SyncEntry)
    requires s' == Outputs(s, Decisions(inv, s), |s|) && s'' == Survivors(s', |s'|) && e in s'
    ensures !Decide(inv, s'', e).Rewrite?
  {
    var ds := Decisions(inv, s);
    OutputsAreMembers(s, ds, |s|, e);
    var i :| 0 <= i < |s| && e in OutputOf(ds[i], s[i]);
    assert ds[i] == Decide(inv, s, s[i]);
    if ds[i].Rewrite? {
      RewrittenIsSettled(inv, s, s'', s[i], ds[i].toTaskId);
    } else if ContestedId(inv, e).Some? || Declares(inv.declarations, e.taskId) || Resolved(inv, e).None? {
      DecidedByInventory(inv, s, s'', e);
    } else {
      var id := Resolved(inv, e).value;
      ConflictMeans(inv, s, e);
      LookupFinds(s, id);
      TargetIsKept(inv, s, e);
      IdsSurvive(s', id);
      LookupFinds(s'', id);
    }
  }

  /** Whatever ids are declared, two migrations are enough: a third one takes no
      action. */
  lemma {:induction false} ThirdMigrationDoesNothing(inv: Inventory, entries: seq<SyncEntry>)
    ensures
      var twice := Migrate(inv, Migrate(inv, entries).entries);
      Migrate(inv, twice.entries).actions == [] && Migrate(inv, twice.entries).entries == twice.entries
  {
    var s := Survivors(entries, |entries|);
    var s' := Migrate(inv, entries).entries;
    var s'' := Survivors(s', |s'|);
    SurvivorsAreLast(s', |s'|);
    forall i | 0 <= i < |s''| ensures !Decide(inv, s'', s''[i]).Rewrite? {
      assert s''[i] in s'';
      NotRewrittenAgain(inv, s, s', s'', s''[i]);
    }
    SecondMigrationIdleExactly(inv, s');
  }

  // ---------------------------------------------------------------------
  // Why canonical ids matter

  lemma {:induction false} TwoDeclarations(inv: Inventory, f: string, g: string, id: string)
    requires inv.declarations == [Declaration(f, id), Declaration(g, id)] && f != g
    ensures DeclaredBy(inv.declarations, f) == Some(id) == DeclaredBy(inv.declarations, g)
    ensures forall x :: Declares(inv.declarations, x) <==> x == id
    ensures forall x :: Contested(inv.declarations, x) ==> x == NormalizeClaimantTaskId(id)
  {
    var ds := inv.declarations;
    assert ds[..1] == [Declaration(f, id)] && ds[..1][..0] == [];
    assert ds[0].declaredId == id;
    forall x | Contested(ds, x) ensures x == NormalizeClaimantTaskId(id) {
      ClaimantCount(NormalizeDeclarations(ds), x);
    }
  }

  lemma {:induction false} RewrittenUnseen(inv: Inventory, s: seq<SyncEntry>, e: SyncEntry, id: string)
    requires DeclaredBy(inv.declarations, e.taskId + ".md") == Some(id) && id != "" && Lookup(s, id).None?
    requires !Declares(inv.declarations, e.taskId)
    requires !Contested(inv.declarations, e.taskId) && !Contested(inv.declarations, id)
    ensures Decide(inv, s, e) == Rewrite(id)
  {
  }

  /** The contested index is keyed by normalized ids, the rules look raw ids up
      in it: two files that declare one uncanonical id are not seen to contest
      it, and both entries are rewritten to it. */
  lemma {:induction false} UncanonicalIdsCollide(id: string, a: SyncEntry, b: SyncEntry, inv: Inventory)
    requires id != "" && a.taskId != b.taskId && a.taskId != id && b.taskId != id
    requires inv.declarations == [Declaration(a.taskId + ".md", id), Declaration(b.taskId + ".md", id)]
    requires !Canonical(id)
    requires NormalizeClaimantTaskId(id) != a.taskId && NormalizeClaimantTaskId(id) != b.taskId
    ensures !UniqueIds(Migrate(inv, [a, b]).entries)
  {
    FileNamesDiffer(a, b);
    TwoDeclarations(inv, a.taskId + ".md", b.taskId + ".md", id);
    LookupFinds([a, b], id);
    RewrittenUnseen(inv, [a, b], a, id);
    RewrittenUnseen(inv, [a, b], b, id);
    BothRewrittenCollide(inv, a, b, id);
  }

  lemma {:induction false} FileNamesDiffer(a: SyncEntry, b: SyncEntry)
    requires a.taskId != b.taskId
    ensures a.taskId + ".md" != b.taskId + ".md"
  {
    assert (a.taskId + ".md")[..|a.taskId|] == a.taskId && (b.taskId + ".md")[..|b.taskId|] == b.taskId;
  }

  lemma {:induction false} BothRewrittenCollide(inv: Inventory, a: SyncEntry, b: SyncEntry, id: string)
    requires a.taskId != b.taskId
    requires Decide(inv, [a, b], a) == Rewrite(id) == Decide(inv, [a, b], b)
    ensures !UniqueIds(Migrate(inv, [a, b]).entries)
  {
    var s := [a, b];
    SurvivorsOfUnique(s, 2);
    assert s[..2] == s && s[0] == a && s[1] == b;
    MigratedIdsUniqueExactly(inv, s);
  }
}
