/** What the migration reports: which entries it leaves unresolved and which actions
    it lists, told from the inventory and the surviving entries alone. */
module SyncReport {
  import opened Base
  import opened Claimants
  import opened Alignment
  import opened StableSort
  import opened SyncMigration

  // ---------------------------------------------------------------------
  // What becomes of one surviving entry

  /** A contested id concerns the entry: its own, or else the one its file declares. */
  ghost predicate ContestedAs(inv: Inventory, e: SyncEntry, id: string) {
    IsContested(inv, id) &&
    (id == e.taskId || (!IsContested(inv, e.taskId) && Resolved(inv, e) == Some(id)))
  }

  ghost predicate Uncontested(inv: Inventory, e: SyncEntry) {
    forall id :: !ContestedAs(inv, e, id)
  }

  /** Nothing is said about the entry: its id is declared and not contested. */
  ghost predicate Silent(inv: Inventory, e: SyncEntry) {
    Uncontested(inv, e) && Declares(inv.declarations, e.taskId)
  }

  ghost predicate Undeclared(inv: Inventory, e: SyncEntry) {
    Uncontested(inv, e) && !Declares(inv.declarations, e.taskId)
  }

  ghost predicate Survives(entries: seq<SyncEntry>, e: SyncEntry) {
    exists i :: 0 <= i < |entries| && IsLast(entries, i) && entries[i] == e
  }

  /** A surviving entry is in the way of the id. */
  ghost predicate Taken(entries: seq<SyncEntry>, id: string, issueNumber: int) {
    exists t :: Survives(entries, t) && t.taskId == id && t.issueNumber == issueNumber
  }

  /** The reason for each kind of unresolved entry. */
  ghost predicate Explains(inv: Inventory, entries: seq<SyncEntry>, p: Unresolved) {
    match p
    case ContestedTarget(id, claimants, e) =>
      ContestedAs(inv, e, id) && claimants == SortedClaimants(inv.order, inv.declarations, id)
    case IssueConflict(id, n, e) =>
      Undeclared(inv, e) && Resolved(inv, e) == Some(id) && Taken(entries, id, n) && n != e.issueNumber
    case UnresolvableCurrent(e) => Undeclared(inv, e) && Resolved(inv, e).None? && e.taskId + ".md" in inv.basenames
    case Orphan(e) => Undeclared(inv, e) && Resolved(inv, e).None? && e.taskId + ".md" !in inv.basenames
  }

  /** The reason for a rewrite and for a merge. */
  ghost predicate Justifies(inv: Inventory, entries: seq<SyncEntry>, a: Action) {
    match a
    case RawDuplicate(_) => false
    case Rewritten(id, e) => Undeclared(inv, e) && Resolved(inv, e) == Some(id) && forall n :: !Taken(entries, id, n)
    case MergedRedundant(id, e) =>
      Undeclared(inv, e) && Resolved(inv, e) == Some(id) && Taken(entries, id, e.issueNumber)
  }

  function EntryOf(p: Unresolved): SyncEntry {
    match p
    case ContestedTarget(_, _, e) => e
    case IssueConflict(_, _, e) => e
    case UnresolvableCurrent(e) => e
    case Orphan(e) => e
  }

  function ActedOn(a: Action): SyncEntry {
    match a
    case RawDuplicate(e) => e
    case Rewritten(_, e) => e
    case MergedRedundant(_, e) => e
  }

  lemma {:induction false} SurvivorsExactly(entries: seq<SyncEntry>, n: nat, e: SyncEntry)
    requires n <= |entries|
    ensures e in Survivors(entries, n) <==> exists i :: 0 <= i < n && IsLast(entries, i) && entries[i] == e
  {
    if n > 0 {
      SurvivorsExactly(entries, n - 1, e);
    }
  }

  lemma {:induction false} ContestedExactly(inv: Inventory, e: SyncEntry)
    ensures forall id :: ContestedId(inv, e) == Some(id) <==> ContestedAs(inv, e, id)
    ensures ContestedId(inv, e).None? <==> Uncontested(inv, e)
  {
    var c := ContestedId(inv, e);
    assert c.Some? ==> ContestedAs(inv, e, c.value);
  }

  /** Who is in the way of an id is found by it. */
  lemma {:induction false} TakenExactly(entries: seq<SyncEntry>, id: string)
    ensures
      var target := Lookup(Survivors(entries, |entries|), id);
      && (forall n :: Taken(entries, id, n) <==> target.Some? && target.value.issueNumber == n)
      && (target.None? <==> forall n :: !Taken(entries, id, n))
  {
    var s := Survivors(entries, |entries|);
    var target := Lookup(s, id);
    LookupFinds(s, id);
    SurvivorsAreLast(entries, |entries|);
    forall e ensures e in s <==> Survives(entries, e) {
      SurvivorsExactly(entries, |entries|, e);
    }
    if target.Some? {
      assert Survives(entries, target.value);
      assert Taken(entries, id, target.value.issueNumber);
      forall t | t in s && t.taskId == id ensures t == target.value {
        var i, j :| 0 <= i < |s| && 0 <= j < |s| && s[i] == t && s[j] == target.value;
      }
    }
  }

  lemma {:induction false} UnresolvedDecision(inv: Inventory, entries: seq<SyncEntry>, e: SyncEntry)
    ensures
      var d := Decide(inv, Survivors(entries, |entries|), e);
      forall p :: d == KeepUnresolved(p) <==> EntryOf(p) == e && Explains(inv, entries, p)
  {
    ContestedExactly(inv, e);
    if Resolved(inv, e).Some? {
      TakenExactly(entries, Resolved(inv, e).value);
    }
  }

  /** The decision on a survivor, told from the inventory and the survivors. */
  lemma {:induction false} DecisionExactly(inv: Inventory, entries: seq<SyncEntry>, e: SyncEntry)
    ensures
      var d := Decide(inv, Survivors(entries, |entries|), e);
      && (forall p :: d == KeepUnresolved(p) <==> EntryOf(p) == e && Explains(inv, entries, p))
      && (forall id :: d == Rewrite(id) <==> Justifies(inv, entries, Rewritten(id, e)))
      && (forall id :: d == Merge(id) <==> Justifies(inv, entries, MergedRedundant(id, e)))
      && (d == Keep <==> Silent(inv, e))
  {
    UnresolvedDecision(inv, entries, e);
    ContestedExactly(inv, e);
    if Resolved(inv, e).Some? {
      TakenExactly(entries, Resolved(inv, e).value);
    }
  }

  // ---------------------------------------------------------------------
  // The lists

  /** The decisions on a list are about its entries. */
  ghost predicate Fits(s: seq<SyncEntry>, ds: seq<Decision>) {
    |s| == |ds| && forall i :: 0 <= i < |s| && ds[i].KeepUnresolved? ==> EntryOf(ds[i].problem) == s[i]
  }

  lemma {:induction false} DecisionsFit(inv: Inventory, entries: seq<SyncEntry>)
    ensures var s := Survivors(entries, |entries|); Fits(s, Decisions(inv, s))
  {
    var s := Survivors(entries, |entries|);
    forall i | 0 <= i < |s| && Decisions(inv, s)[i].KeepUnresolved?
      ensures EntryOf(Decisions(inv, s)[i].problem) == s[i]
    {
      DecisionExactly(inv, entries, s[i]);
      assert Decisions(inv, s)[i] == DecisionAt(inv, s, i);
    }
  }

  lemma {:induction false} ProblemsAreDecided(ds: seq<Decision>, n: nat, p: Unresolved)
    requires n <= |ds|
    ensures p in Problems(ds, n) <==> exists i :: 0 <= i < n && ds[i] == KeepUnresolved(p)
  {
    if n > 0 {
      ProblemsAreDecided(ds, n - 1, p);
    }
  }

  lemma {:induction false} ActionsAreTaken(s: seq<SyncEntry>, ds: seq<Decision>, n: nat, a: Action)
    requires n <= |s| == |ds|
    ensures a in Actions(s, ds, n) <==> exists i :: 0 <= i < n && a in ActionOf(ds[i], s[i])
  {
    if n > 0 {
      ActionsAreTaken(s, ds, n - 1, a);
    }
  }

  lemma {:induction false} DuplicatesExactly(entries: seq<SyncEntry>, n: nat, a: Action)
    requires n <= |entries|
    ensures a in Duplicates(entries, n) <==> exists i :: 0 <= i < n && !IsLast(entries, i) && a == RawDuplicate(entries[i])
  {
    if n > 0 {
      DuplicatesExactly(entries, n - 1, a);
    }
  }

  /** The unresolved list names exactly the surviving entries that a rule leaves
      unresolved, with the reason. */
  lemma {:induction false} UnresolvedExactly(inv: Inventory, entries: seq<SyncEntry>, p: Unresolved)
    ensures p in Migrate(inv, entries).unresolved <==> Survives(entries, EntryOf(p)) && Explains(inv, entries, p)
  {
    var s := Survivors(entries, |entries|);
    var e := EntryOf(p);
    ProblemsAreDecided(Decisions(inv, s), |s|, p);
    SurvivorsExactly(entries, |entries|, e);
    DecisionExactly(inv, entries, e);
    DecisionsFit(inv, entries);
    forall i | 0 <= i < |s| ensures Decisions(inv, s)[i] == Decide(inv, s, s[i]) {
      assert Decisions(inv, s)[i] == DecisionAt(inv, s, i);
    }
  }

  lemma {:induction false} TakenFor(inv: Inventory, entries: seq<SyncEntry>, a: Action, e: SyncEntry)
    ensures
      a in ActionOf(Decide(inv, Survivors(entries, |entries|), e), e) <==>
        !a.RawDuplicate? && ActedOn(a) == e && Justifies(inv, entries, a)
  {
    DecisionExactly(inv, entries, e);
  }

  /** The actions are exactly the raw duplicates, and the rewrites and merges that the
      inventory and the survivors justify. */
  lemma {:induction false} ActionsExactly(inv: Inventory, entries: seq<SyncEntry>, a: Action)
    ensures
      a in Migrate(inv, entries).actions <==>
        (exists i :: 0 <= i < |entries| && !IsLast(entries, i) && a == RawDuplicate(entries[i])) ||
        (Survives(entries, ActedOn(a)) && Justifies(inv, entries, a))
  {
    var s := Survivors(entries, |entries|);
    var ds := Decisions(inv, s);
    ActionsAreTaken(s, ds, |s|, a);
    DuplicatesExactly(entries, |entries|, a);
    SurvivorsExactly(entries, |entries|, ActedOn(a));
    forall i | 0 <= i < |s|
      ensures a in ActionOf(ds[i], s[i]) <==> !a.RawDuplicate? && ActedOn(a) == s[i] && Justifies(inv, entries, a)
    {
      assert ds[i] == DecisionAt(inv, s, i);
      TakenFor(inv, entries, a, s[i]);
    }
  }

  // ---------------------------------------------------------------------
  // Each survivor once

  function Named(problems: seq<Unresolved>): (r: seq<SyncEntry>)
    ensures |r| == |problems|
  {
    seq(|problems|, i requires 0 <= i < |problems| => EntryOf(problems[i]))
  }

  lemma {:induction false} NamedNext(s: seq<SyncEntry>, ds: seq<Decision>, n: nat)
    requires 0 < n <= |s| && Fits(s, ds)
    ensures
      var before := Named(Problems(ds, n - 1));
      Named(Problems(ds, n)) == if ds[n - 1].KeepUnresolved? then before + [s[n - 1]] else before
  {
    if ds[n - 1].KeepUnresolved? {
      assert ds[n - 1] == KeepUnresolved(ds[n - 1].problem);
    } else {
      assert Problems(ds, n) == Problems(ds, n - 1);
    }
  }

  lemma {:induction false} NamedAreChosen(s: seq<SyncEntry>, ds: seq<Decision>, flags: seq<bool>, n: nat)
    requires n <= |s| == |flags| && Fits(s, ds) && forall i :: 0 <= i < |s| ==> flags[i] == ds[i].KeepUnresolved?
    ensures Named(Problems(ds, n)) == Chosen(s, flags, n)
  {
    if n > 0 {
      NamedAreChosen(s, ds, flags, n - 1);
      NamedNext(s, ds, n);
    }
  }

  lemma {:induction false} NamedInOrder(s: seq<SyncEntry>, ds: seq<Decision>)
    requires Fits(s, ds)
    ensures Subsequence(Named(Problems(ds, |s|)), s)
  {
    var flags := seq(|s|, i requires 0 <= i < |s| => ds[i].KeepUnresolved?);
    NamedAreChosen(s, ds, flags, |s|);
    ChosenInOrder(s, flags, |s|);
    assert s[..|s|] == s;
  }

  lemma {:induction false} NamedOnce(s: seq<SyncEntry>, ds: seq<Decision>, n: nat)
    requires n <= |s| && Fits(s, ds) && UniqueIds(s)
    ensures UniqueIds(Named(Problems(ds, n)))
  {
    if n > 0 {
      NamedOnce(s, ds, n - 1);
      NamedNext(s, ds, n);
      var before := Problems(ds, n - 1);
      forall k | 0 <= k < |before| ensures Named(before)[k].taskId != s[n - 1].taskId {
        ProblemsAreDecided(ds, n - 1, before[k]);
        var i :| 0 <= i < n - 1 && ds[i] == KeepUnresolved(before[k]);
      }
    }
  }

  /** The entry is named by an unresolved item. */
  ghost predicate IsNamed(m: Migration, e: SyncEntry) {
    exists p :: p in m.unresolved && EntryOf(p) == e
  }

  /** The entry is rewritten or merged. */
  ghost predicate IsMoved(m: Migration, e: SyncEntry) {
    exists a :: a in m.actions && !a.RawDuplicate? && ActedOn(a) == e
  }

  /** Of every surviving entry the report says one thing or nothing: it is left
      unresolved, rewritten or merged, or kept in silence, and the unresolved entries
      are listed once each in the order of the map. */
  lemma {:induction false} EverySurvivorOnce(inv: Inventory, entries: seq<SyncEntry>, e: SyncEntry)
    requires Survives(entries, e)
    ensures var m := Migrate(inv, entries); IsNamed(m, e) || IsMoved(m, e) || Silent(inv, e)
    ensures var m := Migrate(inv, entries); !(IsNamed(m, e) && IsMoved(m, e))
    ensures var m := Migrate(inv, entries); Silent(inv, e) ==> !IsNamed(m, e) && !IsMoved(m, e)
    ensures var m := Migrate(inv, entries);
            UniqueIds(Named(m.unresolved)) && Subsequence(Named(m.unresolved), Survivors(entries, |entries|))
  {
    var s := Survivors(entries, |entries|);
    var m, d := Migrate(inv, entries), Decide(inv, s, e);
    DecisionExactly(inv, entries, e);
    forall p ensures p in m.unresolved && EntryOf(p) == e <==> d == KeepUnresolved(p) {
      UnresolvedExactly(inv, entries, p);
    }
    forall a ensures a in m.actions && !a.RawDuplicate? && ActedOn(a) == e <==> a in ActionOf(d, e) {
      ActionsExactly(inv, entries, a);
      TakenFor(inv, entries, a, e);
    }
    OneOfThree(m, d, e);
    DecisionsFit(inv, entries);
    SurvivorsAreLast(entries, |entries|);
    NamedOnce(s, Decisions(inv, s), |s|);
    NamedInOrder(s, Decisions(inv, s));
  }

  lemma {:induction false} OneOfThree(m: Migration, d: Decision, e: SyncEntry)
    requires forall p :: p in m.unresolved && EntryOf(p) == e <==> d == KeepUnresolved(p)
    requires forall a :: a in m.actions && !a.RawDuplicate? && ActedOn(a) == e <==> a in ActionOf(d, e)
    ensures IsNamed(m, e) <==> d.KeepUnresolved?
    ensures IsMoved(m, e) <==> d.Rewrite? || d.Merge?
  {
    match d
    case Keep =>
    case KeepUnresolved(p) =>
      assert p in m.unresolved && EntryOf(p) == e;
    case Rewrite(id) =>
      assert Rewritten(id, e) in ActionOf(d, e);
    case Merge(id) =>
      assert MergedRedundant(id, e) in ActionOf(d, e);
  }

  lemma {:induction false} SameMembers<T>(a: seq<T>, b: seq<T>, x: T)
    requires multiset(a) == multiset(b)
    ensures x in a <==> x in b
  {
    assert x in a <==> x in multiset(a);
    assert x in b <==> x in multiset(b);
  }

  /** The sorted report lists the same. */
  lemma {:induction false} SortedReportExactly(order: Order, json: SyncEntry -> string, inv: Inventory,
                                               entries: seq<SyncEntry>, p: Unresolved)
    requires TotalOrder(order)
    ensures
      var r := InReportOrder(order, json, Migrate(inv, entries));
      p in r.unresolved <==> Survives(entries, EntryOf(p)) && Explains(inv, entries, p)
  {
    var m := Migrate(inv, entries);
    ReportIsSorted(order, json, m);
    SameMembers(InReportOrder(order, json, m).unresolved, m.unresolved, p);
    UnresolvedExactly(inv, entries, p);
  }

  // ---------------------------------------------------------------------
  // The order of the report

  /** The number of the rule under which an entry is reported. */
  function RuleOfUnresolved(p: Unresolved): nat {
    match p
    case ContestedTarget(_, _, _) => 2
    case IssueConflict(_, _, _) => 6
    case UnresolvableCurrent(_) => 7
    case Orphan(_) => 8
  }

  function RuleOfAction(a: Action): nat {
    match a
    case RawDuplicate(_) => 1
    case Rewritten(_, _) => 4
    case MergedRedundant(_, _) => 5
  }

  /** By rule, then by task id, then by issue number, then by the serialized entry. */
  predicate ListedBefore(order: Order, json: SyncEntry -> string, rule: nat, e: SyncEntry, rule': nat, e': SyncEntry) {
    rule < rule' ||
    (rule == rule' &&
     ((e.taskId != e'.taskId && order(e.taskId, e'.taskId)) ||
      (e.taskId == e'.taskId && e.issueNumber < e'.issueNumber) ||
      (e.taskId == e'.taskId && e.issueNumber == e'.issueNumber && order(json(e), json(e')))))
  }

  /** Of two items of the report the earlier one has the lower rule, or the same rule and
      the smaller id, or these and the smaller issue number, or serialized entry. */
  lemma {:induction false} ReportFollowsRules(order: Order, json: SyncEntry -> string, m: Migration)
    requires TotalOrder(order)
    ensures
      var r := InReportOrder(order, json, m);
      && (forall i, j :: 0 <= i < j < |r.actions| ==>
           ListedBefore(order, json, RuleOfAction(r.actions[i]), ActedOn(r.actions[i]),
                        RuleOfAction(r.actions[j]), ActedOn(r.actions[j])))
      && (forall i, j :: 0 <= i < j < |r.unresolved| ==>
           ListedBefore(order, json, RuleOfUnresolved(r.unresolved[i]), EntryOf(r.unresolved[i]),
                        RuleOfUnresolved(r.unresolved[j]), EntryOf(r.unresolved[j])))
  {
    var r := InReportOrder(order, json, m);
    ReportIsSorted(order, json, m);
    forall i, j | 0 <= i < j < |r.actions|
      ensures ListedBefore(order, json, RuleOfAction(r.actions[i]), ActedOn(r.actions[i]),
                           RuleOfAction(r.actions[j]), ActedOn(r.actions[j]))
    {
      assert ActionsByRank(order, json)(r.actions[i], r.actions[j]);
    }
    forall i, j | 0 <= i < j < |r.unresolved|
      ensures ListedBefore(order, json, RuleOfUnresolved(r.unresolved[i]), EntryOf(r.unresolved[i]),
                           RuleOfUnresolved(r.unresolved[j]), EntryOf(r.unresolved[j]))
    {
      assert ProblemsByRank(order, json)(r.unresolved[i], r.unresolved[j]);
    }
  }
}
