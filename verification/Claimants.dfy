/** Which files claim a task id: the index behind duplicate-claimant refusals,
    the sync-map migration and the creators' ownership check. */
module Claimants {
  import opened Text
  import opened StableSort

  datatype Declaration = Declaration(fileName: string, declaredId: string)

  // ---------------------------------------------------------------------
  // Normalized ids

  const TASK_PREFIX := "TASK-"

  predicate BoundaryAt(s: string, i: nat)
    requires i <= |s|
  {
    (i > 0 && IsWord(s[i - 1])) != (i < |s| && IsWord(s[i]))
  }

  /** The end of the id pattern `\bTASK-\d+(?:-[A-Z]+)?\b` matched at `i`, or
      `i` when it does not match there. */
  function IdEnd(s: string, i: nat): (e: nat)
    requires i <= |s|
    ensures e == i || i + |TASK_PREFIX| < e <= |s|
  {
    if !OccursAt(s, TASK_PREFIX, i) || !BoundaryAt(s, i) then i
    else
      var d := i + |TASK_PREFIX|;
      var e := DigitsEnd(s, d);
      if e == d then i
      else
        var f := if e < |s| && s[e] == '-' then CapitalsEnd(s, e + 1) else e;
        if f > e + 1 && BoundaryAt(s, f) then f
        else if BoundaryAt(s, e) then e
        else i
  }

  /** The leftmost match of the id pattern at or after `i`. */
  function FindId(s: string, i: nat): (r: (nat, nat))
    requires i <= |s|
    ensures i <= r.0 <= r.1 <= |s|
    ensures r.0 < r.1 ==> r.1 == IdEnd(s, r.0)
    decreases |s| - i
  {
    if IdEnd(s, i) > i then (i, IdEnd(s, i))
    else if i == |s| then (i, i)
    else FindId(s, i + 1)
  }

  function NormalizeClaimantTaskId(taskId: string): string {
    var trimmed := Upper(Trim(taskId));
    var m := FindId(trimmed, 0);
    if m.0 < m.1 then trimmed[m.0..m.1] else trimmed
  }

  predicate Canonical(taskId: string) {
    NormalizeClaimantTaskId(taskId) == taskId
  }

  lemma {:induction false} UpperKeepsTrimmed(s: string)
    requires NoSpaceAtEnds(s)
    ensures NoSpaceAtEnds(Upper(s)) && Upper(Upper(s)) == Upper(s)
  {
  }

  /** Runs within a piece that is cut out. */
  lemma {:induction false} RunsInPiece(s: string, i: nat, end: nat, from: nat, to: nat)
    requires i <= from <= to <= end <= |s|
    ensures DigitsEnd(s, from) == to ==> DigitsEnd(s[i..end], from - i) == to - i
    ensures CapitalsEnd(s, from) == to ==> CapitalsEnd(s[i..end], from - i) == to - i
  {
    var m := s[i..end];
    assert forall k :: 0 <= k < |m| ==> m[k] == s[k + i];
    DigitRun(s, from, to);
    DigitRun(m, from - i, to - i);
    CapitalRun(s, from, to);
    CapitalRun(m, from - i, to - i);
  }

  /** A text that is nothing but an id matches as a whole. */
  lemma {:induction false} WholeIdMatches(m: string, e: nat)
    requires |TASK_PREFIX| < e <= |m| && OccursAt(m, TASK_PREFIX, 0) && DigitsEnd(m, |TASK_PREFIX|) == e
    requires IsWord(m[0]) && IsWord(m[|m| - 1])
    requires e < |m| ==> m[e] == '-' && CapitalsEnd(m, e + 1) == |m| > e + 1
    ensures IdEnd(m, 0) == |m|
  {
    assert BoundaryAt(m, 0) && BoundaryAt(m, |m|);
  }

  /** A matched id, cut out, matches as a whole. */
  lemma {:induction false} MatchStandsAlone(s: string, i: nat, end: nat)
    requires i <= |s| && IdEnd(s, i) == end > i
    ensures IdEnd(s[i..end], 0) == end - i
  {
    var m := s[i..end];
    var d := i + |TASK_PREFIX|;
    var e := DigitsEnd(s, d);
    assert OccursAt(m, TASK_PREFIX, 0) by { assert m[0..|TASK_PREFIX|] == s[i..d]; }
    RunsInPiece(s, i, end, d, e);
    if end > e {
      RunsInPiece(s, i, end, e + 1, end);
    }
    MatchEndsInWord(s, i);
    WholeIdMatches(m, e - i);
  }

  lemma {:induction false} MatchEndsInWord(s: string, i: nat)
    requires i <= |s| && IdEnd(s, i) > i
    ensures IsWord(s[i]) && IsWord(s[IdEnd(s, i) - 1])
  {
    var d, end := i + |TASK_PREFIX|, IdEnd(s, i);
    var e := DigitsEnd(s, d);
    assert s[i] == s[i..d][0];
    DigitRun(s, d, e);
    if end > e {
      CapitalRun(s, e + 1, end);
    }
  }

  lemma {:induction false} MatchIsTrimmed(s: string, i: nat, end: nat)
    requires i <= |s| && IdEnd(s, i) == end > i
    ensures NoSpaceAtEnds(s[i..end])
  {
    assert s[i] == s[i..i + |TASK_PREFIX|][0];
    var d := i + |TASK_PREFIX|;
    DigitRun(s, d, DigitsEnd(s, d));
    var e := DigitsEnd(s, d);
    if end > e {
      CapitalRun(s, e + 1, end);
    }
  }

  lemma {:induction false} WholeMatchIsCanonical(id: string)
    requires IdEnd(id, 0) == |id| > 0 && Trim(id) == id && Upper(id) == id
    ensures Canonical(id)
  {
    assert FindId(id, 0) == (0, |id|);
    assert NormalizeClaimantTaskId(id) == id[0..|id|];
  }

  /** Normalizing an id twice is normalizing it once. */
  lemma {:induction false} NormalizedIsCanonical(taskId: string)
    ensures Canonical(NormalizeClaimantTaskId(taskId))
  {
    var t := Upper(Trim(taskId));
    TrimmedEnds(taskId);
    UpperKeepsTrimmed(Trim(taskId));
    var m := FindId(t, 0);
    if m.0 < m.1 {
      var id := t[m.0..m.1];
      MatchStandsAlone(t, m.0, m.1);
      MatchIsTrimmed(t, m.0, m.1);
      TrimmedEnds(id);
      assert Upper(id) == id by {
        forall k | 0 <= k < |id| ensures UpperChar(id[k]) == id[k] {
          assert Upper(t)[m.0 + k] == t[m.0 + k];
        }
      }
      WholeMatchIsCanonical(id);
    } else {
      TrimmedEnds(t);
    }
  }

  /** The ids a task heading can declare: `TASK-` and digits, optionally with
      one letter, or `SAURUS-REM-` and three digits. */
  predicate HeadingId(id: string) {
    (StartsWith(id, TASK_PREFIX) &&
     var e := DigitsEnd(id, |TASK_PREFIX|);
     e > |TASK_PREFIX| && (e == |id| || (e + 2 == |id| && id[e] == '-' && IsUpper(id[e + 1])))) ||
    (StartsWith(id, "SAURUS-REM-") && |id| == 14 && forall k :: 11 <= k < 14 ==> IsDigit(id[k]))
  }

  lemma {:induction false} NoPrefixNoMatch(s: string, i: nat)
    requires i <= |s| && forall k :: i <= k < |s| ==> s[k] != 'T'
    ensures FindId(s, i).0 == FindId(s, i).1
    decreases |s| - i
  {
    assert TASK_PREFIX[0] == 'T';
    if i < |s| {
      NoPrefixNoMatch(s, i + 1);
    }
  }

  lemma {:induction false} HeadingIdsAreCanonical(id: string)
    requires HeadingId(id)
    ensures Canonical(id)
  {
    if StartsWith(id, TASK_PREFIX) {
      TaskIdsAreCanonical(id);
    } else {
      RemediationIdsAreCanonical(id);
    }
  }

  lemma {:induction false} RemediationIdsAreCanonical(id: string)
    requires |id| == 14 && id[..11] == "SAURUS-REM-" && forall k :: 11 <= k < 14 ==> IsDigit(id[k])
    ensures Canonical(id)
  {
    forall k | 0 <= k < |id| ensures id[k] != 'T' && UpperChar(id[k]) == id[k] {
      assert k < 11 ==> id[k] == "SAURUS-REM-"[k];
    }
    assert id[0] == "SAURUS-REM-"[0];
    assert NoSpaceAtEnds(id);
    TrimmedEnds(id);
    NoPrefixNoMatch(id, 0);
    assert Upper(id) == id;
  }

  lemma {:induction false} TaskIdsAreCanonical(id: string)
    requires HeadingId(id) && StartsWith(id, TASK_PREFIX)
    ensures Canonical(id)
  {
    assert forall k :: 0 <= k < 5 ==> id[k] == TASK_PREFIX[k];
    var e := DigitsEnd(id, |TASK_PREFIX|);
    assert OccursAt(id, TASK_PREFIX, 0);
    DigitRun(id, |TASK_PREFIX|, e);
    if e < |id| {
      CapitalRun(id, e + 1, |id|);
    }
    TrimmedEnds(id);
    assert IdEnd(id, 0) == |id|;
    assert Upper(id) == id;
    WholeMatchIsCanonical(id);
  }

  // ---------------------------------------------------------------------
  // The index

  /** The files that declare `id`, in the order they were scanned. */
  function ClaimantsOf(declarations: seq<Declaration>, id: string): seq<string> {
    if declarations == [] then []
    else
      var rest := ClaimantsOf(declarations[..|declarations| - 1], id);
      var last := declarations[|declarations| - 1];
      if last.declaredId == id then rest + [last.fileName] else rest
  }

  predicate Declares(declarations: seq<Declaration>, id: string) {
    exists k :: 0 <= k < |declarations| && declarations[k].declaredId == id
  }

  /** An id has two entries exactly when two declarations name it. */
  lemma {:induction false} ClaimantCount(declarations: seq<Declaration>, id: string)
    ensures |ClaimantsOf(declarations, id)| >= 1 <==> Declares(declarations, id)
    ensures |ClaimantsOf(declarations, id)| >= 2 <==>
            exists j, k :: 0 <= j < k < |declarations| && declarations[j].declaredId == id == declarations[k].declaredId
  {
    if declarations != [] {
      var n := |declarations| - 1;
      var init := declarations[..n];
      ClaimantCount(init, id);
      assert forall k :: 0 <= k < n ==> init[k] == declarations[k];
      if declarations[n].declaredId == id {
        if Declares(init, id) {
          var j :| 0 <= j < n && init[j].declaredId == id;
          assert declarations[j].declaredId == id == declarations[n].declaredId;
        }
      } else {
        if Declares(declarations, id) {
          var j :| 0 <= j < |declarations| && declarations[j].declaredId == id;
          assert init[j].declaredId == id;
        }
        if j, k :| 0 <= j < k < |declarations| && declarations[j].declaredId == id == declarations[k].declaredId {
          assert init[j].declaredId == id == init[k].declaredId;
        }
      }
    }
  }

  lemma {:induction false} OneMoreDeclaration(declarations: seq<Declaration>, d: Declaration, id: string)
    ensures ClaimantsOf(declarations + [d], id) ==
            ClaimantsOf(declarations, id) + if d.declaredId == id then [d.fileName] else []
    ensures Declares(declarations + [d], id) <==> id == d.declaredId || Declares(declarations, id)
  {
    var more := declarations + [d];
    assert more[..|more| - 1] == declarations && more[|declarations|] == d;
    if k :| 0 <= k < |declarations| && declarations[k].declaredId == id {
      assert more[k].declaredId == id;
    }
  }

  ghost predicate Groups(files: map<string, seq<string>>, declarations: seq<Declaration>) {
    (forall id :: id in files <==> Declares(declarations, id)) &&
    (forall id :: ClaimantsOf(declarations, id) == if id in files then files[id] else [])
  }

  lemma {:induction false} GroupsGrow(files: map<string, seq<string>>, declarations: seq<Declaration>, d: Declaration)
    requires Groups(files, declarations)
    ensures var existing := if d.declaredId in files then files[d.declaredId] else [];
            Groups(files[d.declaredId := existing + [d.fileName]], declarations + [d])
  {
    forall id {
      OneMoreDeclaration(declarations, d, id);
    }
  }

  method GroupTaskClaimantsByDeclaredId(declarations: seq<Declaration>) returns (files: map<string, seq<string>>)
    ensures forall id :: id in files <==> Declares(declarations, id)
    ensures forall id :: id in files ==> files[id] == ClaimantsOf(declarations, id)
  {
    files := map[];
    for i := 0 to |declarations|
      invariant Groups(files, declarations[..i])
    {
      var d := declarations[i];
      GroupsGrow(files, declarations[..i], d);
      var existing := if d.declaredId in files then files[d.declaredId] else [];
      files := files[d.declaredId := existing + [d.fileName]];
      assert declarations[..i + 1] == declarations[..i] + [d];
    }
    assert declarations[..|declarations|] == declarations;
  }

  function NormalizeDeclaration(d: Declaration): Declaration {
    Declaration(d.fileName, NormalizeClaimantTaskId(d.declaredId))
  }

  function NormalizeDeclarations(declarations: seq<Declaration>): (r: seq<Declaration>)
    ensures |r| == |declarations|
    ensures forall k :: 0 <= k < |r| ==> r[k] == NormalizeDeclaration(declarations[k])
  {
    seq(|declarations|, k requires 0 <= k < |declarations| => NormalizeDeclaration(declarations[k]))
  }

  /** The ids with more than one claimant, with normalized ids as keys. */
  predicate Contested(declarations: seq<Declaration>, id: string) {
    |ClaimantsOf(NormalizeDeclarations(declarations), id)| > 1
  }

  // ---------------------------------------------------------------------
  // The strict indexes, over a scan that may fail

  datatype Scan = NoProducer | ScanFailed(detail: string) | Listed(declarations: seq<Declaration>)

  datatype Index = Available(files: map<string, seq<string>>) | Unavailable(reason: string)

  const NO_SERVICE := "TaskService" + " is unavailable for claimant scan."
  const SCAN_FAILED := "Claimant scan"
  const NO_DUPLICATE_SERVICE := "TaskService is unavailable for duplicate claimant scan."
  const DUPLICATE_SCAN_FAILED := "Duplicate claimant scan"

  /** The files that declare an id, in normalized form, sorted by name. */
  function SortedClaimants(le: Order, declarations: seq<Declaration>, id: string): seq<string> {
    Sort(le, Itself, ClaimantsOf(NormalizeDeclarations(declarations), id))
  }

  method BuildStrictTaskClaimantIndex(le: Order, scan: Scan) returns (index: Index)
    ensures scan.NoProducer? ==> index == Unavailable(NO_SERVICE)
    ensures scan.ScanFailed? ==> index == Unavailable(SCAN_FAILED + " failed: " + scan.detail)
    ensures scan.Listed? ==> index.Available?
    ensures scan.Listed? ==>
              forall id :: id in index.files <==> Declares(NormalizeDeclarations(scan.declarations), id)
    ensures scan.Listed? ==>
              forall id :: id in index.files ==> index.files[id] == SortedClaimants(le, scan.declarations, id)
  {
    match scan {
      case NoProducer => return Unavailable(NO_SERVICE);
      case ScanFailed(detail) => return Unavailable(SCAN_FAILED + " failed: " + detail);
      case Listed(declarations) =>
        var claimants := GroupTaskClaimantsByDeclaredId(NormalizeDeclarations(declarations));
        return Available(map id | id in claimants :: Sort(le, Itself, claimants[id]));
    }
  }

  /** The contested ids with their claimants, or why they are not known. */
  method BuildStrictDuplicateClaimantIndex(le: Order, scan: Scan) returns (index: Index)
    ensures scan.NoProducer? ==> index == Unavailable(NO_DUPLICATE_SERVICE)
    ensures scan.ScanFailed? ==> index == Unavailable(DUPLICATE_SCAN_FAILED + " failed: " + scan.detail)
    ensures scan.Listed? ==> index.Available?
    ensures scan.Listed? ==> forall id :: id in index.files <==> Contested(scan.declarations, id)
    ensures scan.Listed? ==>
              forall id :: id in index.files ==> index.files[id] == SortedClaimants(le, scan.declarations, id)
  {
    var all := BuildStrictTaskClaimantIndex(le, scan);
    if all.Unavailable? {
      FailureIsNoAbsence(scan);
      return Unavailable(if all.reason == NO_SERVICE then NO_DUPLICATE_SERVICE
                         else DUPLICATE_SCAN_FAILED + all.reason[|SCAN_FAILED|..]);
    }
    forall id ensures id in all.files && |all.files[id]| > 1 <==> Contested(scan.declarations, id) {
      ClaimantCount(NormalizeDeclarations(scan.declarations), id);
      SortedCount(le, scan.declarations, id);
    }
    return Available(map id | id in all.files && |all.files[id]| > 1 :: all.files[id]);
  }

  lemma {:induction false} SortedCount(le: Order, declarations: seq<Declaration>, id: string)
    ensures |SortedClaimants(le, declarations, id)| == |ClaimantsOf(NormalizeDeclarations(declarations), id)|
  {
    var files := ClaimantsOf(NormalizeDeclarations(declarations), id);
    SortPermutes(le, Itself, files);
    assert |multiset(Sort(le, Itself, files))| == |multiset(files)|;
  }

  lemma {:induction false} FailureIsNoAbsence(scan: Scan)
    ensures scan.ScanFailed? ==>
              var reason := SCAN_FAILED + " failed: " + scan.detail;
              |SCAN_FAILED| <= |reason| && reason != NO_SERVICE && reason[|SCAN_FAILED|..] == " failed: " + scan.detail
  {
    if scan.ScanFailed? {
      var reason := SCAN_FAILED + " failed: " + scan.detail;
      assert reason[0] == 'C' && "TaskService"[0] == 'T';
    }
  }

  // ---------------------------------------------------------------------
  // The order of the scan does not matter

  function Count(p: Declaration -> bool, s: seq<Declaration>): nat {
    if s == [] then 0 else Count(p, s[..|s| - 1]) + if p(s[|s| - 1]) then 1 else 0
  }

  lemma {:induction false} CountAppend(p: Declaration -> bool, a: seq<Declaration>, b: seq<Declaration>)
    ensures Count(p, a + b) == Count(p, a) + Count(p, b)
    decreases |b|
  {
    if b == [] {
      assert a + b == a;
    } else {
      var n := |b| - 1;
      CountAppend(p, a, b[..n]);
      assert (a + b)[..|a| + n] == a + b[..n];
    }
  }

  lemma {:induction false} CountAround(p: Declaration -> bool, a: seq<Declaration>, d: Declaration, b: seq<Declaration>)
    ensures Count(p, a + [d] + b) == Count(p, a + b) + Count(p, [d])
  {
    CountAppend(p, a + [d], b);
    CountAppend(p, a, [d]);
    CountAppend(p, a, b);
  }

  /** Where the last element of a list is in one with the same elements. */
  lemma {:induction false} ElementsAround<T>(x: seq<T>, d: T, y: seq<T>)
    ensures multiset(x + [d] + y) == multiset(x + y) + multiset{d}
  {
  }

  lemma {:induction false} OneElementLess<T>(a: multiset<T>, b: multiset<T>, d: T)
    requires a + multiset{d} == b + multiset{d}
    ensures a == b
  {
    assert a == (a + multiset{d}) - multiset{d};
    assert b == (b + multiset{d}) - multiset{d};
  }

  lemma {:induction false} FindLast<T>(init: seq<T>, last: T, b: seq<T>) returns (x: seq<T>, y: seq<T>)
    requires multiset(init + [last]) == multiset(b)
    ensures b == x + [last] + y && multiset(init) == multiset(x + y)
  {
    assert last in init + [last];
    assert last in multiset(b);
    var k :| 0 <= k < |b| && b[k] == last;
    x, y := b[..k], b[k + 1..];
    assert b == x + [last] + y;
    ElementsAround(x, last, y);
    OneElementLess(multiset(init), multiset(x + y), last);
  }

  lemma {:induction false} CountAlike(p: Declaration -> bool, a: seq<Declaration>, b: seq<Declaration>)
    requires multiset(a) == multiset(b)
    ensures Count(p, a) == Count(p, b)
    decreases |a|
  {
    if a == [] {
      assert |multiset(b)| == 0;
    } else {
      var n := |a| - 1;
      assert a == a[..n] + [a[n]];
      var x, y := FindLast(a[..n], a[n], b);
      CountAround(p, x, a[n], y);
      CountAlike(p, a[..n], x + y);
      CountAppend(p, a[..n], [a[n]]);
    }
  }

  function Names(id: string, f: string): Declaration -> bool {
    (d: Declaration) => d.fileName == f && NormalizeClaimantTaskId(d.declaredId) == id
  }

  lemma {:induction false} OneMoreNormalized(declarations: seq<Declaration>, d: Declaration, id: string)
    ensures var files := ClaimantsOf(NormalizeDeclarations(declarations), id);
            ClaimantsOf(NormalizeDeclarations(declarations + [d]), id) ==
            if NormalizeClaimantTaskId(d.declaredId) == id then files + [d.fileName] else files
  {
    OneMoreDeclaration(NormalizeDeclarations(declarations), NormalizeDeclaration(d), id);
    assert NormalizeDeclarations(declarations + [d]) == NormalizeDeclarations(declarations) + [NormalizeDeclaration(d)];
  }

  lemma {:induction false} OneMoreFile(files: seq<string>, x: string, f: string)
    ensures multiset(files + [x])[f] == multiset(files)[f] + if x == f then 1 else 0
  {
  }

  predicate Counted(declarations: seq<Declaration>, id: string, f: string) {
    multiset(ClaimantsOf(NormalizeDeclarations(declarations), id))[f] == Count(Names(id, f), declarations)
  }

  lemma {:induction false} OneMoreCounted(init: seq<Declaration>, d: Declaration, id: string, f: string)
    requires Counted(init, id, f)
    ensures Counted(init + [d], id, f)
  {
    OneMoreNormalized(init, d, id);
    OneMoreFile(ClaimantsOf(NormalizeDeclarations(init), id), d.fileName, f);
    assert (init + [d])[..|init|] == init;
  }

  lemma {:induction false} NoneCounted(id: string, f: string)
    ensures Counted([], id, f)
  {
  }

  lemma {:induction false} EveryPrefix(p: seq<Declaration> -> bool, s: seq<Declaration>, n: nat)
    requires n <= |s| && p([]) && forall init, d :: p(init) ==> p(init + [d])
    ensures p(s[..n])
  {
    if n == 0 {
      assert s[..n] == [];
    } else {
      EveryPrefix(p, s, n - 1);
      assert s[..n] == s[..n - 1] + [s[n - 1]];
    }
  }

  lemma {:induction false} ClaimantsCounted(declarations: seq<Declaration>, id: string, f: string)
    ensures Counted(declarations, id, f)
  {
    NoneCounted(id, f);
    forall init, d | Counted(init, id, f) ensures Counted(init + [d], id, f) {
      OneMoreCounted(init, d, id, f);
    }
    EveryPrefix(s => Counted(s, id, f), declarations, |declarations|);
    assert declarations[..|declarations|] == declarations;
  }

  /** Two scans that list the same declarations in whatever order give the same
      claimants, in the same order, for every id. */
  lemma {:induction false} ScanOrderDoesNotMatter(le: Order, declarations: seq<Declaration>,
                                                  declarations': seq<Declaration>, id: string)
    requires TotalOrder(le) && multiset(declarations) == multiset(declarations')
    ensures SortedClaimants(le, declarations, id) == SortedClaimants(le, declarations', id)
    ensures Contested(declarations, id) <==> Contested(declarations', id)
  {
    var a := ClaimantsOf(NormalizeDeclarations(declarations), id);
    var b := ClaimantsOf(NormalizeDeclarations(declarations'), id);
    forall f ensures multiset(a)[f] == multiset(b)[f] {
      ClaimantsCounted(declarations, id, f);
      ClaimantsCounted(declarations', id, f);
      CountAlike(Names(id, f), declarations, declarations');
    }
    assert multiset(a) == multiset(b);
    SortOfTexts(le, a, b);
    SortedCount(le, declarations, id);
    SortedCount(le, declarations', id);
  }
}
