/** Which tasks are excluded from automation and why, told from the spec files and the
    resolved statuses alone. */
module HygieneVerdicts {
  import opened Base
  import opened Alignment
  import opened Claimants
  import opened StableSort
  import opened TaskHygiene

  /** Two files declare the id. */
  ghost predicate Doubled(sources: seq<Source>, id: string) {
    exists i, j :: 0 <= i < j < |sources| && sources[i].id == id && sources[j].id == id
  }

  /** A reason to exclude the task of file `i`. */
  ghost predicate Reason(sources: seq<Source>, i: nat, input: Input, r: Issue)
    requires i < |sources|
  {
    var s := sources[i];
    match r
    case DuplicateId(id, files) =>
      id == s.id && Doubled(sources, id) && files == ClaimantsOf(DeclarationsOf(sources), id)
    case Superseded(id, heirs) => id == s.id && heirs == s.supersededBy && heirs != []
    case OnHold(id) => id == s.id && input.status == "ON_HOLD"
    case Rejected(id) => id == s.id && input.status == "REJECTED"
  }

  function Rank(r: Issue): nat {
    match r
    case DuplicateId(_, _) => 0
    case Superseded(_, _) => 1
    case OnHold(_) => 2
    case Rejected(_) => 3
  }

  ghost predicate Ranked(reasons: seq<Issue>) {
    forall a, b :: 0 <= a < b < |reasons| ==> Rank(reasons[a]) < Rank(reasons[b])
  }

  /** The status that is shown: the resolved one, if it changed and has a canonical
      form. */
  predicate Shows(normalize: Normalizer, input: Input, status: string) {
    if input.status != input.specStatus && normalize(input.status).Some? then Some(status) == normalize(input.status)
    else status == input.specStatus
  }

  /** The row of file `i` in the report. */
  ghost predicate RowFor(normalize: Normalizer, sources: seq<Source>, i: nat, input: Input, row: Row)
    requires i < |sources|
  {
    row.taskId == sources[i].id && row.title == sources[i].title && Shows(normalize, input, row.status) &&
    Ranked(row.reasons) && forall r :: r in row.reasons <==> Reason(sources, i, input, r)
  }

  lemma {:induction false} DoubledExactly(sources: seq<Source>, id: string)
    ensures |ClaimantsOf(DeclarationsOf(sources), id)| > 1 <==> Doubled(sources, id)
  {
    var ds := DeclarationsOf(sources);
    ClaimantCount(ds, id);
    if i, j :| 0 <= i < j < |ds| && ds[i].declaredId == id && ds[j].declaredId == id {
      assert sources[i].id == id && sources[j].id == id;
    }
    if Doubled(sources, id) {
      var i, j :| 0 <= i < j < |sources| && sources[i].id == id && sources[j].id == id;
      assert ds[i].declaredId == id && ds[j].declaredId == id;
    }
  }

  predicate AtMostOne(reasons: seq<Issue>, rank: nat) {
    reasons == [] || (|reasons| == 1 && Rank(reasons[0]) == rank)
  }

  lemma {:induction false} FourReasons(a: seq<Issue>, b: seq<Issue>, c: seq<Issue>, d: seq<Issue>)
    requires AtMostOne(a, 0) && AtMostOne(b, 1) && AtMostOne(c, 2) && AtMostOne(d, 3)
    ensures Ranked((a + b) + (c + d))
    ensures forall r :: r in (a + b) + (c + d) <==> r in a || r in b || r in c || r in d
  {
  }

  function DoubledReason(sources: seq<Source>, i: nat): seq<Issue>
    requires i < |sources|
  {
    var s := sources[i];
    var files := ClaimantsOf(DeclarationsOf(sources), s.id);
    if |files| > 1 then [DuplicateId(s.id, files)] else []
  }

  lemma {:induction false} StructuralReasonsAre(sources: seq<Source>, i: nat, input: Input, r: Issue)
    requires i < |sources|
    ensures
      var s := sources[i];
      var superseded := if |s.supersededBy| > 0 then [Superseded(s.id, s.supersededBy)] else [];
      && (r in DoubledReason(sources, i) <==> r.DuplicateId? && Reason(sources, i, input, r))
      && (r in superseded <==> r.Superseded? && Reason(sources, i, input, r))
  {
    DoubledExactly(sources, sources[i].id);
  }

  lemma {:induction false} StatusReasonsAre(sources: seq<Source>, i: nat, input: Input, r: Issue)
    requires i < |sources|
    ensures
      var s := sources[i];
      var held := if input.status == "ON_HOLD" then [OnHold(s.id)] else [];
      var rejected := if input.status == "REJECTED" then [Rejected(s.id)] else [];
      && (r in held <==> r.OnHold? && Reason(sources, i, input, r))
      && (r in rejected <==> r.Rejected? && Reason(sources, i, input, r))
  {
  }

  lemma {:induction false} EvaluationReasons(sources: seq<Source>, i: nat, input: Input)
    requires i < |sources|
    ensures
      var reasons := Evaluate(StructuralAt(sources, i), sources[i], input).reasons;
      Ranked(reasons) && forall r :: r in reasons <==> Reason(sources, i, input, r)
  {
    var s := sources[i];
    var doubled := DoubledReason(sources, i);
    var superseded := if |s.supersededBy| > 0 then [Superseded(s.id, s.supersededBy)] else [];
    var held := if input.status == "ON_HOLD" then [OnHold(s.id)] else [];
    var rejected := if input.status == "REJECTED" then [Rejected(s.id)] else [];
    var reasons := Evaluate(StructuralAt(sources, i), s, input).reasons;
    assert reasons == (doubled + superseded) + (held + rejected);
    FourReasons(doubled, superseded, held, rejected);
    forall r ensures r in reasons <==> Reason(sources, i, input, r) {
      StructuralReasonsAre(sources, i, input, r);
      StatusReasonsAre(sources, i, input, r);
    }
  }

  lemma {:induction false} OneRowIsRowFor(normalize: Normalizer, sources: seq<Source>, i: nat, input: Input)
    requires i < |sources|
    ensures RowFor(normalize, sources, i, input, OneRow(normalize, StructuralAt(sources, i), sources[i], input))
  {
    EvaluationReasons(sources, i, input);
  }

  lemma {:induction false} HasMember(a: seq<Issue>)
    requires a != []
    ensures exists r :: r in a
  {
    assert a[0] in a;
  }

  /** Reasons in order of rank are determined by which they are. */
  lemma {:induction false} RankedIsDetermined(a: seq<Issue>, b: seq<Issue>)
    requires Ranked(a) && Ranked(b) && forall r :: r in a <==> r in b
    ensures a == b
  {
    if b != [] {
      HasMember(b);
    }
    if a != [] {
      HasMember(a);
      FirstIsLeast(a, b);
      FirstIsLeast(b, a);
      assert a[0] == b[0];
      forall r ensures r in a[1..] <==> r in b[1..] {
        RestOfRanked(a, r);
        RestOfRanked(b, r);
      }
      RankedIsDetermined(a[1..], b[1..]);
      assert a == [a[0]] + a[1..] && b == [b[0]] + b[1..];
    }
  }

  lemma {:induction false} FirstIsLeast(a: seq<Issue>, b: seq<Issue>)
    requires a != [] && b != [] && Ranked(a) && Ranked(b) && forall r :: r in a ==> r in b
    ensures Rank(b[0]) <= Rank(a[0]) && (Rank(a[0]) == Rank(b[0]) ==> a[0] == b[0])
  {
    assert a[0] in b;
    var k :| 0 <= k < |b| && b[k] == a[0];
  }

  lemma {:induction false} RestOfRanked(a: seq<Issue>, r: Issue)
    requires a != [] && Ranked(a)
    ensures r in a[1..] <==> r in a && r != a[0]
  {
    assert a == [a[0]] + a[1..];
    if r in a[1..] {
      var k :| 0 <= k < |a[1..]| && a[1..][k] == r;
      assert a[k + 1] == r;
    }
  }

  lemma {:induction false} RowIsDetermined(normalize: Normalizer, sources: seq<Source>, i: nat, input: Input, x: Row, y: Row)
    requires i < |sources| && RowFor(normalize, sources, i, input, x) && RowFor(normalize, sources, i, input, y)
    ensures x == y
  {
    RankedIsDetermined(x.reasons, y.reasons);
  }

  lemma {:induction false} RowForExactly(normalize: Normalizer, sources: seq<Source>, i: nat, input: Input, row: Row)
    requires i < |sources|
    ensures
      var h := StructuralAt(sources, i);
      && (RowFor(normalize, sources, i, input, row) <==> row == OneRow(normalize, h, sources[i], input))
      && (Evaluate(h, sources[i], input).dispatchBlocked <==> OneRow(normalize, h, sources[i], input).reasons != [])
  {
    OneRowIsRowFor(normalize, sources, i, input);
    if RowFor(normalize, sources, i, input, row) {
      RowIsDetermined(normalize, sources, i, input, row, OneRow(normalize, StructuralAt(sources, i), sources[i], input));
    }
  }

  ghost predicate ListedFor(normalize: Normalizer, sources: seq<Source>, inputs: seq<Input>, row: Row, i: int) {
    0 <= i < |sources| == |inputs| && RowFor(normalize, sources, i, inputs[i], row) && row.reasons != []
  }

  /** The rows of all files, and which of them are listed. */
  function RowsOfAll(normalize: Normalizer, sources: seq<Source>, inputs: seq<Input>): (r: seq<Row>)
    requires |sources| == |inputs|
    ensures |r| == |sources|
    ensures forall i :: 0 <= i < |r| ==> r[i] == OneRow(normalize, StructuralAt(sources, i), sources[i], inputs[i])
  {
    seq(|sources|, i requires 0 <= i < |sources| => OneRow(normalize, StructuralAt(sources, i), sources[i], inputs[i]))
  }

  function BlockedOfAll(sources: seq<Source>, inputs: seq<Input>): (b: seq<bool>)
    requires |sources| == |inputs|
    ensures |b| == |sources|
    ensures forall i :: 0 <= i < |b| ==> b[i] == Evaluate(StructuralAt(sources, i), sources[i], inputs[i]).dispatchBlocked
  {
    seq(|sources|, i requires 0 <= i < |sources| =>
      Evaluate(StructuralAt(sources, i), sources[i], inputs[i]).dispatchBlocked)
  }

  /** The list with one more file, when these are the rows and these are listed. */
  predicate Extends(lists: seq<seq<Row>>, rows: seq<Row>, flags: seq<bool>, k: nat) {
    0 < k < |lists| == |rows| + 1 == |flags| + 1 &&
    lists[k] == if flags[k - 1] then lists[k - 1] + [rows[k - 1]] else lists[k - 1]
  }

  lemma {:induction false} ListsAreChosen(lists: seq<seq<Row>>, rows: seq<Row>, flags: seq<bool>, n: nat)
    requires n < |lists| == |rows| + 1 == |flags| + 1 && lists[0] == []
    requires forall k :: 0 < k < |lists| ==> Extends(lists, rows, flags, k)
    ensures lists[n] == Chosen(rows, flags, n)
  {
    if n > 0 {
      ListsAreChosen(lists, rows, flags, n - 1);
      assert Extends(lists, rows, flags, n);
    }
  }

  /** The rows of the first `n` files, for every `n`. */
  function Lists(normalize: Normalizer, sources: seq<Source>, inputs: seq<Input>): (r: seq<seq<Row>>)
    requires |sources| == |inputs|
    ensures |r| == |sources| + 1
  {
    seq(|sources| + 1, n requires 0 <= n <= |sources| => OneRows(normalize, Structural(sources), sources, inputs, n))
  }

  lemma {:induction false} ListsExtend(normalize: Normalizer, sources: seq<Source>, inputs: seq<Input>, k: nat)
    requires 0 < k <= |sources| == |inputs|
    ensures Extends(Lists(normalize, sources, inputs), RowsOfAll(normalize, sources, inputs),
                    BlockedOfAll(sources, inputs), k)
  {
    assert Structural(sources)[k - 1] == StructuralAt(sources, k - 1);
  }

  lemma {:induction false} OneRowsAreChosen(normalize: Normalizer, sources: seq<Source>, inputs: seq<Input>)
    requires |sources| == |inputs|
    ensures
      Lists(normalize, sources, inputs)[|sources|] ==
        Chosen(RowsOfAll(normalize, sources, inputs), BlockedOfAll(sources, inputs), |sources|)
  {
    var lists, rows := Lists(normalize, sources, inputs), RowsOfAll(normalize, sources, inputs);
    var flags := BlockedOfAll(sources, inputs);
    forall k | 0 < k < |lists| ensures Extends(lists, rows, flags, k) {
      ListsExtend(normalize, sources, inputs, k);
    }
    ListsAreChosen(lists, rows, flags, |sources|);
  }

  lemma {:induction false} OneRowsMembers(normalize: Normalizer, sources: seq<Source>, inputs: seq<Input>, row: Row)
    requires |sources| == |inputs|
    ensures row in OneRows(normalize, Structural(sources), sources, inputs, |sources|) <==>
            exists i :: ListedFor(normalize, sources, inputs, row, i)
  {
    var rows, flags := RowsOfAll(normalize, sources, inputs), BlockedOfAll(sources, inputs);
    OneRowsAreChosen(normalize, sources, inputs);
    ChosenMembers(rows, flags, |sources|, row);
    forall i | 0 <= i < |sources|
      ensures ListedFor(normalize, sources, inputs, row, i) <==> flags[i] && rows[i] == row
    {
      RowForExactly(normalize, sources, i, inputs[i], row);
    }
  }

  /** The report of the two phases: a task file has a row exactly when its id is doubled,
      it is superseded, or its resolved status is ON_HOLD or REJECTED, and the row gives
      exactly these reasons and the status that was resolved. */
  lemma {:induction false} ExcludedExactly(le: Order, normalize: Normalizer, sources: seq<Source>, inputs: seq<Input>,
                                           row: Row)
    requires TotalOrder(le) && Aligned(sources, inputs)
    ensures
      var structural := Sort(le, RowKey, StructuralRows(sources, Structural(sources), |sources|));
      row in ResolvedRows(le, normalize, structural, inputs) <==>
        exists i :: ListedFor(normalize, sources, inputs, row, i)
  {
    var one := OneRows(normalize, Structural(sources), sources, inputs, |sources|);
    TwoPhaseRowsAreOnePassRows(le, normalize, sources, inputs);
    SortPermutes(le, RowKey, one);
    OneRowsMembers(normalize, sources, inputs, row);
    assert row in Sort(le, RowKey, one) <==> row in multiset(Sort(le, RowKey, one));
    assert row in one <==> row in multiset(one);
  }

  /** Whether dispatch is blocked for an id: the last file that declares it decides. */
  lemma {:induction false} BlockedExactly(sources: seq<Source>, inputs: seq<Input>, id: string, i: nat)
    requires Aligned(sources, inputs) && LastWith(sources, id, |sources|) == Some(i)
    ensures
      var byId := ResolvedById(StructuralById(sources, Structural(sources), |sources|), inputs);
      i < |sources| && id in byId &&
      (byId[id].dispatchBlocked <==> exists r :: Reason(sources, i, inputs[i], r)) &&
      forall r :: r in byId[id].reasons <==> Reason(sources, i, inputs[i], r)
  {
    var hs := Structural(sources);
    TwoPhaseMapIsOnePassMap(sources, inputs);
    LastWins(hs, sources, inputs, map[], id, |sources|);
    EvaluationReasons(sources, i, inputs[i]);
    assert hs[i] == StructuralAt(sources, i);
    var reasons := Evaluate(hs[i], sources[i], inputs[i]).reasons;
    assert reasons != [] ==> reasons[0] in reasons;
  }
}
