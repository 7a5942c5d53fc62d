/** Greedy alignment of two lists: each element of the first is matched with the
    first equal element of the second after the previous match, or with none. */
module Alignment {
  import opened Base

  /** The first index at or after `j` that holds `line`, or the length. */
  function Find<T(==)>(r: seq<T>, line: T, j: nat): (k: nat)
    requires j <= |r|
    ensures j <= k <= |r| && (k < |r| ==> r[k] == line)
    decreases |r| - j
  {
    if j == |r| || r[j] == line then j else Find(r, line, j + 1)
  }

  /** The matches of `o[i..]` in `r[j..]`. */
  function Greedy<T(==)>(o: seq<T>, r: seq<T>, i: nat, j: nat): (m: seq<Option<nat>>)
    requires i <= |o| && j <= |r|
    ensures |m| == |o| - i
    decreases |o| - i
  {
    if i == |o| then []
    else
      var k := Find(r, o[i], j);
      if k < |r| then [Some(k)] + Greedy(o, r, i + 1, k + 1) else [None] + Greedy(o, r, i + 1, j)
  }

  /** A strictly increasing, content-identical map from part of `o` to `r`. */
  ghost predicate Embeds<T>(o: seq<T>, r: seq<T>, m: seq<Option<nat>>) {
    |m| == |o| &&
    (forall a :: 0 <= a < |m| && m[a].Some? ==> m[a].value < |r| && r[m[a].value] == o[a]) &&
    (forall a, b :: 0 <= a < b < |m| && m[a].Some? && m[b].Some? ==> m[a].value < m[b].value)
  }

  lemma {:induction false} GreedyEmbeds<T>(o: seq<T>, r: seq<T>, i: nat, j: nat)
    requires i <= |o| && j <= |r|
    ensures Embeds(o[i..], r, Greedy(o, r, i, j))
    ensures forall k :: Some(k) in Greedy(o, r, i, j) ==> j <= k
    decreases |o| - i
  {
    if i < |o| {
      var k := Find(r, o[i], j);
      var next := if k < |r| then k + 1 else j;
      var rest := Greedy(o, r, i + 1, next);
      GreedyEmbeds(o, r, i + 1, next);
      assert o[i..][1..] == o[i + 1..];
      forall a | 0 <= a < |rest| && rest[a].Some? ensures next <= rest[a].value {
        assert Some(rest[a].value) in rest;
      }
    }
  }

  // ---------------------------------------------------------------------
  // Reports: what is said about unmatched elements on either side

  function Gathered<V>(reports: seq<seq<V>>, j: nat, k: nat): seq<V>
    requires j <= k <= |reports|
    decreases k - j
  {
    if j == k then [] else Gathered(reports, j, k - 1) + reports[k - 1]
  }

  /** The reports on the unmatched elements of `o[i..]` and `r[j..]`, in the
      order in which the alignment meets them. */
  function Report<T(==), V>(o: seq<T>, r: seq<T>, lost: seq<seq<V>>, extra: seq<seq<V>>, i: nat, j: nat): seq<V>
    requires |lost| == |o| && |extra| == |r| && i <= |o| && j <= |r|
    decreases |o| - i
  {
    if i == |o| then Gathered(extra, j, |r|)
    else
      var k := Find(r, o[i], j);
      if k < |r| then Gathered(extra, j, k) + Report(o, r, lost, extra, i + 1, k + 1)
      else lost[i] + Report(o, r, lost, extra, i + 1, j)
  }

  lemma {:induction false} NothingGathered<V>(reports: seq<seq<V>>, j: nat, k: nat)
    requires j <= k <= |reports|
    ensures Gathered(reports, j, k) == [] <==> forall x :: j <= x < k ==> reports[x] == []
    decreases k - j
  {
    if j < k {
      NothingGathered(reports, j, k - 1);
    }
  }

  ghost predicate LostQuiet<V>(m: seq<Option<nat>>, lost: seq<seq<V>>, i: nat)
    requires i + |m| == |lost|
  {
    forall a :: 0 <= a < |m| && m[a].None? ==> lost[i + a] == []
  }

  ghost predicate ExtraQuiet<V>(m: seq<Option<nat>>, extra: seq<seq<V>>, j: nat) {
    forall k :: j <= k < |extra| && Some(k) !in m ==> extra[k] == []
  }

  /** Nothing is said about the unmatched elements of `o[i..]` and `r[j..]`. */
  ghost predicate Silent<T, V>(o: seq<T>, r: seq<T>, lost: seq<seq<V>>, extra: seq<seq<V>>, i: nat, j: nat)
    requires |lost| == |o| && |extra| == |r| && i <= |o| && j <= |r|
  {
    LostQuiet(Greedy(o, r, i, j), lost, i) && ExtraQuiet(Greedy(o, r, i, j), extra, j)
  }

  lemma {:induction false} LostQuietStep<V>(first: Option<nat>, rest: seq<Option<nat>>, lost: seq<seq<V>>, i: nat)
    requires i + 1 + |rest| == |lost|
    ensures LostQuiet([first] + rest, lost, i) <==> (first.None? ==> lost[i] == []) && LostQuiet(rest, lost, i + 1)
  {
    var m := [first] + rest;
    if LostQuiet(m, lost, i) {
      assert m[0] == first;
      forall a | 0 <= a < |rest| && rest[a].None? ensures lost[i + 1 + a] == [] {
        assert m[a + 1].None?;
      }
    }
  }

  lemma {:induction false} ExtraQuietMatched<V>(k: nat, rest: seq<Option<nat>>, extra: seq<seq<V>>, j: nat)
    requires j <= k < |extra| && forall x :: 0 <= x <= k ==> Some(x) !in rest
    ensures ExtraQuiet([Some(k)] + rest, extra, j) <==>
            (forall x :: j <= x < k ==> extra[x] == []) && ExtraQuiet(rest, extra, k + 1)
  {
    assert forall x: nat :: Some(x) in [Some(k)] + rest <==> x == k || Some(x) in rest;
  }

  lemma {:induction false} ExtraQuietUnmatched<V>(rest: seq<Option<nat>>, extra: seq<seq<V>>, j: nat)
    ensures ExtraQuiet([None] + rest, extra, j) <==> ExtraQuiet(rest, extra, j)
  {
    assert forall x: nat :: Some(x) in [None] + rest <==> Some(x) in rest;
  }

  lemma {:induction false} SilentMatched<T, V>(
    o: seq<T>, r: seq<T>, lost: seq<seq<V>>, extra: seq<seq<V>>, i: nat, j: nat)
    requires |lost| == |o| && |extra| == |r| && i < |o| && j <= |r| && Find(r, o[i], j) < |r|
    ensures
      var k := Find(r, o[i], j);
      Silent(o, r, lost, extra, i, j) <==>
        (forall x :: j <= x < k ==> extra[x] == []) && Silent(o, r, lost, extra, i + 1, k + 1)
  {
    var k := Find(r, o[i], j);
    var rest := Greedy(o, r, i + 1, k + 1);
    GreedyEmbeds(o, r, i + 1, k + 1);
    assert Greedy(o, r, i, j) == [Some(k)] + rest;
    LostQuietStep(Some(k), rest, lost, i);
    ExtraQuietMatched(k, rest, extra, j);
  }

  lemma {:induction false} SilentUnmatched<T, V>(
    o: seq<T>, r: seq<T>, lost: seq<seq<V>>, extra: seq<seq<V>>, i: nat, j: nat)
    requires |lost| == |o| && |extra| == |r| && i < |o| && j <= |r| && Find(r, o[i], j) == |r|
    ensures Silent(o, r, lost, extra, i, j) <==> lost[i] == [] && Silent(o, r, lost, extra, i + 1, j)
  {
    var rest := Greedy(o, r, i + 1, j);
    assert Greedy(o, r, i, j) == [None] + rest;
    LostQuietStep(None, rest, lost, i);
    ExtraQuietUnmatched(rest, extra, j);
  }

  lemma {:induction false} EmptyConcatenation<V>(a: seq<V>, b: seq<V>)
    ensures a + b == [] <==> a == [] && b == []
  {
    assert |a + b| == |a| + |b|;
  }

  /** The same, step by step. */
  predicate QuietFrom<T(==), V(==)>(o: seq<T>, r: seq<T>, lost: seq<seq<V>>, extra: seq<seq<V>>, i: nat, j: nat)
    requires |lost| == |o| && |extra| == |r| && i <= |o| && j <= |r|
    decreases |o| - i
  {
    if i == |o| then forall x :: j <= x < |r| ==> extra[x] == []
    else
      var k := Find(r, o[i], j);
      if k < |r| then (forall x :: j <= x < k ==> extra[x] == []) && QuietFrom(o, r, lost, extra, i + 1, k + 1)
      else lost[i] == [] && QuietFrom(o, r, lost, extra, i + 1, j)
  }

  lemma {:induction false} ReportIsQuiet<T, V>(
    o: seq<T>, r: seq<T>, lost: seq<seq<V>>, extra: seq<seq<V>>, i: nat, j: nat)
    requires |lost| == |o| && |extra| == |r| && i <= |o| && j <= |r|
    ensures Report(o, r, lost, extra, i, j) == [] <==> QuietFrom(o, r, lost, extra, i, j)
    decreases |o| - i
  {
    if i == |o| {
      NothingGathered(extra, j, |r|);
    } else {
      var k := Find(r, o[i], j);
      if k < |r| {
        NothingGathered(extra, j, k);
        EmptyConcatenation(Gathered(extra, j, k), Report(o, r, lost, extra, i + 1, k + 1));
        ReportIsQuiet(o, r, lost, extra, i + 1, k + 1);
      } else {
        EmptyConcatenation(lost[i], Report(o, r, lost, extra, i + 1, j));
        ReportIsQuiet(o, r, lost, extra, i + 1, j);
      }
    }
  }

  lemma {:induction false} SilentIsQuiet<T, V>(
    o: seq<T>, r: seq<T>, lost: seq<seq<V>>, extra: seq<seq<V>>, i: nat, j: nat)
    requires |lost| == |o| && |extra| == |r| && i <= |o| && j <= |r|
    ensures Silent(o, r, lost, extra, i, j) <==> QuietFrom(o, r, lost, extra, i, j)
    decreases |o| - i
  {
    if i < |o| {
      var k := Find(r, o[i], j);
      if k < |r| {
        SilentMatched(o, r, lost, extra, i, j);
        SilentIsQuiet(o, r, lost, extra, i + 1, k + 1);
      } else {
        SilentUnmatched(o, r, lost, extra, i, j);
        SilentIsQuiet(o, r, lost, extra, i + 1, j);
      }
    }
  }

  /** The report is empty exactly when nothing is said about any unmatched
      element. */
  lemma {:induction false} ReportIsEmptyExactly<T, V>(
    o: seq<T>, r: seq<T>, lost: seq<seq<V>>, extra: seq<seq<V>>, i: nat, j: nat)
    requires |lost| == |o| && |extra| == |r| && i <= |o| && j <= |r|
    ensures Report(o, r, lost, extra, i, j) == [] <==> Silent(o, r, lost, extra, i, j)
  {
    ReportIsQuiet(o, r, lost, extra, i, j);
    SilentIsQuiet(o, r, lost, extra, i, j);
  }

  /** What is left of a report when only `v` counts. */
  function Only<V(==)>(v: V, report: seq<V>): seq<V> {
    if v in report then [v] else []
  }

  function EachOnly<V(==)>(v: V, reports: seq<seq<V>>): (t: seq<seq<V>>)
    ensures |t| == |reports| && forall i :: 0 <= i < |t| ==> t[i] == Only(v, reports[i])
  {
    seq(|reports|, i requires 0 <= i < |reports| => Only(v, reports[i]))
  }

  /** One report says `v` exactly when the other says anything. */
  predicate Masks<V(==)>(v: V, report: seq<V>, masked: seq<V>) {
    v in report <==> masked != []
  }

  lemma {:induction false} MasksBoth<V>(v: V, a: seq<V>, a': seq<V>, b: seq<V>, b': seq<V>)
    requires Masks(v, a, a') && Masks(v, b, b')
    ensures Masks(v, a + b, a' + b')
  {
    EmptyConcatenation(a', b');
  }

  lemma {:induction false} MasksGathered<V>(v: V, reports: seq<seq<V>>, j: nat, k: nat)
    requires j <= k <= |reports|
    ensures Masks(v, Gathered(reports, j, k), Gathered(EachOnly(v, reports), j, k))
    decreases k - j
  {
    if j < k {
      var masked := EachOnly(v, reports);
      MasksGathered(v, reports, j, k - 1);
      MasksBoth(v, Gathered(reports, j, k - 1), Gathered(masked, j, k - 1), reports[k - 1], masked[k - 1]);
    }
  }

  lemma {:induction false} MasksReport<T, V>(
    o: seq<T>, r: seq<T>, lost: seq<seq<V>>, extra: seq<seq<V>>, v: V, i: nat, j: nat)
    requires |lost| == |o| && |extra| == |r| && i <= |o| && j <= |r|
    ensures Masks(v, Report(o, r, lost, extra, i, j), Report(o, r, EachOnly(v, lost), EachOnly(v, extra), i, j))
    decreases |o| - i
  {
    var lost', extra' := EachOnly(v, lost), EachOnly(v, extra);
    if i == |o| {
      MasksGathered(v, extra, j, |r|);
    } else {
      var k := Find(r, o[i], j);
      var next := if k < |r| then k + 1 else j;
      var rest, rest' := Report(o, r, lost, extra, i + 1, next), Report(o, r, lost', extra', i + 1, next);
      MasksReport(o, r, lost, extra, v, i + 1, next);
      if k < |r| {
        MasksGathered(v, extra, j, k);
        MasksBoth(v, Gathered(extra, j, k), Gathered(extra', j, k), rest, rest');
      } else {
        MasksBoth(v, lost[i], lost'[i], rest, rest');
      }
    }
  }

  /** The report says exactly what is said about an unmatched element. */
  lemma {:induction false} InReportExactly<T, V>(
    o: seq<T>, r: seq<T>, lost: seq<seq<V>>, extra: seq<seq<V>>, v: V)
    requires |lost| == |o| && |extra| == |r|
    ensures
      var m := Greedy(o, r, 0, 0);
      v in Report(o, r, lost, extra, 0, 0) <==>
        (exists i :: 0 <= i < |o| && m[i].None? && v in lost[i]) ||
        (exists k :: 0 <= k < |r| && Some(k) !in m && v in extra[k])
  {
    var lost', extra' := EachOnly(v, lost), EachOnly(v, extra);
    MasksReport(o, r, lost, extra, v, 0, 0);
    ReportIsEmptyExactly(o, r, lost', extra', 0, 0);
    assert forall i :: 0 <= i < |o| ==> (lost'[i] == [] <==> v !in lost[i]);
    assert forall k :: 0 <= k < |r| ==> (extra'[k] == [] <==> v !in extra[k]);
  }

  // ---------------------------------------------------------------------
  // Insertions only

  /** `r[j..]` is `o[i..]` with elements inserted. */
  ghost predicate Within<T>(o: seq<T>, r: seq<T>, i: nat, j: nat)
    requires i <= |o| && j <= |r|
    decreases |o| - i
  {
    i == |o| || exists k :: j <= k < |r| && r[k] == o[i] && Within(o, r, i + 1, k + 1)
  }

  lemma {:induction false} WithinEarlier<T>(o: seq<T>, r: seq<T>, i: nat, j: nat, j': nat)
    requires i <= |o| && j' <= j <= |r| && Within(o, r, i, j)
    ensures Within(o, r, i, j')
  {
  }

  lemma {:induction false} FindIsFirst<T>(r: seq<T>, line: T, j: nat, k: nat)
    requires j <= k < |r| && r[k] == line
    ensures Find(r, line, j) <= k
    decreases k - j
  {
    if r[j] != line {
      FindIsFirst(r, line, j + 1, k);
    }
  }

  function UnmatchedIn<T(==)>(o: seq<T>, r: seq<T>, i: nat, j: nat): seq<T>
    requires i <= |o| && j <= |r|
    decreases |o| - i
  {
    if i == |o| then r[j..]
    else
      var k := Find(r, o[i], j);
      if k < |r| then r[j..k] + UnmatchedIn(o, r, i + 1, k + 1) else UnmatchedIn(o, r, i + 1, j)
  }

  /** The first candidate leaves room for the rest. */
  lemma {:induction false} LeftmostSuffices<T>(o: seq<T>, r: seq<T>, i: nat, j: nat)
    requires i < |o| && j <= |r| && Within(o, r, i, j)
    ensures Find(r, o[i], j) < |r| && Within(o, r, i + 1, Find(r, o[i], j) + 1)
  {
    var k :| j <= k < |r| && r[k] == o[i] && Within(o, r, i + 1, k + 1);
    FindIsFirst(r, o[i], j, k);
    WithinEarlier(o, r, i + 1, k + 1, Find(r, o[i], j) + 1);
  }

  /** Leftmost matching loses nothing: when `o[i..]` lies within `r[j..]`, every
      element of it is matched. */
  lemma {:induction false} GreedyFindsAll<T>(o: seq<T>, r: seq<T>, i: nat, j: nat)
    requires i <= |o| && j <= |r| && Within(o, r, i, j)
    ensures None !in Greedy(o, r, i, j)
    decreases |o| - i
  {
    if i < |o| {
      LeftmostSuffices(o, r, i, j);
      GreedyFindsAll(o, r, i + 1, Find(r, o[i], j) + 1);
    }
  }

  /** Leaving `un` unmatched, `o` is matched in `r`, as multisets. */
  ghost predicate Accounts<T>(un: seq<T>, o: seq<T>, r: seq<T>) {
    multiset(un) + multiset(o) == multiset(r)
  }

  lemma {:induction false} AccountsStep<T>(skipped: seq<T>, un: seq<T>, x: T, o: seq<T>, r: seq<T>)
    requires Accounts(un, o, r)
    ensures Accounts(skipped + un, [x] + o, skipped + [x] + r)
  {
  }

  lemma {:induction false} CutAt<T>(s: seq<T>, i: nat, j: nat)
    requires i <= j < |s|
    ensures s[i..] == s[i..j] + [s[j]] + s[j + 1..]
  {
  }

  lemma {:induction false} AccountsFrom<T>(o: seq<T>, r: seq<T>, i: nat, j: nat, k: nat, rest: seq<T>)
    requires i < |o| && j <= k < |r| && r[k] == o[i] && Accounts(rest, o[i + 1..], r[k + 1..])
    ensures Accounts(r[j..k] + rest, o[i..], r[j..])
  {
    AccountsStep(r[j..k], rest, o[i], o[i + 1..], r[k + 1..]);
    assert o[i..] == [o[i]] + o[i + 1..];
    CutAt(r, j, k);
  }

  /** What it leaves unmatched is, as a multiset, exactly what was inserted. */
  lemma {:induction false} UnmatchedIsInserted<T>(o: seq<T>, r: seq<T>, i: nat, j: nat)
    requires i <= |o| && j <= |r| && Within(o, r, i, j)
    ensures Accounts(UnmatchedIn(o, r, i, j), o[i..], r[j..])
    decreases |o| - i
  {
    if i == |o| {
      assert o[i..] == [];
    } else {
      var k := Find(r, o[i], j);
      LeftmostSuffices(o, r, i, j);
      UnmatchedIsInserted(o, r, i + 1, k + 1);
      AccountsFrom(o, r, i, j, k, UnmatchedIn(o, r, i + 1, k + 1));
    }
  }

  /** The elements of `r[j..]` outside the image are the unmatched ones. */
  lemma {:induction false} UnmatchedAreOutside<T>(o: seq<T>, r: seq<T>, i: nat, j: nat, line: T)
    requires i <= |o| && j <= |r|
    ensures line in UnmatchedIn(o, r, i, j) <==>
            exists k :: j <= k < |r| && Some(k) !in Greedy(o, r, i, j) && r[k] == line
    decreases |o| - i
  {
    var m := Greedy(o, r, i, j);
    if i == |o| {
      assert forall k :: j <= k < |r| ==> r[j..][k - j] == r[k];
    } else {
      var k := Find(r, o[i], j);
      var next := if k < |r| then k + 1 else j;
      var rest := Greedy(o, r, i + 1, next);
      UnmatchedAreOutside(o, r, i + 1, next, line);
      GreedyEmbeds(o, r, i + 1, next);
      if k < |r| {
        assert forall x :: Some(x) in m <==> x == k || Some(x) in rest;
        assert forall x :: j <= x < k ==> r[j..k][x - j] == r[x];
      } else {
        assert forall x :: Some(x) in m <==> Some(x) in rest;
      }
    }
  }

  // ---------------------------------------------------------------------
  // Order-preserving survival

  predicate Subsequence<T(==)>(a: seq<T>, b: seq<T>) {
    a == [] || (b != [] && ((a[0] == b[0] && Subsequence(a[1..], b[1..])) || Subsequence(a, b[1..])))
  }

  lemma {:induction false} SubsequenceReflexive<T>(a: seq<T>)
    ensures Subsequence(a, a)
  {
    if a != [] {
      SubsequenceReflexive(a[1..]);
    }
  }

  lemma {:induction false} SubsequenceSkips<T>(a: seq<T>, b: seq<T>)
    requires a != [] && Subsequence(a, b)
    ensures Subsequence(a[1..], b)
    decreases |b|
  {
    if a[0] == b[0] && Subsequence(a[1..], b[1..]) {
      if |a| > 1 {
        SubsequencePrepend(a[1..], b[0], b[1..]);
      }
    } else {
      SubsequenceSkips(a, b[1..]);
      SubsequencePrepend(a[1..], b[0], b[1..]);
    }
  }

  lemma {:induction false} SubsequencePrepend<T>(a: seq<T>, x: T, b: seq<T>)
    requires Subsequence(a, b)
    ensures Subsequence(a, [x] + b)
  {
    assert ([x] + b)[1..] == b;
  }

  lemma {:induction false} SubsequenceTransitive<T>(a: seq<T>, b: seq<T>, c: seq<T>)
    requires Subsequence(a, b) && Subsequence(b, c)
    ensures Subsequence(a, c)
    decreases |c|
  {
    if a != [] {
      if b[0] == c[0] && Subsequence(b[1..], c[1..]) {
        if a[0] == b[0] && Subsequence(a[1..], b[1..]) {
          SubsequenceTransitive(a[1..], b[1..], c[1..]);
        } else {
          SubsequenceTransitive(a, b[1..], c[1..]);
        }
      } else {
        SubsequenceTransitive(a, b, c[1..]);
      }
    }
  }

  lemma {:induction false} SubsequenceAppend<T>(a: seq<T>, b: seq<T>, x: T)
    requires Subsequence(a, b)
    ensures Subsequence(a, b + [x]) && Subsequence(a + [x], b + [x])
    decreases |b|
  {
    if a == [] {
      LastIsSubsequence(b, x);
      assert a + [x] == [x];
    } else {
      assert (b + [x])[1..] == b[1..] + [x];
      assert (a + [x])[1..] == a[1..] + [x];
      if a[0] == b[0] && Subsequence(a[1..], b[1..]) {
        SubsequenceAppend(a[1..], b[1..], x);
      } else {
        SubsequenceAppend(a, b[1..], x);
      }
    }
  }

  lemma {:induction false} LastIsSubsequence<T>(b: seq<T>, x: T)
    ensures Subsequence([x], b + [x])
    decreases |b|
  {
    if b != [] {
      LastIsSubsequence(b[1..], x);
      assert (b + [x])[1..] == b[1..] + [x];
    }
  }

  /** Those of the first `n` elements that are flagged. */
  function Chosen<T>(s: seq<T>, flags: seq<bool>, n: nat): seq<T>
    requires n <= |s| == |flags|
  {
    if n == 0 then [] else if flags[n - 1] then Chosen(s, flags, n - 1) + [s[n - 1]] else Chosen(s, flags, n - 1)
  }

  lemma {:induction false} UpTo<T>(s: seq<T>, n: nat)
    requires 0 < n <= |s|
    ensures s[..n] == s[..n - 1] + [s[n - 1]]
  {
  }

  lemma {:induction false} ChosenInOrder<T>(s: seq<T>, flags: seq<bool>, n: nat)
    requires n <= |s| == |flags|
    ensures Subsequence(Chosen(s, flags, n), s[..n])
  {
    if n > 0 {
      ChosenInOrder(s, flags, n - 1);
      UpTo(s, n);
      SubsequenceAppend(Chosen(s, flags, n - 1), s[..n - 1], s[n - 1]);
    }
  }

  lemma {:induction false} ChosenMembers<T>(s: seq<T>, flags: seq<bool>, n: nat, x: T)
    requires n <= |s| == |flags|
    ensures x in Chosen(s, flags, n) <==> exists i :: 0 <= i < n && flags[i] && s[i] == x
  {
    if n > 0 {
      ChosenMembers(s, flags, n - 1, x);
    }
  }

  function Filter<T>(p: T -> bool, s: seq<T>): seq<T> {
    if s == [] then [] else if p(s[0]) then [s[0]] + Filter(p, s[1..]) else Filter(p, s[1..])
  }

  lemma {:induction false} FilterFrom<T>(p: T -> bool, s: seq<T>, i: nat)
    requires i < |s|
    ensures Filter(p, s[i..]) == (if p(s[i]) then [s[i]] else []) + Filter(p, s[i + 1..])
  {
    assert s[i..][1..] == s[i + 1..];
  }

  lemma {:induction false} FilterSkips<T>(p: T -> bool, r: seq<T>, j: nat, k: nat, a: seq<T>)
    requires j <= k <= |r| && Subsequence(a, Filter(p, r[k..]))
    ensures Subsequence(a, Filter(p, r[j..]))
    decreases k - j
  {
    if j < k {
      FilterSkips(p, r, j + 1, k, a);
      FilterFrom(p, r, j);
      if p(r[j]) {
        SubsequencePrepend(a, r[j], Filter(p, r[j + 1..]));
      }
    }
  }

  lemma {:induction false} SubsequenceMatch<T>(x: T, a: seq<T>, b: seq<T>)
    requires Subsequence(a, b)
    ensures Subsequence([x] + a, [x] + b)
  {
    assert ([x] + a)[1..] == a && ([x] + b)[1..] == b;
  }

  /** If the alignment loses no element satisfying `p`, those elements survive,
      identical and in order. */
  lemma {:induction false} AlignmentKeeps<T>(p: T -> bool, o: seq<T>, r: seq<T>, i: nat, j: nat)
    requires i <= |o| && j <= |r|
    requires forall a :: 0 <= a < |o| - i && Greedy(o, r, i, j)[a].None? ==> !p(o[i + a])
    ensures Subsequence(Filter(p, o[i..]), Filter(p, r[j..]))
    decreases |o| - i
  {
    if i < |o| {
      var k := Find(r, o[i], j);
      var next := if k < |r| then k + 1 else j;
      var m, rest := Greedy(o, r, i, j), Greedy(o, r, i + 1, next);
      assert m == [if k < |r| then Some(k) else None] + rest;
      forall a | 0 <= a < |rest| && rest[a].None? ensures !p(o[i + 1 + a]) {
        assert m[a + 1].None?;
      }
      AlignmentKeeps(p, o, r, i + 1, next);
      FilterFrom(p, o, i);
      if k < |r| {
        FilterFrom(p, r, k);
        if p(o[i]) {
          SubsequenceMatch(o[i], Filter(p, o[i + 1..]), Filter(p, r[k + 1..]));
        }
        FilterSkips(p, r, j, k, Filter(p, o[i..]));
      } else {
        assert m[0].None?;
      }
    }
  }
}
