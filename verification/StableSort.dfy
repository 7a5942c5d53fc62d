/** A stable sort by key, and what determines its result. */
module StableSort {

  type Order = (string, string) -> bool

  ghost predicate TotalOrder(le: Order) {
    (forall a, b :: le(a, b) || le(b, a)) &&
    (forall a, b :: le(a, b) && le(b, a) ==> a == b) &&
    (forall a, b, c :: le(a, b) && le(b, c) ==> le(a, c))
  }

  /** Whether one element may stand before another. */
  type Comparison<!T> = (T, T) -> bool

  /** `x` goes before the first element that may not stand before it. */
  function InsertBy<T>(before: Comparison<T>, x: T, s: seq<T>): seq<T> {
    if s == [] then [x]
    else if before(s[0], x) then [s[0]] + InsertBy(before, x, s[1..])
    else [x] + s
  }

  function SortBy<T>(before: Comparison<T>, s: seq<T>): seq<T> {
    if s == [] then [] else InsertBy(before, s[|s| - 1], SortBy(before, s[..|s| - 1]))
  }

  function ByKey<T>(le: Order, key: T -> string): Comparison<T> {
    (x, y) => le(key(x), key(y))
  }

  function Insert<T>(le: Order, key: T -> string, x: T, s: seq<T>): seq<T> {
    InsertBy(ByKey(le, key), x, s)
  }

  function Sort<T>(le: Order, key: T -> string, s: seq<T>): seq<T> {
    SortBy(ByKey(le, key), s)
  }

  ghost predicate Sorted<T>(le: Order, key: T -> string, s: seq<T>) {
    forall i, j :: 0 <= i < j < |s| ==> le(key(s[i]), key(s[j]))
  }

  /** The elements with one key, in order. */
  function WithKey<T>(key: T -> string, s: seq<T>, k: string): seq<T> {
    if s == [] then []
    else if key(s[0]) == k then [s[0]] + WithKey(key, s[1..], k)
    else WithKey(key, s[1..], k)
  }

  lemma {:induction false} WithKeyAppend<T>(key: T -> string, a: seq<T>, b: seq<T>, k: string)
    ensures WithKey(key, a + b, k) == WithKey(key, a, k) + WithKey(key, b, k)
    decreases |a|
  {
    if a == [] {
      assert a + b == b;
    } else {
      assert (a + b)[1..] == a[1..] + b;
      WithKeyAppend(key, a[1..], b, k);
    }
  }

  lemma {:induction false} WithKeyFinds<T>(key: T -> string, s: seq<T>, k: string)
    ensures WithKey(key, s, k) == [] <==> forall x :: x in s ==> key(x) != k
    ensures forall x :: x in WithKey(key, s, k) ==> key(x) == k && x in s
  {
    if s != [] {
      WithKeyFinds(key, s[1..], k);
      assert s[0] in s && forall x :: x in s <==> x == s[0] || x in s[1..];
    }
  }

  lemma {:induction false} InsertMembers<T>(le: Order, key: T -> string, x: T, s: seq<T>, y: T)
    ensures y in Insert(le, key, x, s) <==> y == x || y in s
  {
    if s != [] {
      InsertMembers(le, key, x, s[1..], y);
      assert y in s <==> y == s[0] || y in s[1..];
    }
  }

  lemma {:induction false} SortedParts<T>(le: Order, key: T -> string, x: T, s: seq<T>)
    requires Sorted(le, key, s) && forall y :: y in s ==> le(key(x), key(y))
    ensures Sorted(le, key, [x] + s)
  {
  }

  lemma {:induction false} InsertSorts<T>(le: Order, key: T -> string, x: T, s: seq<T>)
    requires TotalOrder(le) && Sorted(le, key, s)
    ensures Sorted(le, key, Insert(le, key, x, s))
  {
    if s != [] {
      if le(key(s[0]), key(x)) {
        InsertSorts(le, key, x, s[1..]);
        forall y | y in Insert(le, key, x, s[1..]) ensures le(key(s[0]), key(y)) {
          InsertMembers(le, key, x, s[1..], y);
        }
        SortedParts(le, key, s[0], Insert(le, key, x, s[1..]));
      } else {
        forall y | y in s ensures le(key(x), key(y)) {
          var i :| 0 <= i < |s| && s[i] == y;
          assert le(key(x), key(s[0])) && (i > 0 ==> le(key(s[0]), key(s[i])));
        }
        SortedParts(le, key, x, s);
      }
    }
  }

  lemma {:induction false} SortSorts<T>(le: Order, key: T -> string, s: seq<T>)
    requires TotalOrder(le)
    ensures Sorted(le, key, Sort(le, key, s))
  {
    if s != [] {
      SortSorts(le, key, s[..|s| - 1]);
      InsertSorts(le, key, s[|s| - 1], Sort(le, key, s[..|s| - 1]));
    }
  }

  /** An insertion puts its element after those with the same key. */
  lemma {:induction false} InsertIsStable<T>(le: Order, key: T -> string, x: T, s: seq<T>, k: string)
    requires TotalOrder(le) && Sorted(le, key, s)
    ensures WithKey(key, Insert(le, key, x, s), k) == WithKey(key, s, k) + WithKey(key, [x], k)
  {
    if s == [] {
    } else if le(key(s[0]), key(x)) {
      var rest := Insert(le, key, x, s[1..]);
      InsertIsStable(le, key, x, s[1..], k);
      assert ([s[0]] + rest)[1..] == rest;
    } else {
      assert ([x] + s)[1..] == s && [x][1..] == [];
      if key(x) == k {
        LargerKeys(le, key, x, s);
        WithKeyFinds(key, s, k);
      }
    }
  }

  lemma {:induction false} LargerKeys<T>(le: Order, key: T -> string, x: T, s: seq<T>)
    requires TotalOrder(le) && Sorted(le, key, s) && s != [] && !le(key(s[0]), key(x))
    ensures forall y :: y in s ==> key(y) != key(x)
  {
    forall y | y in s ensures key(y) != key(x) {
      var i :| 0 <= i < |s| && s[i] == y;
      assert i > 0 ==> le(key(s[0]), key(s[i]));
    }
  }

  /** Sorting keeps the elements of each key, in their order. */
  lemma {:induction false} SortIsStable<T>(le: Order, key: T -> string, s: seq<T>, k: string)
    requires TotalOrder(le)
    ensures WithKey(key, Sort(le, key, s), k) == WithKey(key, s, k)
  {
    if s != [] {
      var init := s[..|s| - 1];
      SortIsStable(le, key, init, k);
      SortSorts(le, key, init);
      InsertIsStable(le, key, s[|s| - 1], Sort(le, key, init), k);
      WithKeyAppend(key, init, [s[|s| - 1]], k);
      assert s == init + [s[|s| - 1]];
    }
  }

  lemma {:induction false} WithoutFirst<T>(key: T -> string, s: seq<T>, k: string)
    requires s != []
    ensures WithKey(key, s[1..], k) == if key(s[0]) == k then WithKey(key, s, k)[1..] else WithKey(key, s, k)
  {
  }

  lemma {:induction false} FirstIsFound<T>(key: T -> string, s: seq<T>)
    ensures s != [] ==> WithKey(key, s, key(s[0])) != [] && WithKey(key, s, key(s[0]))[0] == s[0]
  {
  }

  ghost predicate SameOfEachKey<T>(key: T -> string, a: seq<T>, b: seq<T>) {
    forall k :: WithKey(key, a, k) == WithKey(key, b, k)
  }

  lemma {:induction false} SameTails<T>(key: T -> string, a: seq<T>, b: seq<T>)
    requires a != [] && b != [] && SameOfEachKey(key, a, b) && key(a[0]) == key(b[0])
    ensures a[0] == b[0] && SameOfEachKey(key, a[1..], b[1..])
  {
    assert WithKey(key, a, key(a[0])) == WithKey(key, b, key(a[0]));
    FirstIsFound(key, a);
    FirstIsFound(key, b);
    forall k ensures WithKey(key, a[1..], k) == WithKey(key, b[1..], k) {
      assert WithKey(key, a, k) == WithKey(key, b, k);
      WithoutFirst(key, a, k);
      WithoutFirst(key, b, k);
    }
  }

  /** A sorted list is determined by its elements of each key. */
  lemma {:induction false} SortedIsDetermined<T>(le: Order, key: T -> string, a: seq<T>, b: seq<T>)
    requires TotalOrder(le) && Sorted(le, key, a) && Sorted(le, key, b) && SameOfEachKey(key, a, b)
    ensures a == b
  {
    FirstIsFound(key, a);
    FirstIsFound(key, b);
    if a != [] && b != [] {
      FirstKeyIsLeast(le, key, a, b);
      FirstKeyIsLeast(le, key, b, a);
      SameTails(key, a, b);
      SortedIsDetermined(le, key, a[1..], b[1..]);
      assert a == [a[0]] + a[1..] && b == [b[0]] + b[1..];
    }
  }

  lemma {:induction false} FirstKeyIsLeast<T>(le: Order, key: T -> string, a: seq<T>, b: seq<T>)
    requires TotalOrder(le) && Sorted(le, key, a) && a != [] && b != []
    requires SameOfEachKey(key, a, b)
    ensures le(key(a[0]), key(b[0]))
  {
    var k := key(b[0]);
    assert WithKey(key, a, k) == WithKey(key, b, k);
    WithKeyFinds(key, b, k);
    WithKeyFinds(key, a, k);
    var x :| x in a && key(x) == k;
    var i :| 0 <= i < |a| && a[i] == x;
    assert i > 0 ==> le(key(a[0]), key(a[i]));
  }

  /** Stable sorting is determined by the elements of each key. */
  lemma {:induction false} SameSort<T>(le: Order, key: T -> string, a: seq<T>, b: seq<T>)
    requires TotalOrder(le) && SameOfEachKey(key, a, b)
    ensures Sort(le, key, a) == Sort(le, key, b)
  {
    SortSorts(le, key, a);
    SortSorts(le, key, b);
    forall k ensures WithKey(key, Sort(le, key, a), k) == WithKey(key, Sort(le, key, b), k) {
      SortIsStable(le, key, a, k);
      SortIsStable(le, key, b, k);
      assert WithKey(key, a, k) == WithKey(key, b, k);
    }
    SortedIsDetermined(le, key, Sort(le, key, a), Sort(le, key, b));
  }

  // ---------------------------------------------------------------------
  // Sorting keeps the elements; a list of texts sorted by themselves depends on
  // nothing else

  lemma {:induction false} InsertAdds<T>(before: Comparison<T>, x: T, s: seq<T>)
    ensures multiset(InsertBy(before, x, s)) == multiset(s) + multiset{x}
  {
    if s != [] {
      InsertAdds(before, x, s[1..]);
      assert s == [s[0]] + s[1..];
    }
  }

  lemma {:induction false} SortByPermutes<T>(before: Comparison<T>, s: seq<T>)
    ensures multiset(SortBy(before, s)) == multiset(s)
  {
    if s != [] {
      var n := |s| - 1;
      SortByPermutes(before, s[..n]);
      InsertAdds(before, s[n], SortBy(before, s[..n]));
      assert s == s[..n] + [s[n]];
    }
  }

  lemma {:induction false} SortPermutes<T>(le: Order, key: T -> string, s: seq<T>)
    ensures multiset(Sort(le, key, s)) == multiset(s)
  {
    SortByPermutes(ByKey(le, key), s);
  }

  /** Any two elements can be compared, and the comparison is transitive. */
  ghost predicate TotalPreorder<T(!new)>(before: Comparison<T>) {
    (forall x, y :: before(x, y) || before(y, x)) && forall x, y, z :: before(x, y) && before(y, z) ==> before(x, z)
  }

  ghost predicate SortedBy<T>(before: Comparison<T>, s: seq<T>) {
    forall i, j :: 0 <= i < j < |s| ==> before(s[i], s[j])
  }

  lemma {:induction false} FirstOfSorted<T(!new)>(before: Comparison<T>, x: T, s: seq<T>)
    requires SortedBy(before, s) && forall y :: y in s ==> before(x, y)
    ensures SortedBy(before, [x] + s)
  {
  }

  lemma {:induction false} InsertBySorts<T(!new)>(before: Comparison<T>, x: T, s: seq<T>)
    requires TotalPreorder(before) && SortedBy(before, s)
    ensures SortedBy(before, InsertBy(before, x, s))
  {
    if s != [] && before(s[0], x) {
      InsertBySorts(before, x, s[1..]);
      InsertAdds(before, x, s[1..]);
      forall y | y in InsertBy(before, x, s[1..]) ensures before(s[0], y) {
        assert y in multiset(s[1..]) + multiset{x};
      }
      FirstOfSorted(before, s[0], InsertBy(before, x, s[1..]));
    } else if s != [] {
      forall y | y in s ensures before(x, y) {
        var i :| 0 <= i < |s| && s[i] == y;
        assert i > 0 ==> before(s[0], s[i]);
      }
      FirstOfSorted(before, x, s);
    }
  }

  lemma {:induction false} SortBySorts<T(!new)>(before: Comparison<T>, s: seq<T>)
    requires TotalPreorder(before)
    ensures SortedBy(before, SortBy(before, s))
  {
    if s != [] {
      SortBySorts(before, s[..|s| - 1]);
      InsertBySorts(before, s[|s| - 1], SortBy(before, s[..|s| - 1]));
    }
  }

  function Itself(s: string): string { s }

  function Copies(x: string, n: nat): seq<string> {
    if n == 0 then [] else [x] + Copies(x, n - 1)
  }

  lemma {:induction false} WithItself(s: seq<string>, k: string)
    ensures WithKey(Itself, s, k) == Copies(k, multiset(s)[k])
  {
    if s != [] {
      var rest := s[1..];
      WithItself(rest, k);
      assert s == [s[0]] + rest;
      assert multiset(s)[k] == multiset(rest)[k] + if s[0] == k then 1 else 0;
    }
  }

  lemma {:induction false} SortOfTexts(le: Order, a: seq<string>, b: seq<string>)
    requires TotalOrder(le) && multiset(a) == multiset(b)
    ensures Sort(le, Itself, a) == Sort(le, Itself, b)
  {
    forall k ensures WithKey(Itself, a, k) == WithKey(Itself, b, k) {
      WithItself(a, k);
      WithItself(b, k);
    }
    SameSort(le, Itself, a, b);
  }
}
