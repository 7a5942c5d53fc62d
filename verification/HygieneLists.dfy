/** The two lists of the structural report that status does not touch: ids that
    several files declare, and tasks that are superseded. */
module HygieneLists {
  import opened Claimants
  import opened StableSort
  import opened TaskHygiene

  datatype Duplicate = Duplicate(taskId: string, files: seq<string>)

  datatype Supersession = Supersession(taskId: string, supersededBy: seq<string>)

  function DuplicateKey(d: Duplicate): string { d.taskId }

  function SupersessionKey(s: Supersession): string { s.taskId }

  // ---------------------------------------------------------------------
  // The lists before they are sorted

  /** The declared ids of the first `n`, in order of first occurrence, as the map by
      id lists them. */
  function Ids(ds: seq<Declaration>, n: nat): seq<string>
    requires n <= |ds|
  {
    if n == 0 then []
    else if ds[n - 1].declaredId in Ids(ds, n - 1) then Ids(ds, n - 1)
    else Ids(ds, n - 1) + [ds[n - 1].declaredId]
  }

  function DuplicateOf(plain: Order, ds: seq<Declaration>, id: string): Duplicate {
    Duplicate(id, Sort(plain, Itself, ClaimantsOf(ds, id)))
  }

  predicate SeveralFiles(ds: seq<Declaration>, id: string) {
    |ClaimantsOf(ds, id)| > 1
  }

  function Duplicates(plain: Order, ds: seq<Declaration>, ids: seq<string>, n: nat): seq<Duplicate>
    requires n <= |ids|
  {
    if n == 0 then []
    else if SeveralFiles(ds, ids[n - 1]) then Duplicates(plain, ds, ids, n - 1) + [DuplicateOf(plain, ds, ids[n - 1])]
    else Duplicates(plain, ds, ids, n - 1)
  }

  function Superseded(sources: seq<Source>, n: nat): seq<Supersession>
    requires n <= |sources|
  {
    if n == 0 then []
    else if |sources[n - 1].supersededBy| > 0 then
      Superseded(sources, n - 1) + [Supersession(sources[n - 1].id, sources[n - 1].supersededBy)]
    else Superseded(sources, n - 1)
  }

  // ---------------------------------------------------------------------
  // As they are built

  method IdsInOrder(ds: seq<Declaration>) returns (ids: seq<string>)
    ensures ids == Ids(ds, |ds|)
  {
    ids := [];
    for i := 0 to |ds|
      invariant ids == Ids(ds, i)
    {
      if ds[i].declaredId !in ids {
        ids := ids + [ds[i].declaredId];
      }
    }
  }

  /** Ids are listed in the order `le`, the files of one id in the order `plain`. */
  method BuildDuplicateIds(le: Order, plain: Order, sources: seq<Source>) returns (duplicates: seq<Duplicate>)
    ensures var ds := DeclarationsOf(sources);
            var ids := Ids(ds, |ds|);
            duplicates == Sort(le, DuplicateKey, Duplicates(plain, ds, ids, |ids|))
  {
    var ds := DeclarationsOf(sources);
    var files := GroupTaskClaimantsByDeclaredId(ds);
    var ids := IdsInOrder(ds);
    duplicates := [];
    for i := 0 to |ids|
      invariant duplicates == Duplicates(plain, ds, ids, i)
    {
      IdsAreDeclared(ds, |ds|, ids[i]);
      if |files[ids[i]]| > 1 {
        duplicates := duplicates + [Duplicate(ids[i], Sort(plain, Itself, files[ids[i]]))];
      }
    }
    duplicates := Sort(le, DuplicateKey, duplicates);
  }

  method BuildSuperseded(le: Order, sources: seq<Source>) returns (superseded: seq<Supersession>)
    ensures superseded == Sort(le, SupersessionKey, Superseded(sources, |sources|))
  {
    superseded := [];
    for i := 0 to |sources|
      invariant superseded == Superseded(sources, i)
    {
      if |sources[i].supersededBy| > 0 {
        superseded := superseded + [Supersession(sources[i].id, sources[i].supersededBy)];
      }
    }
    superseded := Sort(le, SupersessionKey, superseded);
  }

  // ---------------------------------------------------------------------
  // What the lists hold

  lemma {:induction false} IdsAreDeclared(ds: seq<Declaration>, n: nat, id: string)
    requires n <= |ds|
    ensures id in Ids(ds, n) <==> exists k :: 0 <= k < n && ds[k].declaredId == id
  {
    if n > 0 {
      IdsAreDeclared(ds, n - 1, id);
    }
  }

  lemma {:induction false} IdsAreDistinct(ds: seq<Declaration>, n: nat)
    requires n <= |ds|
    ensures forall i, j :: 0 <= i < j < |Ids(ds, n)| ==> Ids(ds, n)[i] != Ids(ds, n)[j]
  {
    if n > 0 {
      IdsAreDistinct(ds, n - 1);
    }
  }

  /** One entry for a contested id, none for another one. */
  lemma {:induction false} DuplicatesOfId(plain: Order, ds: seq<Declaration>, ids: seq<string>, n: nat, id: string)
    requires n <= |ids| && forall i, j :: 0 <= i < j < |ids| ==> ids[i] != ids[j]
    ensures WithKey(DuplicateKey, Duplicates(plain, ds, ids, n), id) ==
            if id in ids[..n] && SeveralFiles(ds, id) then [DuplicateOf(plain, ds, id)] else []
  {
    if n > 0 {
      var before := Duplicates(plain, ds, ids, n - 1);
      DuplicatesOfId(plain, ds, ids, n - 1, id);
      assert ids[..n] == ids[..n - 1] + [ids[n - 1]];
      assert ids[n - 1] !in ids[..n - 1];
      WithKeyAppend(DuplicateKey, before, [DuplicateOf(plain, ds, ids[n - 1])], id);
    }
  }

  /** The list of duplicate ids holds, for every id, one entry with its sorted files
      when several files declare it, and none otherwise. */
  lemma {:induction false} DuplicateIdsExactly(le: Order, plain: Order, sources: seq<Source>, id: string)
    requires TotalOrder(le)
    ensures var ds := DeclarationsOf(sources);
            var ids := Ids(ds, |ds|);
            WithKey(DuplicateKey, Sort(le, DuplicateKey, Duplicates(plain, ds, ids, |ids|)), id) ==
            if SeveralFiles(ds, id) then [DuplicateOf(plain, ds, id)] else []
  {
    var ds := DeclarationsOf(sources);
    var ids := Ids(ds, |ds|);
    IdsAreDistinct(ds, |ds|);
    DuplicatesOfId(plain, ds, ids, |ids|, id);
    SortIsStable(le, DuplicateKey, Duplicates(plain, ds, ids, |ids|), id);
    IdsAreDeclared(ds, |ds|, id);
    ClaimantCount(ds, id);
    assert ids[..|ids|] == ids;
  }

  /** The entries of one id among the superseded ones, in file order. */
  function SupersededOf(sources: seq<Source>, id: string, n: nat): seq<Supersession>
    requires n <= |sources|
  {
    if n == 0 then []
    else if sources[n - 1].id == id && |sources[n - 1].supersededBy| > 0 then
      SupersededOf(sources, id, n - 1) + [Supersession(id, sources[n - 1].supersededBy)]
    else SupersededOf(sources, id, n - 1)
  }

  lemma {:induction false} SupersededOfId(sources: seq<Source>, id: string, n: nat)
    requires n <= |sources|
    ensures WithKey(SupersessionKey, Superseded(sources, n), id) == SupersededOf(sources, id, n)
  {
    if n > 0 {
      SupersededOfId(sources, id, n - 1);
      WithKeyAppend(SupersessionKey, Superseded(sources, n - 1),
                    [Supersession(sources[n - 1].id, sources[n - 1].supersededBy)], id);
    }
  }

  /** Every superseding file has its own entry, also when ids are duplicated. */
  lemma {:induction false} SupersededExactly(le: Order, sources: seq<Source>, id: string)
    requires TotalOrder(le)
    ensures WithKey(SupersessionKey, Sort(le, SupersessionKey, Superseded(sources, |sources|)), id) ==
            SupersededOf(sources, id, |sources|)
  {
    SortIsStable(le, SupersessionKey, Superseded(sources, |sources|), id);
    SupersededOfId(sources, id, |sources|);
  }
}
