/** Backlog hygiene in two phases: what the spec files alone decide, and what each
    task's resolved status adds to it later. */
module TaskHygiene {
  import opened Base
  import opened Claimants
  import opened StableSort

  datatype Source = Source(id: string, title: string, status: string, supersededBy: seq<string>, file: string)

  /** A task's resolved state. */
  datatype Input = Input(taskId: string, title: string, status: string, specStatus: string)

  datatype Issue =
    | DuplicateId(taskId: string, files: seq<string>)
    | Superseded(taskId: string, supersededBy: seq<string>)
    | OnHold(taskId: string)
    | Rejected(taskId: string)

  datatype Hygiene = Hygiene(dispatchBlocked: bool, reasons: seq<Issue>)

  /** A row of the excluded candidates. */
  datatype Row = Row(taskId: string, title: string, status: string, reasons: seq<Issue>)

  function RowKey(r: Row): string { r.taskId }

  function InputKey(i: Input): string { i.taskId }

  type Normalizer = string -> Option<string>

  // ---------------------------------------------------------------------
  // One task

  function EvaluateStructuralTaskHygiene(s: Source, duplicateFiles: seq<string>): Hygiene {
    var reasons := (if |duplicateFiles| > 1 then [DuplicateId(s.id, duplicateFiles)] else []) +
                   (if |s.supersededBy| > 0 then [Superseded(s.id, s.supersededBy)] else []);
    Hygiene(|reasons| > 0, reasons)
  }

  function EvaluateStatusTaskHygiene(taskId: string, status: string): Hygiene {
    var reasons := (if status == "ON_HOLD" then [OnHold(taskId)] else []) +
                   (if status == "REJECTED" then [Rejected(taskId)] else []);
    Hygiene(|reasons| > 0, reasons)
  }

  function MergeTaskBacklogHygiene(a: Option<Hygiene>, b: Hygiene): Hygiene {
    var reasons := (if a.Some? then a.value.reasons else []) + b.reasons;
    Hygiene(|reasons| > 0, reasons)
  }

  function ReportedStatus(normalize: Normalizer, input: Input): string {
    if input.status == input.specStatus then input.specStatus
    else match normalize(input.status) case Some(status) => status case None => input.specStatus
  }

  // ---------------------------------------------------------------------
  // Phase one

  function DeclarationsOf(sources: seq<Source>): (ds: seq<Declaration>)
    ensures |ds| == |sources|
    ensures forall i :: 0 <= i < |ds| ==> ds[i] == Declaration(sources[i].file, sources[i].id)
  {
    seq(|sources|, i requires 0 <= i < |sources| => Declaration(sources[i].file, sources[i].id))
  }

  function StructuralAt(sources: seq<Source>, i: nat): Hygiene
    requires i < |sources|
  {
    EvaluateStructuralTaskHygiene(sources[i], ClaimantsOf(DeclarationsOf(sources), sources[i].id))
  }

  /** The structural hygiene of every source. */
  function Structural(sources: seq<Source>): (hs: seq<Hygiene>)
    ensures |hs| == |sources|
  {
    seq(|sources|, i requires 0 <= i < |sources| => StructuralAt(sources, i))
  }

  function StructuralRow(s: Source, h: Hygiene): Row {
    Row(s.id, s.title, s.status, h.reasons)
  }

  function StructuralRows(sources: seq<Source>, hs: seq<Hygiene>, n: nat): seq<Row>
    requires n <= |sources| == |hs|
  {
    if n == 0 then []
    else if hs[n - 1].dispatchBlocked then
      StructuralRows(sources, hs, n - 1) + [StructuralRow(sources[n - 1], hs[n - 1])]
    else StructuralRows(sources, hs, n - 1)
  }

  function StructuralById(sources: seq<Source>, hs: seq<Hygiene>, n: nat): map<string, Hygiene>
    requires n <= |sources| == |hs|
  {
    if n == 0 then map[] else StructuralById(sources, hs, n - 1)[sources[n - 1].id := hs[n - 1]]
  }

  /** The structural hygiene of each source, by way of the claimant index. */
  method EvaluateSources(sources: seq<Source>) returns (evaluated: seq<Hygiene>)
    ensures evaluated == Structural(sources)
  {
    var files := GroupTaskClaimantsByDeclaredId(DeclarationsOf(sources));
    evaluated := [];
    for i := 0 to |sources|
      invariant evaluated == Structural(sources)[..i]
    {
      assert DeclarationsOf(sources)[i].declaredId == sources[i].id;
      assert Structural(sources)[i] == StructuralAt(sources, i);
      evaluated := evaluated + [EvaluateStructuralTaskHygiene(sources[i], files[sources[i].id])];
    }
  }

  method BuildStructuralBacklogHygieneReport(sources: seq<Source>, le: Order)
    returns (excluded: seq<Row>, byTaskId: map<string, Hygiene>)
    ensures excluded == Sort(le, RowKey, StructuralRows(sources, Structural(sources), |sources|))
    ensures byTaskId == StructuralById(sources, Structural(sources), |sources|)
  {
    var hs := EvaluateSources(sources);
    byTaskId, excluded := map[], [];
    for i := 0 to |sources|
      invariant byTaskId == StructuralById(sources, hs, i)
      invariant excluded == StructuralRows(sources, hs, i)
    {
      byTaskId := byTaskId[sources[i].id := hs[i]];
      if hs[i].dispatchBlocked {
        excluded := excluded + [StructuralRow(sources[i], hs[i])];
      }
    }
    excluded := Sort(le, RowKey, excluded);
  }

  // ---------------------------------------------------------------------
  // Phase two

  function Fold(normalize: Normalizer, row: Row, input: Input): Row {
    row.(status := ReportedStatus(normalize, input),
         reasons := row.reasons + EvaluateStatusTaskHygiene(input.taskId, input.status).reasons)
  }

  /** A structural row with the input its cursor points at. */
  function FoldAt(normalize: Normalizer, row: Row, inputs: seq<Input>, cursor: nat): Row {
    if inputs == [] then row
    else Fold(normalize, row, inputs[if cursor < |inputs| then cursor else |inputs| - 1])
  }

  /** Every structural row with the input for it: the k-th row of an id goes with
      the k-th input of that id. */
  function Folded(normalize: Normalizer, rows: seq<Row>, inputs: seq<Input>, n: nat): seq<Row>
    requires n <= |rows|
  {
    if n == 0 then []
    else
      var id := rows[n - 1].taskId;
      Folded(normalize, rows, inputs, n - 1) +
      [FoldAt(normalize, rows[n - 1], WithKey(InputKey, inputs, id), |WithKey(RowKey, rows[..n - 1], id)|)]
  }

  function StatusRow(normalize: Normalizer, input: Input): Row {
    Row(input.taskId, input.title, ReportedStatus(normalize, input),
        EvaluateStatusTaskHygiene(input.taskId, input.status).reasons)
  }

  function StatusRows(normalize: Normalizer, inputs: seq<Input>, n: nat): seq<Row>
    requires n <= |inputs|
  {
    if n == 0 then []
    else if EvaluateStatusTaskHygiene(inputs[n - 1].taskId, inputs[n - 1].status).dispatchBlocked then
      StatusRows(normalize, inputs, n - 1) + [StatusRow(normalize, inputs[n - 1])]
    else StatusRows(normalize, inputs, n - 1)
  }

  function AllStatusRows(normalize: Normalizer, inputs: seq<Input>): seq<Row> {
    StatusRows(normalize, inputs, |inputs|)
  }

  /** The ids of the inputs, in order of first occurrence. */
  function Keys(inputs: seq<Input>): seq<string> {
    if inputs == [] then []
    else
      var keys, id := Keys(inputs[..|inputs| - 1]), inputs[|inputs| - 1].taskId;
      if id in keys then keys else keys + [id]
  }

  /** The rows that status alone adds, one id after the other. */
  function Added(normalize: Normalizer, inputs: seq<Input>, keys: seq<string>, excluded: set<string>): seq<Row> {
    if keys == [] then []
    else
      var id := keys[|keys| - 1];
      var before := Added(normalize, inputs, keys[..|keys| - 1], excluded);
      if id in excluded then before else before + AllStatusRows(normalize, WithKey(InputKey, inputs, id))
  }

  function IdsOf(rows: seq<Row>): set<string> {
    set r | r in rows :: r.taskId
  }

  function ResolvedRows(le: Order, normalize: Normalizer, rows: seq<Row>, inputs: seq<Input>): seq<Row> {
    Sort(le, RowKey, Folded(normalize, rows, inputs, |rows|) + Added(normalize, inputs, Keys(inputs), IdsOf(rows)))
  }

  function LookupIn(m: map<string, Hygiene>, id: string): Option<Hygiene> {
    if id in m then Some(m[id]) else None
  }

  function ResolvedById(structural: map<string, Hygiene>, inputs: seq<Input>): map<string, Hygiene> {
    if inputs == [] then structural
    else
      var input := inputs[|inputs| - 1];
      ResolvedById(structural, inputs[..|inputs| - 1])
      [input.taskId := MergeTaskBacklogHygiene(LookupIn(structural, input.taskId),
                                               EvaluateStatusTaskHygiene(input.taskId, input.status))]
  }

  ghost predicate GroupMap(groups: map<string, seq<Input>>, inputs: seq<Input>) {
    forall id :: WithKey(InputKey, inputs, id) == if id in groups then groups[id] else []
  }

  ghost predicate GroupsOf(groups: map<string, seq<Input>>, keys: seq<string>, inputs: seq<Input>) {
    keys == Keys(inputs) && (forall id :: id in groups <==> id in keys) && GroupMap(groups, inputs)
  }

  lemma {:induction false} OneMoreKey(inputs: seq<Input>, input: Input)
    ensures Keys(inputs + [input]) == if input.taskId in Keys(inputs) then Keys(inputs) else Keys(inputs) + [input.taskId]
  {
    assert (inputs + [input])[..|inputs|] == inputs;
  }

  lemma {:induction false} OneMoreOfId(inputs: seq<Input>, input: Input, id: string)
    ensures WithKey(InputKey, inputs + [input], id) ==
            if input.taskId == id then WithKey(InputKey, inputs, id) + [input] else WithKey(InputKey, inputs, id)
  {
    WithKeyAppend(InputKey, inputs, [input], id);
  }

  lemma {:induction false} GroupsGrow(groups: map<string, seq<Input>>, inputs: seq<Input>, input: Input,
                                      groups': map<string, seq<Input>>)
    requires GroupMap(groups, inputs)
    requires groups' == groups[input.taskId := (if input.taskId in groups then groups[input.taskId] else []) + [input]]
    ensures GroupMap(groups', inputs + [input])
  {
    forall id ensures WithKey(InputKey, inputs + [input], id) == if id in groups' then groups'[id] else [] {
      OneMoreOfId(inputs, input, id);
      assert WithKey(InputKey, inputs, id) == if id in groups then groups[id] else [];
    }
  }

  lemma {:induction false} GroupsStep(groups: map<string, seq<Input>>, keys: seq<string>, inputs: seq<Input>, i: nat,
                                      groups': map<string, seq<Input>>, keys': seq<string>)
    requires i < |inputs| && GroupsOf(groups, keys, inputs[..i])
    requires var id := inputs[i].taskId;
             && keys' == (if id in groups then keys else keys + [id])
             && groups' == groups[id := (if id in groups then groups[id] else []) + [inputs[i]]]
    ensures GroupsOf(groups', keys', inputs[..i + 1])
  {
    assert inputs[..i + 1] == inputs[..i] + [inputs[i]];
    OneMoreKey(inputs[..i], inputs[i]);
    GroupsGrow(groups, inputs[..i], inputs[i], groups');
  }

  lemma {:induction false} ResolvedStep(structural: map<string, Hygiene>, inputs: seq<Input>, i: nat)
    requires i < |inputs|
    ensures var id := inputs[i].taskId;
            ResolvedById(structural, inputs[..i + 1]) == ResolvedById(structural, inputs[..i])
              [id := MergeTaskBacklogHygiene(LookupIn(structural, id), EvaluateStatusTaskHygiene(id, inputs[i].status))]
  {
    assert inputs[..i + 1][..i] == inputs[..i];
  }

  /** The first loop: groups the inputs by id and folds their status into the map. */
  method GroupInputs(structural: map<string, Hygiene>, inputs: seq<Input>)
    returns (groups: map<string, seq<Input>>, keys: seq<string>, byTaskId: map<string, Hygiene>)
    ensures GroupsOf(groups, keys, inputs)
    ensures byTaskId == ResolvedById(structural, inputs)
  {
    groups, keys, byTaskId := map[], [], structural;
    for i := 0 to |inputs|
      invariant GroupsOf(groups, keys, inputs[..i])
      invariant byTaskId == ResolvedById(structural, inputs[..i])
    {
      var id := inputs[i].taskId;
      var forTask := (if id in groups then groups[id] else []) + [inputs[i]];
      var keys' := if id in groups then keys else keys + [id];
      GroupsStep(groups, keys, inputs, i, groups[id := forTask], keys');
      ResolvedStep(structural, inputs, i);
      groups, keys := groups[id := forTask], keys';
      var hygiene := EvaluateStatusTaskHygiene(id, inputs[i].status);
      byTaskId := byTaskId[id := MergeTaskBacklogHygiene(LookupIn(structural, id), hygiene)];
    }
    assert inputs[..|inputs|] == inputs;
  }

  /** The cursors count the rows seen so far. */
  ghost predicate CursorsOf(cursors: map<string, nat>, groups: map<string, seq<Input>>, rows: seq<Row>) {
    forall id :: id in groups && groups[id] != [] ==>
      |WithKey(RowKey, rows, id)| == if id in cursors then cursors[id] else 0
  }

  lemma {:induction false} OneMoreRow(rows: seq<Row>, row: Row, id: string)
    ensures WithKey(RowKey, rows + [row], id) ==
            if row.taskId == id then WithKey(RowKey, rows, id) + [row] else WithKey(RowKey, rows, id)
  {
    WithKeyAppend(RowKey, rows, [row], id);
  }

  lemma {:induction false} CursorsAdvance(cursors: map<string, nat>, groups: map<string, seq<Input>>, rows: seq<Row>,
                                          row: Row, cursors': map<string, nat>)
    requires CursorsOf(cursors, groups, rows)
    requires var id := row.taskId;
             cursors' == if id in groups && groups[id] != []
                         then cursors[id := (if id in cursors then cursors[id] else 0) + 1] else cursors
    ensures CursorsOf(cursors', groups, rows + [row])
  {
    forall id | id in groups && groups[id] != []
      ensures |WithKey(RowKey, rows + [row], id)| == if id in cursors' then cursors'[id] else 0
    {
      OneMoreRow(rows, row, id);
    }
  }

  /** One row with the input its id's cursor points at, and the cursor moved on. */
  method PairRow(normalize: Normalizer, row: Row, ghost rows: seq<Row>, groups: map<string, seq<Input>>,
                 cursors: map<string, nat>)
    returns (folded: Row, cursors': map<string, nat>)
    requires CursorsOf(cursors, groups, rows)
    ensures CursorsOf(cursors', groups, rows + [row])
    ensures folded == FoldAt(normalize, row, if row.taskId in groups then groups[row.taskId] else [],
                             |WithKey(RowKey, rows, row.taskId)|)
  {
    var id := row.taskId;
    var forTask := if id in groups then groups[id] else [];
    if forTask == [] {
      CursorsAdvance(cursors, groups, rows, row, cursors);
      return row, cursors;
    }
    var cursor := if id in cursors then cursors[id] else 0;
    CursorsAdvance(cursors, groups, rows, row, cursors[id := cursor + 1]);
    cursors' := cursors[id := cursor + 1];
    folded := Fold(normalize, row, forTask[if cursor < |forTask| then cursor else |forTask| - 1]);
  }

  /** The second loop: pairs structural rows with inputs by one cursor per id. */
  method PairRows(normalize: Normalizer, rows: seq<Row>, ghost inputs: seq<Input>, groups: map<string, seq<Input>>)
    returns (folded: seq<Row>)
    requires GroupMap(groups, inputs)
    ensures folded == Folded(normalize, rows, inputs, |rows|)
  {
    folded := [];
    var cursors: map<string, nat> := map[];
    for i := 0 to |rows|
      invariant folded == Folded(normalize, rows, inputs, i)
      invariant CursorsOf(cursors, groups, rows[..i])
    {
      var row;
      row, cursors := PairRow(normalize, rows[i], rows[..i], groups, cursors);
      assert rows[..i + 1] == rows[..i] + [rows[i]];
      folded := folded + [row];
    }
  }

  /** The third loop, for one id: adds what status alone excludes. */
  method AddGroup(normalize: Normalizer, entries: seq<Input>, ghost id: string, excluded: set<string>)
    returns (added: seq<Row>)
    requires forall j :: 0 <= j < |entries| ==> entries[j].taskId == id
    ensures added == if id in excluded then [] else AllStatusRows(normalize, entries)
  {
    added := [];
    for j := 0 to |entries|
      invariant added == if id in excluded then [] else StatusRows(normalize, entries, j)
    {
      var input := entries[j];
      if input.taskId in excluded {
        continue;
      }
      if !EvaluateStatusTaskHygiene(input.taskId, input.status).dispatchBlocked {
        continue;
      }
      added := added + [StatusRow(normalize, input)];
    }
  }

  lemma {:induction false} NextKey(normalize: Normalizer, inputs: seq<Input>, keys: seq<string>, k: nat,
                                   excluded: set<string>)
    requires k < |keys|
    ensures var before := Added(normalize, inputs, keys[..k], excluded);
            Added(normalize, inputs, keys[..k + 1], excluded) ==
              if keys[k] in excluded then before else before + AllStatusRows(normalize, WithKey(InputKey, inputs, keys[k]))
  {
    assert keys[..k + 1][..k] == keys[..k];
  }

  /** The third loop. */
  method AddStatusRows(normalize: Normalizer, ghost inputs: seq<Input>, groups: map<string, seq<Input>>,
                       keys: seq<string>, excluded: set<string>)
    returns (added: seq<Row>)
    requires GroupMap(groups, inputs) && forall k :: 0 <= k < |keys| ==> keys[k] in groups
    ensures added == Added(normalize, inputs, keys, excluded)
  {
    added := [];
    for k := 0 to |keys|
      invariant added == Added(normalize, inputs, keys[..k], excluded)
    {
      NextKey(normalize, inputs, keys, k, excluded);
      GroupIds(groups, inputs, keys[k]);
      var group := AddGroup(normalize, groups[keys[k]], keys[k], excluded);
      if keys[k] !in excluded {
        added := added + group;
      }
    }
    assert keys[..|keys|] == keys;
  }

  lemma {:induction false} GroupIds(groups: map<string, seq<Input>>, inputs: seq<Input>, id: string)
    requires GroupMap(groups, inputs) && id in groups
    ensures groups[id] == WithKey(InputKey, inputs, id)
    ensures forall j :: 0 <= j < |groups[id]| ==> groups[id][j].taskId == id
  {
    WithKeyFinds(InputKey, inputs, id);
    assert groups[id] == WithKey(InputKey, inputs, id);
    forall j | 0 <= j < |groups[id]| ensures groups[id][j].taskId == id {
      assert groups[id][j] in groups[id];
    }
  }

  method ApplyResolvedStatusHygiene(le: Order, normalize: Normalizer, rows: seq<Row>,
                                    structural: map<string, Hygiene>, inputs: seq<Input>)
    returns (excluded: seq<Row>, byTaskId: map<string, Hygiene>)
    ensures excluded == ResolvedRows(le, normalize, rows, inputs)
    ensures byTaskId == ResolvedById(structural, inputs)
  {
    var groups, keys;
    groups, keys, byTaskId := GroupInputs(structural, inputs);
    var folded := PairRows(normalize, rows, inputs, groups);
    var added := AddStatusRows(normalize, inputs, groups, keys, IdsOf(rows));
    excluded := Sort(le, RowKey, folded + added);
  }

  // ---------------------------------------------------------------------
  // One pass

  /** Structural and status hygiene of one source at once. */
  function Evaluate(h: Hygiene, s: Source, input: Input): Hygiene {
    MergeTaskBacklogHygiene(Some(h), EvaluateStatusTaskHygiene(s.id, input.status))
  }

  function OneRow(normalize: Normalizer, h: Hygiene, s: Source, input: Input): Row {
    Row(s.id, s.title, ReportedStatus(normalize, input), Evaluate(h, s, input).reasons)
  }

  function OneRows(normalize: Normalizer, hs: seq<Hygiene>, sources: seq<Source>, inputs: seq<Input>, n: nat): seq<Row>
    requires n <= |sources| == |hs| == |inputs|
  {
    if n == 0 then []
    else
      var before := OneRows(normalize, hs, sources, inputs, n - 1);
      if Evaluate(hs[n - 1], sources[n - 1], inputs[n - 1]).dispatchBlocked then
        before + [OneRow(normalize, hs[n - 1], sources[n - 1], inputs[n - 1])]
      else before
  }

  function OneById(hs: seq<Hygiene>, sources: seq<Source>, inputs: seq<Input>, n: nat): map<string, Hygiene>
    requires n <= |sources| == |hs| == |inputs|
  {
    if n == 0 then map[]
    else OneById(hs, sources, inputs, n - 1)[sources[n - 1].id := Evaluate(hs[n - 1], sources[n - 1], inputs[n - 1])]
  }

  /** The caller resolves every source, in file order. */
  predicate Aligned(sources: seq<Source>, inputs: seq<Input>) {
    |inputs| == |sources| &&
    forall i :: 0 <= i < |sources| ==> inputs[i].taskId == sources[i].id && inputs[i].title == sources[i].title
  }

  // ---------------------------------------------------------------------
  // Why they agree

  /** Structural hygiene is the same for all files of an id, as far as blocking
      goes, and has a reason exactly when it blocks. */
  ghost predicate Uniform(sources: seq<Source>, hs: seq<Hygiene>)
    requires |hs| == |sources|
  {
    (forall i, j :: 0 <= i < |sources| && 0 <= j < |sources| && sources[i].id == sources[j].id ==>
       hs[i].dispatchBlocked == hs[j].dispatchBlocked) &&
    forall i :: 0 <= i < |hs| ==> (hs[i].dispatchBlocked <==> hs[i].reasons != [])
  }

  lemma {:induction false} StructuralIsUniform(sources: seq<Source>)
    ensures Uniform(sources, Structural(sources))
  {
    var ds, hs := DeclarationsOf(sources), Structural(sources);
    assert forall i :: 0 <= i < |hs| ==> hs[i] == StructuralAt(sources, i);
    forall i, j | 0 <= i < j < |sources| && sources[i].id == sources[j].id
      ensures hs[i].dispatchBlocked && hs[j].dispatchBlocked
    {
      assert ds[i].declaredId == sources[i].id == ds[j].declaredId;
      ClaimantCount(ds, sources[i].id);
    }
  }

  function FoldAll(normalize: Normalizer, rows: seq<Row>, inputs: seq<Input>): (r: seq<Row>)
    ensures |r| == |rows|
    ensures forall j :: 0 <= j < |rows| ==> r[j] == FoldAt(normalize, rows[j], inputs, j)
  {
    seq(|rows|, j requires 0 <= j < |rows| => FoldAt(normalize, rows[j], inputs, j))
  }

  lemma {:induction false} FoldAllAppend(normalize: Normalizer, rows: seq<Row>, row: Row, inputs: seq<Input>)
    ensures FoldAll(normalize, rows + [row], inputs) ==
            FoldAll(normalize, rows, inputs) + [FoldAt(normalize, row, inputs, |rows|)]
  {
  }

  /** Per id, the cursors pair rows with inputs in order. */
  lemma {:induction false} FoldedOfId(normalize: Normalizer, rows: seq<Row>, inputs: seq<Input>, n: nat, id: string)
    requires n <= |rows|
    ensures WithKey(RowKey, Folded(normalize, rows, inputs, n), id) ==
            FoldAll(normalize, WithKey(RowKey, rows[..n], id), WithKey(InputKey, inputs, id))
  {
    if n > 0 {
      var row := rows[n - 1];
      var before := WithKey(RowKey, rows[..n - 1], id);
      var folded := FoldAt(normalize, row, WithKey(InputKey, inputs, row.taskId),
                           |WithKey(RowKey, rows[..n - 1], row.taskId)|);
      FoldedOfId(normalize, rows, inputs, n - 1, id);
      OneMoreRow(Folded(normalize, rows, inputs, n - 1), folded, id);
      OneMoreRow(rows[..n - 1], row, id);
      assert rows[..n] == rows[..n - 1] + [row];
      if row.taskId == id {
        FoldAllAppend(normalize, before, row, WithKey(InputKey, inputs, id));
      }
    }
  }

  lemma {:induction false} StatusRowsOfId(normalize: Normalizer, inputs: seq<Input>, id: string, k: string, n: nat)
    requires n <= |inputs| && forall j :: 0 <= j < |inputs| ==> inputs[j].taskId == id
    ensures WithKey(RowKey, StatusRows(normalize, inputs, n), k) ==
            if k == id then StatusRows(normalize, inputs, n) else []
  {
    if n > 0 {
      StatusRowsOfId(normalize, inputs, id, k, n - 1);
      OneMoreRow(StatusRows(normalize, inputs, n - 1), StatusRow(normalize, inputs[n - 1]), k);
    }
  }

  ghost predicate Distinct(keys: seq<string>) {
    forall i, j :: 0 <= i < j < |keys| ==> keys[i] != keys[j]
  }

  lemma {:induction false} KeysOf(inputs: seq<Input>, id: string)
    ensures Distinct(Keys(inputs))
    ensures id in Keys(inputs) <==> WithKey(InputKey, inputs, id) != []
  {
    if inputs != [] {
      var init, last := inputs[..|inputs| - 1], inputs[|inputs| - 1];
      KeysOf(init, id);
      WithKeyAppend(InputKey, init, [last], id);
      assert inputs == init + [last];
    }
  }

  lemma {:induction false} IdsOfKey(inputs: seq<Input>, id: string)
    ensures forall j :: 0 <= j < |WithKey(InputKey, inputs, id)| ==> WithKey(InputKey, inputs, id)[j].taskId == id
  {
    WithKeyFinds(InputKey, inputs, id);
    forall j | 0 <= j < |WithKey(InputKey, inputs, id)| ensures WithKey(InputKey, inputs, id)[j].taskId == id {
      assert WithKey(InputKey, inputs, id)[j] in WithKey(InputKey, inputs, id);
    }
  }

  lemma {:induction false} AddedOfId(normalize: Normalizer, inputs: seq<Input>, keys: seq<string>,
                                     excluded: set<string>, id: string)
    requires Distinct(keys)
    ensures WithKey(RowKey, Added(normalize, inputs, keys, excluded), id) ==
            if id in keys && id !in excluded then AllStatusRows(normalize, WithKey(InputKey, inputs, id)) else []
  {
    if keys != [] {
      var init, last := keys[..|keys| - 1], keys[|keys| - 1];
      AddedOfId(normalize, inputs, init, excluded, id);
      assert last !in init && keys == init + [last];
      GroupRowsOfId(normalize, inputs, Added(normalize, inputs, init, excluded), last, id);
    }
  }

  /** One more id's group changes the rows of that id only. */
  lemma {:induction false} GroupRowsOfId(normalize: Normalizer, inputs: seq<Input>, before: seq<Row>, last: string,
                                         id: string)
    ensures WithKey(RowKey, before + AllStatusRows(normalize, WithKey(InputKey, inputs, last)), id) ==
            if id == last then WithKey(RowKey, before, id) + AllStatusRows(normalize, WithKey(InputKey, inputs, last))
            else WithKey(RowKey, before, id)
  {
    var group := WithKey(InputKey, inputs, last);
    IdsOfKey(inputs, last);
    StatusRowsOfId(normalize, group, last, id, |group|);
    WithKeyAppend(RowKey, before, AllStatusRows(normalize, group), id);
  }

  // The rows and inputs of one id, among the first `n`.

  function InputsOf(inputs: seq<Input>, id: string, n: nat): seq<Input>
    requires n <= |inputs|
  {
    if n == 0 then []
    else if inputs[n - 1].taskId == id then InputsOf(inputs, id, n - 1) + [inputs[n - 1]]
    else InputsOf(inputs, id, n - 1)
  }

  function StructuralRowsOf(sources: seq<Source>, hs: seq<Hygiene>, id: string, n: nat): seq<Row>
    requires n <= |sources| == |hs|
  {
    if n == 0 then []
    else if sources[n - 1].id == id && hs[n - 1].dispatchBlocked then
      StructuralRowsOf(sources, hs, id, n - 1) + [StructuralRow(sources[n - 1], hs[n - 1])]
    else StructuralRowsOf(sources, hs, id, n - 1)
  }

  function OneRowsOf(normalize: Normalizer, hs: seq<Hygiene>, sources: seq<Source>, inputs: seq<Input>,
                     id: string, n: nat): seq<Row>
    requires n <= |sources| == |hs| == |inputs|
  {
    if n == 0 then []
    else
      var before := OneRowsOf(normalize, hs, sources, inputs, id, n - 1);
      if sources[n - 1].id == id && Evaluate(hs[n - 1], sources[n - 1], inputs[n - 1]).dispatchBlocked then
        before + [OneRow(normalize, hs[n - 1], sources[n - 1], inputs[n - 1])]
      else before
  }

  lemma {:induction false} InputsOfKey(inputs: seq<Input>, id: string, n: nat)
    requires n <= |inputs|
    ensures WithKey(InputKey, inputs[..n], id) == InputsOf(inputs, id, n)
  {
    if n > 0 {
      InputsOfKey(inputs, id, n - 1);
      OneMoreOfId(inputs[..n - 1], inputs[n - 1], id);
      assert inputs[..n] == inputs[..n - 1] + [inputs[n - 1]];
    }
  }

  lemma {:induction false} StructuralRowsOfKey(sources: seq<Source>, hs: seq<Hygiene>, id: string, n: nat)
    requires n <= |sources| == |hs|
    ensures WithKey(RowKey, StructuralRows(sources, hs, n), id) == StructuralRowsOf(sources, hs, id, n)
  {
    if n > 0 {
      StructuralRowsOfKey(sources, hs, id, n - 1);
      OneMoreRow(StructuralRows(sources, hs, n - 1), StructuralRow(sources[n - 1], hs[n - 1]), id);
    }
  }

  lemma {:induction false} OneRowsOfKey(normalize: Normalizer, hs: seq<Hygiene>, sources: seq<Source>,
                                        inputs: seq<Input>, id: string, n: nat)
    requires n <= |sources| == |hs| == |inputs|
    ensures WithKey(RowKey, OneRows(normalize, hs, sources, inputs, n), id) ==
            OneRowsOf(normalize, hs, sources, inputs, id, n)
  {
    if n > 0 {
      OneRowsOfKey(normalize, hs, sources, inputs, id, n - 1);
      OneMoreRow(OneRows(normalize, hs, sources, inputs, n - 1),
                 OneRow(normalize, hs[n - 1], sources[n - 1], inputs[n - 1]), id);
    }
  }

  lemma {:induction false} StatusRowsExtend(normalize: Normalizer, inputs: seq<Input>, more: seq<Input>, n: nat)
    requires n <= |inputs|
    ensures StatusRows(normalize, inputs + more, n) == StatusRows(normalize, inputs, n)
  {
    if n > 0 {
      StatusRowsExtend(normalize, inputs, more, n - 1);
    }
  }

  lemma {:induction false} StructuralReasons(h: Hygiene, s: Source, input: Input)
    ensures Evaluate(h, s, input).reasons == h.reasons + EvaluateStatusTaskHygiene(s.id, input.status).reasons
    ensures Evaluate(h, s, input).dispatchBlocked <==>
            h.reasons != [] || EvaluateStatusTaskHygiene(s.id, input.status).dispatchBlocked
  {
  }

  /** An id that no file blocks gets the rows that its status alone makes. */
  lemma {:induction false} UnblockedRows(normalize: Normalizer, hs: seq<Hygiene>, sources: seq<Source>,
                                         inputs: seq<Input>, id: string, n: nat)
    requires n <= |sources| == |hs| && Aligned(sources, inputs)
    requires forall i :: 0 <= i < |sources| && sources[i].id == id ==> !hs[i].dispatchBlocked && hs[i].reasons == []
    ensures AllStatusRows(normalize, InputsOf(inputs, id, n)) == OneRowsOf(normalize, hs, sources, inputs, id, n)
    ensures StructuralRowsOf(sources, hs, id, n) == []
  {
    if n > 0 {
      var s, input := sources[n - 1], inputs[n - 1];
      UnblockedRows(normalize, hs, sources, inputs, id, n - 1);
      if s.id == id {
        var before := InputsOf(inputs, id, n - 1);
        StatusRowsExtend(normalize, before, [input], |before|);
        StructuralReasons(hs[n - 1], s, input);
        assert [] + EvaluateStatusTaskHygiene(s.id, input.status).reasons ==
               EvaluateStatusTaskHygiene(s.id, input.status).reasons;
      }
    }
  }

  /** The rows `one` are the structural `rows` with the inputs folded in. */
  predicate FoldsTo(normalize: Normalizer, rows: seq<Row>, inputs: seq<Input>, one: seq<Row>) {
    |rows| == |inputs| == |one| && forall j :: 0 <= j < |one| ==> one[j] == Fold(normalize, rows[j], inputs[j])
  }

  lemma {:induction false} FoldsToAll(normalize: Normalizer, rows: seq<Row>, inputs: seq<Input>, one: seq<Row>)
    requires FoldsTo(normalize, rows, inputs, one)
    ensures FoldAll(normalize, rows, inputs) == one
  {
  }

  /** An id that some file blocks has a row for each of its files, and folding
      their inputs in gives the rows of one pass. */
  lemma {:induction false} BlockedRows(normalize: Normalizer, hs: seq<Hygiene>, sources: seq<Source>,
                                       inputs: seq<Input>, id: string, n: nat)
    requires n <= |sources| == |hs| && Aligned(sources, inputs)
    requires forall i :: 0 <= i < |sources| && sources[i].id == id ==> hs[i].dispatchBlocked && hs[i].reasons != []
    ensures FoldsTo(normalize, StructuralRowsOf(sources, hs, id, n), InputsOf(inputs, id, n),
                    OneRowsOf(normalize, hs, sources, inputs, id, n))
  {
    if n > 0 {
      BlockedRows(normalize, hs, sources, inputs, id, n - 1);
      if sources[n - 1].id == id {
        StructuralReasons(hs[n - 1], sources[n - 1], inputs[n - 1]);
        assert OneRow(normalize, hs[n - 1], sources[n - 1], inputs[n - 1]) ==
               Fold(normalize, StructuralRow(sources[n - 1], hs[n - 1]), inputs[n - 1]);
      }
    }
  }

  lemma {:induction false} StructuralRowIds(sources: seq<Source>, hs: seq<Hygiene>, id: string, n: nat)
    requires n <= |sources| == |hs|
    ensures StructuralRowsOf(sources, hs, id, n) != [] <==>
            exists i :: 0 <= i < n && sources[i].id == id && hs[i].dispatchBlocked
  {
    if n > 0 {
      StructuralRowIds(sources, hs, id, n - 1);
    }
  }

  lemma {:induction false} IdsOfRows(rows: seq<Row>, id: string)
    ensures id in IdsOf(rows) <==> WithKey(RowKey, rows, id) != []
  {
    WithKeyFinds(RowKey, rows, id);
    if id in IdsOf(rows) {
      var r :| r in rows && r.taskId == id;
      assert RowKey(r) == id;
    }
  }

  /** Before the last sort, the two computations have the same rows for every id. */
  lemma {:induction false} SameRowsOfId(le: Order, normalize: Normalizer, hs: seq<Hygiene>, sources: seq<Source>,
                                        inputs: seq<Input>, id: string)
    requires TotalOrder(le) && |sources| == |hs| && Aligned(sources, inputs) && Uniform(sources, hs)
    ensures var rows := Sort(le, RowKey, StructuralRows(sources, hs, |sources|));
            WithKey(RowKey, Folded(normalize, rows, inputs, |rows|) + Added(normalize, inputs, Keys(inputs), IdsOf(rows)), id)
            == WithKey(RowKey, OneRows(normalize, hs, sources, inputs, |sources|), id)
  {
    var n := |sources|;
    var unsorted := StructuralRows(sources, hs, n);
    var rows := Sort(le, RowKey, unsorted);
    var folded, added := Folded(normalize, rows, inputs, |rows|), Added(normalize, inputs, Keys(inputs), IdsOf(rows));
    SortIsStable(le, RowKey, unsorted, id);
    StructuralRowsOfKey(sources, hs, id, n);
    OneRowsOfKey(normalize, hs, sources, inputs, id, n);
    assert rows[..|rows|] == rows && inputs[..n] == inputs;
    InputsOfKey(inputs, id, n);
    FoldedOfId(normalize, rows, inputs, |rows|, id);
    KeysOf(inputs, id);
    AddedOfId(normalize, inputs, Keys(inputs), IdsOf(rows), id);
    IdsOfRows(rows, id);
    StructuralRowIds(sources, hs, id, n);
    WithKeyAppend(RowKey, folded, added, id);
    if id in IdsOf(rows) {
      BlockedRows(normalize, hs, sources, inputs, id, n);
      FoldsToAll(normalize, StructuralRowsOf(sources, hs, id, n), InputsOf(inputs, id, n),
                 OneRowsOf(normalize, hs, sources, inputs, id, n));
    } else {
      UnblockedRows(normalize, hs, sources, inputs, id, n);
    }
  }

  /** Folding resolved statuses onto the sorted structural rows gives the rows of
      evaluating every source once with its resolved status. */
  lemma {:induction false} TwoPhaseRowsAreOnePassRows(le: Order, normalize: Normalizer, sources: seq<Source>,
                                                      inputs: seq<Input>)
    requires TotalOrder(le) && Aligned(sources, inputs)
    ensures var hs := Structural(sources);
            ResolvedRows(le, normalize, Sort(le, RowKey, StructuralRows(sources, hs, |sources|)), inputs) ==
            Sort(le, RowKey, OneRows(normalize, hs, sources, inputs, |sources|))
  {
    var hs := Structural(sources);
    var rows := Sort(le, RowKey, StructuralRows(sources, hs, |sources|));
    var two := Folded(normalize, rows, inputs, |rows|) + Added(normalize, inputs, Keys(inputs), IdsOf(rows));
    var one := OneRows(normalize, hs, sources, inputs, |sources|);
    StructuralIsUniform(sources);
    forall id ensures WithKey(RowKey, two, id) == WithKey(RowKey, one, id) {
      SameRowsOfId(le, normalize, hs, sources, inputs, id);
    }
    SameSort(le, RowKey, two, one);
  }

  // ---------------------------------------------------------------------
  // The map

  /** The last source with an id, among the first `n`. */
  function LastWith(sources: seq<Source>, id: string, n: nat): Option<nat>
    requires n <= |sources|
  {
    if n == 0 then None
    else if sources[n - 1].id == id then Some(n - 1)
    else LastWith(sources, id, n - 1)
  }

  lemma {:induction false} LastWins(hs: seq<Hygiene>, sources: seq<Source>, inputs: seq<Input>,
                                    structural: map<string, Hygiene>, id: string, n: nat)
    requires n <= |sources| == |hs| && Aligned(sources, inputs)
    ensures var last := LastWith(sources, id, n);
            && (last.Some? ==> last.value < n && sources[last.value].id == id)
            && LookupIn(StructuralById(sources, hs, n), id) ==
               (if last.Some? then Some(hs[last.value]) else None)
            && LookupIn(OneById(hs, sources, inputs, n), id) ==
               (if last.Some? then Some(Evaluate(hs[last.value], sources[last.value], inputs[last.value])) else None)
            && LookupIn(ResolvedById(structural, inputs[..n]), id) ==
               (if last.Some? then
                  Some(MergeTaskBacklogHygiene(LookupIn(structural, id),
                                               EvaluateStatusTaskHygiene(id, inputs[last.value].status)))
                else LookupIn(structural, id))
  {
    if n > 0 {
      assert inputs[..n][..n - 1] == inputs[..n - 1];
      LastWins(hs, sources, inputs, structural, id, n - 1);
    } else {
      assert inputs[..0] == [];
    }
  }

  /** The same for the map, in which the last file of an id counts. */
  lemma {:induction false} TwoPhaseMapIsOnePassMap(sources: seq<Source>, inputs: seq<Input>)
    requires Aligned(sources, inputs)
    ensures var hs := Structural(sources);
            ResolvedById(StructuralById(sources, hs, |sources|), inputs) == OneById(hs, sources, inputs, |sources|)
  {
    var hs := Structural(sources);
    var structural := StructuralById(sources, hs, |sources|);
    var two, one := ResolvedById(structural, inputs), OneById(hs, sources, inputs, |sources|);
    assert inputs[..|sources|] == inputs;
    forall id ensures LookupIn(two, id) == LookupIn(one, id) {
      LastWins(hs, sources, inputs, structural, id, |sources|);
    }
    SameLookups(two, one);
  }

  lemma {:induction false} SameLookups(a: map<string, Hygiene>, b: map<string, Hygiene>)
    requires forall id :: LookupIn(a, id) == LookupIn(b, id)
    ensures a == b
  {
    forall id ensures id in a <==> id in b {
      assert LookupIn(a, id) == LookupIn(b, id);
    }
    forall id | id in a ensures a[id] == b[id] {
      assert LookupIn(a, id) == LookupIn(b, id);
    }
  }
}
