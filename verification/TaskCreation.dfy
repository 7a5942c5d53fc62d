/** What the reservation is for: creators that scan, check and write while they
    hold it never give one task id two owning files. */
module TaskCreation {
  import opened Base
  import opened Claimants
  import opened StableSort
  import Reservation

  // ---------------------------------------------------------------------
  // The ownership check

  datatype Conflict = Conflict(taskId: string, claimants: seq<string>)

  function Without(files: seq<string>, fileName: string): seq<string> {
    if files == [] then []
    else if files[0] == fileName then Without(files[1..], fileName)
    else [files[0]] + Without(files[1..], fileName)
  }

  /** What `readTaskCreationClaimants` makes of a scan: under each normalized id the
      files that declare it. */
  ghost predicate Indexes(claimants: map<string, seq<string>>, scan: seq<Declaration>) {
    forall id, f :: id in claimants && f in claimants[id] <==> DeclaredIn(scan, id, f)
  }

  predicate DeclaredIn(scan: seq<Declaration>, id: string, f: string) {
    exists k :: 0 <= k < |scan| && scan[k].fileName == f && NormalizeClaimantTaskId(scan[k].declaredId) == id
  }

  /** The claimants other than the candidate's own file, sorted. */
  function Rivals(le: Order, claimants: map<string, seq<string>>, candidate: Declaration): seq<string> {
    var id := NormalizeClaimantTaskId(candidate.declaredId);
    Sort(le, Itself, Without(if id in claimants then claimants[id] else [], candidate.fileName))
  }

  /** No scanned file other than the candidate's own declares its id. */
  predicate Unclaimed(scan: seq<Declaration>, candidate: Declaration) {
    forall d :: d in scan && NormalizeClaimantTaskId(d.declaredId) == NormalizeClaimantTaskId(candidate.declaredId) ==>
      d.fileName == candidate.fileName
  }

  lemma {:induction false} WithoutNone(files: seq<string>, fileName: string)
    ensures Without(files, fileName) == [] <==> forall f :: f in files ==> f == fileName
  {
    if files != [] {
      WithoutNone(files[1..], fileName);
      assert files[0] in files && forall f :: f in files <==> f == files[0] || f in files[1..];
    }
  }

  lemma {:induction false} ClaimantsAreDeclarers(scan: seq<Declaration>, id: string, fileName: string)
    ensures fileName in ClaimantsOf(scan, id) <==> Declaration(fileName, id) in scan
  {
    if scan != [] {
      var n := |scan| - 1;
      ClaimantsAreDeclarers(scan[..n], id, fileName);
      assert scan == scan[..n] + [scan[n]];
    }
  }

  lemma {:induction false} SortedMembers(le: Order, s: seq<string>)
    ensures forall f :: f in Sort(le, Itself, s) <==> f in s
  {
    SortPermutes(le, Itself, s);
    assert forall f :: f in Sort(le, Itself, s) <==> f in multiset(Sort(le, Itself, s));
  }

  lemma {:induction false} NormalizedDeclarers(scan: seq<Declaration>, id: string, f: string)
    ensures f in ClaimantsOf(NormalizeDeclarations(scan), id) <==> DeclaredIn(scan, id, f)
  {
    var normalized := NormalizeDeclarations(scan);
    ClaimantsAreDeclarers(normalized, id, f);
    assert forall k :: 0 <= k < |scan| ==>
      normalized[k] == Declaration(scan[k].fileName, NormalizeClaimantTaskId(scan[k].declaredId));
  }

  /** The strict index of a scan indexes it. */
  lemma {:induction false} StrictIndexIndexes(le: Order, scan: seq<Declaration>, claimants: map<string, seq<string>>)
    requires forall id :: id in claimants <==> Declares(NormalizeDeclarations(scan), id)
    requires forall id :: id in claimants ==> claimants[id] == SortedClaimants(le, scan, id)
    ensures Indexes(claimants, scan)
  {
    forall id, f ensures id in claimants && f in claimants[id] <==> DeclaredIn(scan, id, f) {
      var files := ClaimantsOf(NormalizeDeclarations(scan), id);
      NormalizedDeclarers(scan, id, f);
      ClaimantCount(NormalizeDeclarations(scan), id);
      SortedMembers(le, files);
    }
  }

  /** A planned id has no rivals exactly when every file that declares it is the
      planned file. */
  lemma {:induction false} RivalsNone(le: Order, claimants: map<string, seq<string>>, scan: seq<Declaration>,
                                      candidate: Declaration)
    requires Indexes(claimants, scan)
    ensures Rivals(le, claimants, candidate) == [] <==> Unclaimed(scan, candidate)
  {
    var id := NormalizeClaimantTaskId(candidate.declaredId);
    var files := if id in claimants then claimants[id] else [];
    var others := Without(files, candidate.fileName);
    WithoutNone(files, candidate.fileName);
    SortedMembers(le, others);
    assert others != [] ==> others[0] in Sort(le, Itself, others);
    assert Rivals(le, claimants, candidate) != [] ==> Rivals(le, claimants, candidate)[0] in others;
    forall f ensures f in files <==> DeclaredIn(scan, id, f) {
    }
    if Unclaimed(scan, candidate) {
      assert forall f :: f in files ==> f == candidate.fileName;
    } else {
      var d :| d in scan && NormalizeClaimantTaskId(d.declaredId) == id && d.fileName != candidate.fileName;
      assert DeclaredIn(scan, id, d.fileName);
    }
  }

  /** One conflict for every candidate that has rivals, in order. */
  function Conflicts(planned: seq<Declaration>, rivals: seq<seq<string>>): seq<Conflict>
    requires |planned| == |rivals|
  {
    if planned == [] then []
    else
      var n := |planned| - 1;
      var before := Conflicts(planned[..n], rivals[..n]);
      if rivals[n] == [] then before
      else before + [Conflict(NormalizeClaimantTaskId(planned[n].declaredId), rivals[n])]
  }

  function RivalsOfEach(le: Order, claimants: map<string, seq<string>>, planned: seq<Declaration>)
    : (r: seq<seq<string>>)
    ensures |r| == |planned| && forall k :: 0 <= k < |planned| ==> r[k] == Rivals(le, claimants, planned[k])
  {
    seq(|planned|, k requires 0 <= k < |planned| => Rivals(le, claimants, planned[k]))
  }

  lemma {:induction false} ConflictFreeExactly(planned: seq<Declaration>, rivals: seq<seq<string>>)
    requires |planned| == |rivals|
    ensures Conflicts(planned, rivals) == [] <==> forall k :: 0 <= k < |rivals| ==> rivals[k] == []
  {
    if planned != [] {
      var n := |planned| - 1;
      ConflictFreeExactly(planned[..n], rivals[..n]);
      assert forall k :: 0 <= k < n ==> rivals[..n][k] == rivals[k];
    }
  }

  ghost predicate AllUnclaimed(scan: seq<Declaration>, planned: seq<Declaration>) {
    forall k :: 0 <= k < |planned| ==> Unclaimed(scan, planned[k])
  }

  /** Creation is refused exactly when some planned id has an owner other than
      its own file, and every such id is reported with its owners, sorted. */
  method AssertTaskCreationIdsAvailable(le: Order, claimants: map<string, seq<string>>, ghost scan: seq<Declaration>,
                                        planned: seq<Declaration>)
    returns (conflicts: seq<Conflict>)
    requires Indexes(claimants, scan)
    ensures conflicts == Conflicts(planned, RivalsOfEach(le, claimants, planned))
    ensures conflicts == [] <==> AllUnclaimed(scan, planned)
  {
    conflicts := [];
    var rivals := RivalsOfEach(le, claimants, planned);
    for i := 0 to |planned|
      invariant conflicts == Conflicts(planned[..i], rivals[..i])
    {
      assert planned[..i + 1][..i] == planned[..i] && rivals[..i + 1][..i] == rivals[..i];
      if rivals[i] != [] {
        conflicts := conflicts + [Conflict(NormalizeClaimantTaskId(planned[i].declaredId), rivals[i])];
      }
    }
    assert planned[..|planned|] == planned && rivals[..|planned|] == rivals;
    ConflictFreeExactly(planned, rivals);
    forall k | 0 <= k < |planned| ensures rivals[k] == [] <==> Unclaimed(scan, planned[k]) {
      RivalsNone(le, claimants, scan, planned[k]);
    }
  }

  /** The conflict names the candidate's id and, sorted, every other file that
      declares it. */
  ghost predicate Describes(le: Order, scan: seq<Declaration>, candidate: Declaration, c: Conflict) {
    c.taskId == NormalizeClaimantTaskId(candidate.declaredId) && Sorted(le, Itself, c.claimants) &&
    forall f :: f in c.claimants <==> DeclaredIn(scan, c.taskId, f) && f != candidate.fileName
  }

  lemma {:induction false} WithoutMembers(files: seq<string>, fileName: string, f: string)
    ensures f in Without(files, fileName) <==> f in files && f != fileName
  {
    if files != [] {
      WithoutMembers(files[1..], fileName, f);
      assert f in files <==> f == files[0] || f in files[1..];
    }
  }

  lemma {:induction false} RivalsDescribe(le: Order, claimants: map<string, seq<string>>, scan: seq<Declaration>,
                                          candidate: Declaration)
    requires TotalOrder(le) && Indexes(claimants, scan)
    ensures Describes(le, scan, candidate,
                      Conflict(NormalizeClaimantTaskId(candidate.declaredId), Rivals(le, claimants, candidate)))
  {
    var id := NormalizeClaimantTaskId(candidate.declaredId);
    var files := if id in claimants then claimants[id] else [];
    var others := Without(files, candidate.fileName);
    SortSorts(le, Itself, others);
    SortedMembers(le, others);
    forall f ensures f in others <==> DeclaredIn(scan, id, f) && f != candidate.fileName {
      WithoutMembers(files, candidate.fileName, f);
      assert f in files <==> DeclaredIn(scan, id, f);
    }
  }

  /** What would be reported of each candidate. */
  function Reports(planned: seq<Declaration>, rivals: seq<seq<string>>): (r: seq<Conflict>)
    requires |planned| == |rivals|
    ensures |r| == |planned|
    ensures forall k :: 0 <= k < |r| ==>
              r[k].taskId == NormalizeClaimantTaskId(planned[k].declaredId) && r[k].claimants == rivals[k]
  {
    seq(|planned|, k requires 0 <= k < |planned| => Conflict(NormalizeClaimantTaskId(planned[k].declaredId), rivals[k]))
  }

  function Real(reports: seq<Conflict>, n: nat): seq<Conflict>
    requires n <= |reports|
  {
    if n == 0 then []
    else if reports[n - 1].claimants == [] then Real(reports, n - 1)
    else Real(reports, n - 1) + [reports[n - 1]]
  }

  lemma {:induction false} RealMembers(reports: seq<Conflict>, n: nat, c: Conflict)
    requires n <= |reports|
    ensures c in Real(reports, n) <==> exists k :: 0 <= k < n && reports[k] == c && c.claimants != []
  {
    if n > 0 {
      RealMembers(reports, n - 1, c);
    }
  }

  lemma {:induction false} ConflictsAreReal(planned: seq<Declaration>, rivals: seq<seq<string>>, n: nat)
    requires n <= |planned| == |rivals|
    ensures Conflicts(planned[..n], rivals[..n]) == Real(Reports(planned, rivals), n)
  {
    if n > 0 {
      ConflictsAreReal(planned, rivals, n - 1);
      assert planned[..n][..n - 1] == planned[..n - 1] && rivals[..n][..n - 1] == rivals[..n - 1];
    }
  }

  lemma {:induction false} ConflictAt(planned: seq<Declaration>, rivals: seq<seq<string>>, c: Conflict)
    requires |planned| == |rivals|
    ensures c in Conflicts(planned, rivals) <==>
            exists k :: 0 <= k < |planned| && Reports(planned, rivals)[k] == c && c.claimants != []
  {
    ConflictsAreReal(planned, rivals, |planned|);
    RealMembers(Reports(planned, rivals), |planned|, c);
    assert planned[..|planned|] == planned && rivals[..|rivals|] == rivals;
  }

  /** What a refusal reports: every planned id that another file declares, with those
      files, sorted, and nothing else. */
  lemma {:induction false} ConflictsExactly(le: Order, claimants: map<string, seq<string>>, scan: seq<Declaration>,
                                            planned: seq<Declaration>)
    requires TotalOrder(le) && Indexes(claimants, scan)
    ensures
      var conflicts := Conflicts(planned, RivalsOfEach(le, claimants, planned));
      && (forall c :: c in conflicts ==> c.claimants != [] && exists d :: d in planned && Describes(le, scan, d, c))
      && (forall d :: d in planned && !Unclaimed(scan, d) ==> exists c :: c in conflicts && Describes(le, scan, d, c))
  {
    var rivals := RivalsOfEach(le, claimants, planned);
    var reports := Reports(planned, rivals);
    forall k | 0 <= k < |planned|
      ensures Describes(le, scan, planned[k], reports[k]) && (rivals[k] == [] <==> Unclaimed(scan, planned[k]))
    {
      RivalsDescribe(le, claimants, scan, planned[k]);
      RivalsNone(le, claimants, scan, planned[k]);
    }
    forall c ensures c in Conflicts(planned, rivals) <==>
                     exists k :: 0 <= k < |planned| && reports[k] == c && c.claimants != [] {
      ConflictAt(planned, rivals, c);
    }
    forall d | d in planned && !Unclaimed(scan, d)
      ensures exists c :: c in Conflicts(planned, rivals) && Describes(le, scan, d, c)
    {
      var k :| 0 <= k < |planned| && planned[k] == d;
      assert reports[k] in Conflicts(planned, rivals);
    }
  }

  // ---------------------------------------------------------------------
  // Creators under the reservation

  /** How far the holder's operation is. */
  datatype Work =
    | Scanned(scan: seq<Declaration>)
    | Writing(rest: seq<Declaration>)
    | Finished

  datatype World = World(
    lock: Reservation.State,
    files: map<string, string>,
    work: map<Reservation.AttemptId, Work>)

  /** What each attempt plans to write. */
  type Plans = Reservation.AttemptId -> seq<Declaration>

  datatype Event =
    | Protocol(step: Reservation.Step)
    | Scan(a: Reservation.AttemptId, listing: seq<Declaration>)
    | Check(a: Reservation.AttemptId)
    | Write(a: Reservation.AttemptId)
    | Fail(a: Reservation.AttemptId)

  /** A directory scan lists every task file with the id it declares. */
  ghost predicate Lists(files: map<string, string>, listing: seq<Declaration>) {
    (forall d :: d in listing ==> d.fileName in files && files[d.fileName] == d.declaredId) &&
    (forall f :: f in files ==> Declaration(f, files[f]) in listing)
  }

  /** The holder releases only after its operation has settled. */
  predicate Releases(w: World, step: Reservation.Step) {
    step.Act? && Reservation.IsAdmitted(w.lock, step.a) && (step.a !in w.work || !w.work[step.a].Finished?)
  }

  ghost function Next(plans: Plans, w: World, e: Event): Option<World> {
    match e
    case Protocol(step) =>
      var s := Reservation.Next(Reservation.Vacant, w.lock, step);
      if s.None? || Releases(w, step) then None else Some(w.(lock := s.value))
    case Scan(a, listing) =>
      if Reservation.IsAdmitted(w.lock, a) && a !in w.work && Lists(w.files, listing)
      then Some(w.(work := w.work[a := Scanned(listing)])) else None
    case Check(a) =>
      if Reservation.IsAdmitted(w.lock, a) && a in w.work && w.work[a].Scanned?
      then
        var ok := AllUnclaimed(w.work[a].scan, plans(a));
        Some(w.(work := w.work[a := if ok then Writing(plans(a)) else Finished]))
      else None
    case Write(a) =>
      if Reservation.IsAdmitted(w.lock, a) && a in w.work && w.work[a].Writing?
      then
        var rest := w.work[a].rest;
        if rest == [] then Some(w.(work := w.work[a := Finished]))
        else Some(w.(files := w.files[rest[0].fileName := rest[0].declaredId],
                     work := w.work[a := Writing(rest[1..])]))
      else None
    case Fail(a) =>
      if Reservation.IsAdmitted(w.lock, a) then Some(w.(work := w.work[a := Finished])) else None
  }

  ghost function Exec(plans: Plans, w: World, events: seq<Event>): Option<World>
    decreases |events|
  {
    if events == [] then Some(w)
    else
      var w' := Next(plans, w, events[0]);
      if w'.None? then None else Exec(plans, w'.value, events[1..])
  }

  /** No declared id has two owning files. */
  ghost predicate UniqueOwners(files: map<string, string>) {
    forall f, g :: f in files && g in files && f != g ==>
      NormalizeClaimantTaskId(files[f]) != NormalizeClaimantTaskId(files[g])
  }

  ghost predicate DistinctIds(planned: seq<Declaration>) {
    forall j, k :: 0 <= j < k < |planned| ==>
      NormalizeClaimantTaskId(planned[j].declaredId) != NormalizeClaimantTaskId(planned[k].declaredId)
  }

  /** Whatever has the planned id on disk is the planned file itself. */
  ghost predicate Clear(files: map<string, string>, p: Declaration) {
    forall f :: f in files && NormalizeClaimantTaskId(files[f]) == NormalizeClaimantTaskId(p.declaredId) ==>
      f == p.fileName
  }

  /** What the holder's scan and check established is still true. */
  ghost predicate WorkValid(w: World) {
    forall a :: Reservation.IsAdmitted(w.lock, a) && a in w.work ==>
      match w.work[a]
      case Scanned(scan) => Lists(w.files, scan)
      case Writing(rest) => DistinctIds(rest) && forall k :: 0 <= k < |rest| ==> Clear(w.files, rest[k])
      case Finished => true
  }

  ghost predicate WorldInv(w: World) {
    Reservation.Inv(w.lock) && UniqueOwners(w.files) && WorkValid(w) &&
    (forall a :: a in w.work ==> a in w.lock.attempts && (w.lock.attempts[a].pc.Admitted? || w.lock.attempts[a].pc.Left?))
  }

  lemma {:induction false} WriteKeepsOwners(files: map<string, string>, p: Declaration)
    requires UniqueOwners(files) && Clear(files, p)
    ensures UniqueOwners(files[p.fileName := p.declaredId])
  {
  }

  lemma {:induction false} WriteKeepsClear(files: map<string, string>, p: Declaration, q: Declaration)
    requires Clear(files, q)
    requires NormalizeClaimantTaskId(p.declaredId) != NormalizeClaimantTaskId(q.declaredId)
    ensures Clear(files[p.fileName := p.declaredId], q)
  {
  }

  /** An attempt that was admitted stays so or has left, and one that has left
      stays away. */
  lemma {:induction false} SettledStaySettled(s: Reservation.State, step: Reservation.Step)
    requires Reservation.Next(Reservation.Vacant, s, step).Some?
    ensures
      var s' := Reservation.Next(Reservation.Vacant, s, step).value;
      && s.dead <= s'.dead
      && forall a :: a in s.attempts && (s.attempts[a].pc.Admitted? || s.attempts[a].pc.Left?) ==>
           a in s'.attempts && s'.attempts[a].pid == s.attempts[a].pid &&
           (s'.attempts[a].pc == s.attempts[a].pc || s'.attempts[a].pc.Left?)
  {
    if step.Act? {
      Reservation.OnlyTheActorMoves(Reservation.Vacant, s, step.a, step.c);
    }
  }

  lemma {:induction false} ProtocolKeepsWork(plans: Plans, w: World, step: Reservation.Step)
    requires WorldInv(w) && Next(plans, w, Protocol(step)).Some?
    ensures WorldInv(Next(plans, w, Protocol(step)).value)
  {
    var w' := Next(plans, w, Protocol(step)).value;
    assert Reservation.Inv(w'.lock) by { Reservation.NextKeepsInv(w.lock, step); }
    SettledStaySettled(w.lock, step);
    SameWork(w, w');
  }

  lemma {:induction false} SameWork(w: World, w': World)
    requires WorkValid(w) && w'.files == w.files && w'.work == w.work
    requires forall a :: a in w.work && Reservation.IsAdmitted(w'.lock, a) ==> Reservation.IsAdmitted(w.lock, a)
    ensures WorkValid(w')
  {
  }

  /** A check that passes clears every planned id. */
  lemma {:induction false} CheckClears(files: map<string, string>, scan: seq<Declaration>, planned: seq<Declaration>)
    requires Lists(files, scan) && AllUnclaimed(scan, planned)
    ensures forall k :: 0 <= k < |planned| ==> Clear(files, planned[k])
  {
    forall k, f | 0 <= k < |planned| && f in files &&
                  NormalizeClaimantTaskId(files[f]) == NormalizeClaimantTaskId(planned[k].declaredId)
      ensures f == planned[k].fileName
    {
      assert Declaration(f, files[f]) in scan;
      assert Unclaimed(scan, planned[k]);
    }
  }

  lemma {:induction false} WriteKeepsRest(files: map<string, string>, rest: seq<Declaration>)
    requires rest != [] && DistinctIds(rest) && UniqueOwners(files)
    requires forall k :: 0 <= k < |rest| ==> Clear(files, rest[k])
    ensures var files' := files[rest[0].fileName := rest[0].declaredId];
            UniqueOwners(files') && DistinctIds(rest[1..]) && forall k :: 0 <= k < |rest[1..]| ==> Clear(files', rest[1..][k])
  {
    assert Clear(files, rest[0]);
    WriteKeepsOwners(files, rest[0]);
    forall k | 0 <= k < |rest[1..]|
      ensures Clear(files[rest[0].fileName := rest[0].declaredId], rest[1..][k])
    {
      assert Clear(files, rest[k + 1]);
      WriteKeepsClear(files, rest[0], rest[k + 1]);
    }
  }

  lemma {:induction false} WritingKeepsInv(plans: Plans, w: World, a: Reservation.AttemptId)
    requires WorldInv(w) && Next(plans, w, Write(a)).Some?
    ensures WorldInv(Next(plans, w, Write(a)).value)
  {
    var w' := Next(plans, w, Write(a)).value;
    if w.work[a].rest != [] {
      WriteKeepsRest(w.files, w.work[a].rest);
      forall b | Reservation.IsAdmitted(w'.lock, b) && b in w'.work ensures b == a {
        assert Reservation.IsAdmitted(w.lock, a) && Reservation.IsAdmitted(w.lock, b);
      }
    }
  }

  lemma {:induction false} CheckingKeepsInv(plans: Plans, w: World, a: Reservation.AttemptId)
    requires DistinctIds(plans(a))
    requires WorldInv(w) && Next(plans, w, Check(a)).Some?
    ensures WorldInv(Next(plans, w, Check(a)).value)
  {
    if AllUnclaimed(w.work[a].scan, plans(a)) {
      CheckClears(w.files, w.work[a].scan, plans(a));
    }
  }

  lemma {:induction false} EventKeepsInv(plans: Plans, w: World, e: Event)
    requires forall a :: DistinctIds(plans(a))
    requires WorldInv(w) && Next(plans, w, e).Some?
    ensures WorldInv(Next(plans, w, e).value)
  {
    match e {
      case Protocol(step) => ProtocolKeepsWork(plans, w, step);
      case Scan(a, listing) =>
      case Check(a) => CheckingKeepsInv(plans, w, a);
      case Write(a) => WritingKeepsInv(plans, w, a);
      case Fail(a) =>
    }
  }

  /** Whatever the interleaving of creators, reclaimers and deaths, no id gets a
      second owner, if every planned batch has distinct ids. */
  lemma {:induction false} EveryIdHasOneOwner(plans: Plans, w: World, events: seq<Event>, w': World)
    requires forall a :: DistinctIds(plans(a))
    requires WorldInv(w) && Exec(plans, w, events) == Some(w')
    ensures WorldInv(w') && UniqueOwners(w'.files)
    decreases |events|
  {
    if events != [] {
      EventKeepsInv(plans, w, events[0]);
      EveryIdHasOneOwner(plans, Next(plans, w, events[0]).value, events[1..], w');
    }
  }

  /** The same from a directory in which every id has one owner, and from nobody
      being at work. */
  lemma {:induction false} OwnersStayUniqueInEveryRun(plans: Plans, files: map<string, string>, events: seq<Event>,
                                                      w: World)
    requires (forall a :: DistinctIds(plans(a))) && UniqueOwners(files)
    requires Exec(plans, World(Reservation.Init(), files, map[]), events) == Some(w)
    ensures UniqueOwners(w.files)
  {
    EveryIdHasOneOwner(plans, World(Reservation.Init(), files, map[]), events, w);
  }

  lemma {:induction false} ClearMeansUnclaimed(files: map<string, string>, scan: seq<Declaration>,
                                               planned: seq<Declaration>)
    requires Lists(files, scan) && forall k :: 0 <= k < |planned| ==> Clear(files, planned[k])
    ensures AllUnclaimed(scan, planned)
  {
    forall k, d | 0 <= k < |planned| && d in scan &&
                  NormalizeClaimantTaskId(d.declaredId) == NormalizeClaimantTaskId(planned[k].declaredId)
      ensures d.fileName == planned[k].fileName
    {
      assert Clear(files, planned[k]) && d.fileName in files;
    }
  }

  lemma {:induction false} CheckDecides(plans: Plans, w: World, a: Reservation.AttemptId)
    requires WorkValid(w) && Reservation.IsAdmitted(w.lock, a) && a in w.work && w.work[a].Scanned?
    ensures
      var available := forall k :: 0 <= k < |plans(a)| ==> Clear(w.files, plans(a)[k]);
      Next(plans, w, Check(a)) == Some(w.(work := w.work[a := if available then Writing(plans(a)) else Finished]))
  {
    var scan := w.work[a].scan;
    if AllUnclaimed(scan, plans(a)) {
      CheckClears(w.files, scan, plans(a));
    } else if forall k :: 0 <= k < |plans(a)| ==> Clear(w.files, plans(a)[k]) {
      ClearMeansUnclaimed(w.files, scan, plans(a));
    }
  }

  /** In every run a holder's check lets it write exactly when, at that moment, no other
      file on disk has one of its planned ids, and otherwise ends its work. */
  lemma {:induction false} CheckPassesExactly(plans: Plans, files: map<string, string>, events: seq<Event>, w: World,
                                              a: Reservation.AttemptId)
    requires (forall b :: DistinctIds(plans(b))) && UniqueOwners(files)
    requires Exec(plans, World(Reservation.Init(), files, map[]), events) == Some(w)
    requires Reservation.IsAdmitted(w.lock, a) && a in w.work && w.work[a].Scanned?
    ensures
      var available := forall k :: 0 <= k < |plans(a)| ==> Clear(w.files, plans(a)[k]);
      Next(plans, w, Check(a)) == Some(w.(work := w.work[a := if available then Writing(plans(a)) else Finished]))
  {
    EveryIdHasOneOwner(plans, World(Reservation.Init(), files, map[]), events, w);
    CheckDecides(plans, w, a);
  }

  // ---------------------------------------------------------------------
  // What a creator has written

  ghost predicate DistinctFiles(planned: seq<Declaration>) {
    forall j, k :: 0 <= j < k < |planned| ==> planned[j].fileName != planned[k].fileName
  }

  /** The first `n` planned files are on disk, and the rest is still to be written. */
  ghost predicate WrittenUpTo(planned: seq<Declaration>, files: map<string, string>, rest: seq<Declaration>, n: nat) {
    n <= |planned| && rest == planned[n..] &&
    forall k :: 0 <= k < n ==> planned[k].fileName in files && files[planned[k].fileName] == planned[k].declaredId
  }

  /** A holder that writes has written what is no longer left to write. */
  ghost predicate WritersOnTrack(plans: Plans, w: World) {
    forall a :: Reservation.IsAdmitted(w.lock, a) && a in w.work && w.work[a].Writing? ==>
      exists n :: WrittenUpTo(plans(a), w.files, w.work[a].rest, n)
  }

  lemma {:induction false} NextIsWritten(planned: seq<Declaration>, files: map<string, string>, rest: seq<Declaration>,
                                         n: nat)
    requires DistinctFiles(planned) && WrittenUpTo(planned, files, rest, n) && rest != []
    ensures WrittenUpTo(planned, files[rest[0].fileName := rest[0].declaredId], rest[1..], n + 1)
  {
    assert rest[0] == planned[n] && rest[1..] == planned[n + 1..];
  }

  lemma {:induction false} ProtocolKeepsTrack(plans: Plans, w: World, step: Reservation.Step)
    requires WorldInv(w) && WritersOnTrack(plans, w) && Next(plans, w, Protocol(step)).Some?
    ensures WritersOnTrack(plans, Next(plans, w, Protocol(step)).value)
  {
    var w' := Next(plans, w, Protocol(step)).value;
    SettledStaySettled(w.lock, step);
    forall a | Reservation.IsAdmitted(w'.lock, a) && a in w'.work && w'.work[a].Writing?
      ensures exists n :: WrittenUpTo(plans(a), w'.files, w'.work[a].rest, n)
    {
      assert Reservation.IsAdmitted(w.lock, a);
    }
  }

  lemma {:induction false} WritingKeepsTrack(plans: Plans, w: World, a: Reservation.AttemptId)
    requires DistinctFiles(plans(a)) && WorldInv(w) && WritersOnTrack(plans, w) && Next(plans, w, Write(a)).Some?
    ensures WritersOnTrack(plans, Next(plans, w, Write(a)).value)
  {
    var rest := w.work[a].rest;
    var n :| WrittenUpTo(plans(a), w.files, rest, n);
    if rest != [] {
      NextIsWritten(plans(a), w.files, rest, n);
      forall b | Reservation.IsAdmitted(w.lock, b) ensures b == a {
        assert Reservation.IsAdmitted(w.lock, a);
      }
    }
  }

  lemma {:induction false} EventKeepsTrack(plans: Plans, w: World, e: Event)
    requires forall a :: DistinctFiles(plans(a))
    requires WorldInv(w) && WritersOnTrack(plans, w) && Next(plans, w, e).Some?
    ensures WritersOnTrack(plans, Next(plans, w, e).value)
  {
    match e {
      case Protocol(step) => ProtocolKeepsTrack(plans, w, step);
      case Scan(a, listing) =>
      case Check(a) => NothingYet(plans(a), w.files);
      case Write(a) => WritingKeepsTrack(plans, w, a);
      case Fail(a) =>
    }
  }

  lemma {:induction false} NothingYet(planned: seq<Declaration>, files: map<string, string>)
    ensures WrittenUpTo(planned, files, planned, 0)
  {
  }

  lemma {:induction false} RunKeepsTrack(plans: Plans, w: World, events: seq<Event>, w': World)
    requires forall a :: DistinctIds(plans(a)) && DistinctFiles(plans(a))
    requires WorldInv(w) && WritersOnTrack(plans, w) && Exec(plans, w, events) == Some(w')
    ensures WorldInv(w') && WritersOnTrack(plans, w')
    decreases |events|
  {
    if events != [] {
      EventKeepsInv(plans, w, events[0]);
      EventKeepsTrack(plans, w, events[0]);
      RunKeepsTrack(plans, Next(plans, w, events[0]).value, events[1..], w');
    }
  }

  /** In every run, a holder with nothing left to write has all its planned files on
      disk, each declaring its planned id. */
  lemma {:induction false} WritersFinish(plans: Plans, files: map<string, string>, events: seq<Event>, w: World,
                                         a: Reservation.AttemptId)
    requires (forall b :: DistinctIds(plans(b)) && DistinctFiles(plans(b))) && UniqueOwners(files)
    requires Exec(plans, World(Reservation.Init(), files, map[]), events) == Some(w)
    requires Reservation.IsAdmitted(w.lock, a) && a in w.work && w.work[a] == Writing([])
    ensures forall d :: d in plans(a) ==> d.fileName in w.files && w.files[d.fileName] == d.declaredId
  {
    RunKeepsTrack(plans, World(Reservation.Init(), files, map[]), events, w);
    var n :| WrittenUpTo(plans(a), w.files, [], n);
    assert n == |plans(a)|;
  }

  /** An admitted holder releases only when its operation has settled. */
  lemma {:induction false} ReleasesSettled(plans: Plans, w: World, a: Reservation.AttemptId, c: Reservation.Choice)
    requires Reservation.IsAdmitted(w.lock, a) && Next(plans, w, Protocol(Reservation.Act(a, c))).Some?
    ensures a in w.work && w.work[a].Finished?
  {
  }

  lemma {:induction false} SettledWorkStays(plans: Plans, w: World, events: seq<Event>, w': World, a: Reservation.AttemptId)
    requires a in w.work && w.work[a].Finished? && Exec(plans, w, events) == Some(w')
    ensures a in w'.work && w'.work[a].Finished?
    decreases |events|
  {
    if events != [] {
      SettledWorkStays(plans, Next(plans, w, events[0]).value, events[1..], w', a);
    }
  }

  /** An operation can fail at any time while it holds the reservation; what it has written
      stays, and in no continuation does it write again. */
  lemma {:induction false} FailureEndsWork(plans: Plans, w: World, a: Reservation.AttemptId, events: seq<Event>, w': World)
    requires Reservation.IsAdmitted(w.lock, a)
    requires Next(plans, w, Fail(a)).Some? ==> Exec(plans, Next(plans, w, Fail(a)).value, events) == Some(w')
    ensures Next(plans, w, Fail(a)).Some? && Next(plans, w, Fail(a)).value.files == w.files
    ensures Next(plans, w', Write(a)).None?
  {
    SettledWorkStays(plans, Next(plans, w, Fail(a)).value, events, w', a);
  }

  /** The check compares a batch with the directory, not with itself: two files
      planned for one id are both available. */
  lemma {:induction false} BatchIsNotComparedWithItself(scan: seq<Declaration>, p: Declaration, q: Declaration)
    requires Unclaimed(scan, p) && p.fileName != q.fileName && p.declaredId == q.declaredId
    requires forall d :: d in scan ==> NormalizeClaimantTaskId(d.declaredId) != NormalizeClaimantTaskId(q.declaredId)
    ensures forall c :: c in [p, q] ==> Unclaimed(scan, c)
    ensures !UniqueOwners(map[p.fileName := p.declaredId, q.fileName := q.declaredId])
  {
    var files := map[p.fileName := p.declaredId, q.fileName := q.declaredId];
    assert p.fileName in files && q.fileName in files;
  }
}
