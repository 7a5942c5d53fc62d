/** What the reservation gives back: a release vacates the canonical name for
    good, and whatever processes left behind when they died, a later attempt can
    clear away and be admitted. */
module ReservationProgress {
  import opened Base
  import opened Reservation
  import opened ReservationLimits
  import opened ReservationOwner

  // ---------------------------------------------------------------------
  // Release

  /** The step by which an attempt gives up the token it has linked: the release
      of an admitted owner, a withdrawal, or a link given up again. */
  predicate LetsGo(pc: Pc, c: Choice) {
    match pc
    case Admitted(_) => c == Go
    case Withdraw(_) => c == Go
    case Linked(_) => c == Skip || c == GiveUp
    case _ => false
  }

  /** In no continuation is the record at the canonical name or parked. */
  ghost predicate GoneForGood(s: State, t: Token) {
    forall after :: Exec(Vacant, s, after).Some? ==> Lost(Exec(Vacant, s, after).value, t)
  }

  /** In every reachable state the attempt that gives up its token can do so.  When
      its record is at the canonical name, the name is vacant afterwards and the
      record never comes back; when it is not, no other record is touched. */
  lemma {:induction false} LettingGoVacates(before: seq<Step>, s: State, a: AttemptId, c: Choice)
    requires Exec(Vacant, Init(), before) == Some(s) && Live(s, a) && LetsGo(s.attempts[a].pc, c)
    ensures Next(Vacant, s, Act(a, c)).Some?
    ensures
      var t, n := s.attempts[a].pc.token, Next(Vacant, s, Act(a, c)).value;
      && n.quarantine == s.quarantine && n.requests == s.requests
      && (forall b :: !Holds(n, b, t))
      && (s.lock == Some(t) ==> n.lock.None? && GoneForGood(n, t))
      && (s.lock != Some(t) ==> n.lock == s.lock)
  {
    var t, n := s.attempts[a].pc.token, Next(Vacant, s, Act(a, c)).value;
    AtMostOneAdmitted(Init(), before, s);
    assert Holds(s, a, t);
    OnlyTheActorMoves(Vacant, s, a, c);
    assert n.quarantine == s.quarantine && n.uuids == s.uuids;
    forall b ensures !Holds(n, b, t) {
      assert Holds(n, b, t) && b != a ==> Holds(s, b, t);
    }
    if s.lock == Some(t) {
      assert Lost(n, t);
      forall after | Exec(Vacant, n, after).Some? ensures Lost(Exec(Vacant, n, after).value, t) {
        LostStaysLost(Vacant, n, after, t);
      }
    }
  }

  /** In an undisturbed run every admitted owner's release vacates the canonical
      name and ends its attempt. */
  lemma {:induction false} ReleaseVacates(steps: seq<Step>, s: State, a: AttemptId)
    requires UndisturbedRun(Init(), steps) && Exec(Vacant, Init(), steps) == Some(s) && IsAdmitted(s, a)
    ensures Next(Vacant, s, Act(a, Go)).Some?
    ensures
      var n := Next(Vacant, s, Act(a, Go)).value;
      n.lock.None? && GoneForGood(n, s.attempts[a].pc.token) && n.attempts == s.attempts[a := Attempt(s.attempts[a].pid, Left)]
  {
    OwnerFindsItsRecord(steps, s, a);
    LettingGoVacates(steps, s, a, Go);
  }

  // ---------------------------------------------------------------------
  // Recovery

  /** Everything on disk was left there by processes that have died. */
  ghost predicate AllLeftByDead(s: State) {
    (s.lock.Some? ==> s.lock.value.pid in s.dead) &&
    (forall r :: r in s.requests ==> r.pid in s.dead) &&
    (forall q :: q in s.quarantine ==> q.pid in s.dead && s.quarantine[q].pid in s.dead)
  }

  /** A reconciler drops the requests of dead processes. */
  lemma {:induction false} DropsAllRequests(w: Setting, origin: State, s: State, a: AttemptId) returns (s': State)
    requires Reaches(w, origin, s) && Live(s, a) && s.attempts[a].pc == DropDeadRequests(s.requests)
    requires forall r :: r in s.requests ==> r.pid in s.dead
    ensures s' == At(s.(requests := {}), a, DropDeadRequests({})) && Reaches(w, origin, s')
    decreases s.requests
  {
    s' := s;
    if r :| r in s.requests {
      s' := Then(w, origin, s, Act(a, Pick(r)));
      s' := DropsAllRequests(w, origin, s', a);
    } else {
      assert s.requests == {};
    }
  }

  /** It removes one quarantined record of a dead process. */
  lemma {:induction false} RemovesOne(w: Setting, origin: State, s: State, a: AttemptId, q: RequestId) returns (s': State)
    requires Reaches(w, origin, s) && Live(s, a) && s.attempts[a].pc == VisitQuarantines(s.quarantine.Keys)
    requires q in s.quarantine && q !in s.requests && q.pid in s.dead && s.quarantine[q].pid in s.dead
    ensures s' == At(s.(quarantine := s.quarantine - {q}), a, VisitQuarantines(s.quarantine.Keys - {q}))
    ensures Reaches(w, origin, s')
  {
    s' := Then(w, origin, s, Act(a, Pick(q)));
    s' := Then(w, origin, s', Act(a, Go));
    s' := Then(w, origin, s', Act(a, Go));
    s' := Then(w, origin, s', Act(a, Go));
  }

  /** It removes all of them. */
  lemma {:induction false} RemovesAll(w: Setting, origin: State, s: State, a: AttemptId) returns (s': State)
    requires Reaches(w, origin, s) && Live(s, a) && s.attempts[a].pc == VisitQuarantines(s.quarantine.Keys)
    requires s.requests == {}
    requires forall q :: q in s.quarantine ==> q.pid in s.dead && s.quarantine[q].pid in s.dead
    ensures s' == At(s.(quarantine := map[]), a, VisitQuarantines({})) && Reaches(w, origin, s')
    decreases |s.quarantine|
  {
    s' := s;
    if q :| q in s.quarantine {
      s' := RemovesOne(w, origin, s, a, q);
      assert s'.quarantine.Keys == s.quarantine.Keys - {q} && |s'.quarantine.Keys| < |s.quarantine.Keys|;
      s' := RemovesAll(w, origin, s', a);
    } else {
      assert s.quarantine.Keys == {} && s.quarantine == map[];
      assert s == s.(quarantine := map[]);
    }
  }

  /** A new attempt clears the reclaim artifacts and gets to its link. */
  lemma {:induction false} ClearsArtifacts(w: Setting, origin: State, s: State, a: AttemptId, pid: Pid) returns (s': State)
    requires Reaches(w, origin, s) && AllLeftByDead(s) && a !in s.attempts && pid !in s.dead
    ensures
      s' == s.(requests := {}, quarantine := map[], attempts := s.attempts[a := Attempt(pid, Publish)])
    ensures Reaches(w, origin, s')
  {
    s' := DropsThem(w, origin, s, a, pid);
    s' := RemovesAll(w, origin, s', a);
    s' := Looks(w, origin, s', a);
  }

  lemma {:induction false} DropsThem(w: Setting, origin: State, s: State, a: AttemptId, pid: Pid) returns (s': State)
    requires Reaches(w, origin, s) && a !in s.attempts && pid !in s.dead
    requires forall r :: r in s.requests ==> r.pid in s.dead
    ensures
      var visiting := VisitQuarantines(s.quarantine.Keys);
      s' == s.(requests := {}, attempts := s.attempts[a := Attempt(pid, visiting)])
    ensures Reaches(w, origin, s')
  {
    s' := Then(w, origin, s, Start(a, pid));
    s' := Then(w, origin, s', Act(a, Go));
    s' := DropsAllRequests(w, origin, s', a);
    s' := Then(w, origin, s', Act(a, Go));
  }

  /** A new attempt of a live process clears away whatever dead processes have left
      (requests, quarantines, the lock) and is admitted, by its own steps alone:
      afterwards the directory holds its record and nothing else. */
  lemma {:induction false} DeadLeaveNothingBlocking(w: Setting, s: State, a: AttemptId, pid: Pid) returns (z: State)
    requires AllLeftByDead(s) && a !in s.attempts && pid !in s.dead
    ensures Reaches(w, s, z) && IsAdmitted(z, a) && z.dead == s.dead
    ensures z.lock == Some(z.attempts[a].pc.token) && z.requests == {} && z.quarantine == map[]
    ensures z.attempts == s.attempts[a := Attempt(pid, z.attempts[a].pc)]
  {
    var u := SomeAbove(s.uuids);
    Nothing(w, s);
    z := ClearsArtifacts(w, s, s, a, pid);
    if s.lock.Some? {
      z := Reclaims(w, s, z, a, u);
    }
    z := Links(w, s, z, a, u + 2);
    z := Passes(w, s, z, a);
  }

  lemma {:induction false} AllDie(w: Setting, origin: State, s: State, pids: set<Pid>) returns (s': State)
    requires Reaches(w, origin, s) && !w.considerate
    ensures s' == s.(dead := s.dead + pids) && Reaches(w, origin, s')
    decreases pids
  {
    s' := s;
    if p :| p in pids {
      s' := Then(w, origin, s, Die(p));
      s' := AllDie(w, origin, s', pids - {p});
      assert s.dead + {p} + (pids - {p}) == s.dead + pids;
    } else {
      assert s.dead + pids == s.dead;
    }
  }

  /** Everyone with something on disk. */
  function OnDisk(s: State): set<Pid> {
    (if s.lock.Some? then {s.lock.value.pid} else {}) +
    (set r | r in s.requests :: r.pid) +
    (set q | q in s.quarantine :: q.pid) + (set q | q in s.quarantine :: s.quarantine[q].pid)
  }

  /** No state is stuck: whatever has happened, if those die that have something on
      disk, a new process is admitted. */
  lemma {:induction false} NoStateIsStuck(mode: RenameMode, s: State)
    ensures exists steps, a :: Exec(mode, s, steps).Some? && IsAdmitted(Exec(mode, s, steps).value, a)
  {
    var w := Setting(mode, false);
    Nothing(w, s);
    var s' := AllDie(w, s, s, OnDisk(s));
    var a := SomeAbove(s'.attempts.Keys);
    var pid := SomeAbove(s'.dead);
    var z := DeadLeaveNothingBlocking(w, s', a, pid);
    var steps :| Leads(w, s, steps, s');
    var more :| Leads(w, s', more, z);
    ExecOn(mode, s, steps, more);
    assert Exec(mode, s, steps + more) == Some(z) && IsAdmitted(z, a);
  }

  lemma {:induction false} ExecOn(mode: RenameMode, s: State, steps: seq<Step>, more: seq<Step>)
    requires Exec(mode, s, steps).Some?
    ensures Exec(mode, s, steps + more) == Exec(mode, Exec(mode, s, steps).value, more)
    decreases |steps|
  {
    if steps == [] {
      assert steps + more == more;
    } else {
      assert (steps + more)[1..] == steps[1..] + more;
      ExecOn(mode, Next(mode, s, steps[0]).value, steps[1..], more);
    }
  }

  // ---------------------------------------------------------------------
  // A reclaim keeps others out

  /** A request, or else a quarantine, is on disk in every state of the run. */
  ghost predicate Throughout(mode: RenameMode, s: State, steps: seq<Step>, p: State -> bool)
    decreases |steps|
  {
    p(s) &&
    (steps != [] && Next(mode, s, steps[0]).Some? ==> Throughout(mode, Next(mode, s, steps[0]).value, steps[1..], p))
  }

  predicate Requested(s: State) { s.requests != {} }

  predicate Quarantined(s: State) { s.quarantine != map[] }

  /** How far an attempt has come: it has read the request listing before its link,
      then the quarantine listing, has linked, has read the requests again, and is
      admitted. */
  function Progress(s: State, a: AttemptId): nat {
    if a !in s.attempts then 0
    else
      match s.attempts[a].pc
      case CheckQuarantines => 1
      case Publish => 2
      case Linked(_) => 3
      case RecheckQuarantines(_) => 4
      case Admitted(_) => 5
      case _ => 0
  }

  /** An attempt comes forward by one of its own acquiring steps at a time, and only
      when the listing that it reads is empty. */
  lemma {:induction false} AcquiringStops(s: State, a: AttemptId, c: Choice)
    requires a in s.attempts && Acquire(s, a, c).Some?
    ensures
      var n := Acquire(s, a, c).value;
      && Progress(n, a) <= Progress(s, a) + 1
      && (Requested(s) ==> (Progress(s, a) == 0 || Progress(s, a) == 3) ==> Progress(n, a) <= Progress(s, a))
      && (Quarantined(s) ==> (Progress(s, a) == 1 || Progress(s, a) == 4) ==> Progress(n, a) <= Progress(s, a))
  {
  }

  lemma {:induction false} ReclaimingStops(mode: RenameMode, s: State, a: AttemptId, c: Choice)
    requires a in s.attempts && Reclaim(mode, s, a, c).Some?
    ensures Progress(Reclaim(mode, s, a, c).value, a) == 0
  {
  }

  lemma {:induction false} ReconcilingStops(mode: RenameMode, s: State, a: AttemptId, c: Choice)
    requires a in s.attempts && Reconcile(mode, s, a, c).Some?
    ensures Progress(Reconcile(mode, s, a, c).value, a) == 0
  {
  }

  lemma {:induction false} StepStopsAt(mode: RenameMode, s: State, step: Step, a: AttemptId)
    requires Next(mode, s, step).Some?
    ensures
      var n := Next(mode, s, step).value;
      && Progress(n, a) <= Progress(s, a) + 1
      && (Requested(s) ==> (Progress(s, a) == 0 || Progress(s, a) == 3) ==> Progress(n, a) <= Progress(s, a))
      && (Quarantined(s) ==> (Progress(s, a) == 1 || Progress(s, a) == 4) ==> Progress(n, a) <= Progress(s, a))
  {
    if step.Act? {
      OnlyTheActorMoves(mode, s, step.a, step.c);
      if Next(mode, s, step) == Acquire(s, step.a, step.c) {
        AcquiringStops(s, step.a, step.c);
      } else if Next(mode, s, step) == Reclaim(mode, s, step.a, step.c) {
        ReclaimingStops(mode, s, step.a, step.c);
      } else {
        ReconcilingStops(mode, s, step.a, step.c);
      }
    }
  }

  /** While a request is on disk, whoever has not read the request listing does not
      link, and whoever has not read it again does not get admitted. */
  lemma {:induction false} RequestKeepsOut(mode: RenameMode, s: State, steps: seq<Step>, z: State, a: AttemptId)
    requires Exec(mode, s, steps) == Some(z) && Throughout(mode, s, steps, Requested)
    ensures Progress(s, a) < 1 ==> Progress(z, a) < 1
    ensures Progress(s, a) < 4 ==> Progress(z, a) < 4
    decreases |steps|
  {
    if steps != [] {
      StepStopsAt(mode, s, steps[0], a);
      RequestKeepsOut(mode, Next(mode, s, steps[0]).value, steps[1..], z, a);
    }
  }

  /** While a quarantine is there, whoever has not read the quarantine listing does
      not link, and nobody gets admitted. */
  lemma {:induction false} QuarantineKeepsOut(mode: RenameMode, s: State, steps: seq<Step>, z: State, a: AttemptId)
    requires Exec(mode, s, steps) == Some(z) && Throughout(mode, s, steps, Quarantined)
    ensures Progress(s, a) < 2 ==> Progress(z, a) < 2
    ensures Progress(s, a) < 5 ==> Progress(z, a) < 5
    decreases |steps|
  {
    if steps != [] {
      StepStopsAt(mode, s, steps[0], a);
      QuarantineKeepsOut(mode, Next(mode, s, steps[0]).value, steps[1..], z, a);
    }
  }

  /** The attempt takes no step, and its process does not die. */
  predicate Rests(steps: seq<Step>, a: AttemptId, pid: Pid) {
    forall i :: 0 <= i < |steps| ==> !(steps[i].Act? && steps[i].a == a) && steps[i] != Die(pid)
  }

  lemma {:induction false} RestingKeepsRequest(s: State, steps: seq<Step>, b: AttemptId)
    requires Inv(s) && RequestsPublished(s) && Exec(Vacant, s, steps).Some?
    requires Live(s, b) && RequestOf(s.attempts[b].pc).Some? && Rests(steps, b, s.attempts[b].pid)
    ensures Throughout(Vacant, s, steps, Requested)
    decreases |steps|
  {
    assert RequestOf(s.attempts[b].pc).value in s.requests;
    if steps != [] {
      var n := Next(Vacant, s, steps[0]).value;
      NextKeepsInv(s, steps[0]);
      RequestsStayPublished(s, steps[0]);
      if steps[0].Act? {
        OnlyTheActorMoves(Vacant, s, steps[0].a, steps[0].c);
      }
      assert n.attempts[b] == s.attempts[b];
      RestingKeepsRequest(n, steps[1..], b);
    }
  }

  lemma {:induction false} RunKeepsPublished(s: State, steps: seq<Step>, z: State)
    requires Inv(s) && RequestsPublished(s) && Exec(Vacant, s, steps) == Some(z)
    ensures Inv(z) && RequestsPublished(z)
    decreases |steps|
  {
    if steps != [] {
      NextKeepsInv(s, steps[0]);
      RequestsStayPublished(s, steps[0]);
      RunKeepsPublished(Next(Vacant, s, steps[0]).value, steps[1..], z);
    }
  }

  /** From a live reclaimer's request until it removes it or dies, no attempt that has
      still to read the request listing links, and none that has still to read it
      again is admitted, however long the others go on. */
  lemma {:induction false} LiveReclaimerKeepsOut(before: seq<Step>, s: State, b: AttemptId,
                                                 steps: seq<Step>, z: State, a: AttemptId)
    requires Exec(Vacant, Init(), before) == Some(s) && Live(s, b) && RequestOf(s.attempts[b].pc).Some?
    requires Exec(Vacant, s, steps) == Some(z) && Rests(steps, b, s.attempts[b].pid)
    ensures Progress(s, a) < 1 ==> Progress(z, a) < 1
    ensures Progress(s, a) < 4 ==> Progress(z, a) < 4
  {
    RunKeepsPublished(Init(), before, s);
    RestingKeepsRequest(s, steps, b);
    RequestKeepsOut(Vacant, s, steps, z, a);
  }

  // ---------------------------------------------------------------------
  // What others do to a quarantine

  /** The quarantine a reconciler has turned to. */
  function Visited(pc: Pc): Option<RequestId> {
    match pc
    case ReadParked(q, _) => Some(q)
    case ProbeParked(q, _, _) => Some(q)
    case RemoveParked(q, _, _) => Some(q)
    case CheckVacant(q, _) => Some(q)
    case RestoreParked(q, _) => Some(q)
    case _ => None
  }

  function StillToVisit(pc: Pc): set<RequestId> {
    match pc
    case VisitQuarantines(todo) => todo
    case ReadParked(_, todo) => todo
    case ProbeParked(_, _, todo) => todo
    case RemoveParked(_, _, todo) => todo
    case CheckVacant(_, todo) => todo
    case RestoreParked(_, todo) => todo
    case _ => {}
  }

  predicate VisitsUncovered(pc: Pc, requests: set<RequestId>, dead: set<Pid>, uuids: set<nat>) {
    (forall q :: q in StillToVisit(pc) ==> q.uuid in uuids) &&
    (Visited(pc).Some? ==> Visited(pc).value !in requests && Visited(pc).value.uuid in uuids) &&
    (pc.RemoveParked? ==> pc.q.pid in dead && pc.seen.pid in dead)
  }

  /** A reconciler turns only to quarantines whose request is gone, and removes only
      what a dead process left of a dead process. */
  ghost predicate ReconcilersCareful(s: State) {
    (forall q :: q in s.quarantine ==> q.uuid in s.uuids) &&
    (forall a :: a in s.attempts && RequestOf(s.attempts[a].pc).Some? ==>
       RequestOf(s.attempts[a].pc).value.uuid in s.uuids) &&
    (forall a :: a in s.attempts ==> VisitsUncovered(s.attempts[a].pc, s.requests, s.dead, s.uuids))
  }

  /** No step takes back an id that was drawn or a death, and a request that it adds
      has a new id. */
  lemma {:induction false} StepAddsFresh(mode: RenameMode, s: State, step: Step)
    requires Next(mode, s, step).Some?
    ensures
      var n := Next(mode, s, step).value;
      && s.uuids <= n.uuids && s.dead <= n.dead
      && forall r :: r in n.requests && r !in s.requests ==> r.uuid !in s.uuids
  {
  }

  lemma {:induction false} VisitorStaysCareful(mode: RenameMode, s: State, a: AttemptId, c: Choice)
    requires ReconcilersCareful(s) && a in s.attempts && Reconcile(mode, s, a, c).Some?
    ensures
      var n := Reconcile(mode, s, a, c).value;
      VisitsUncovered(n.attempts[a].pc, n.requests, n.dead, n.uuids) && n.quarantine.Keys <= s.quarantine.Keys
  {
  }

  /** A reclaimer visits no quarantine, and turns nothing but its own request into one. */
  lemma {:induction false} ReclaimerStep(mode: RenameMode, s: State, a: AttemptId, c: Choice)
    requires a in s.attempts && Reclaim(mode, s, a, c).Some?
    ensures
      var pc, n := s.attempts[a].pc, Reclaim(mode, s, a, c).value;
      && StillToVisit(n.attempts[a].pc) == {} && Visited(n.attempts[a].pc).None?
      && s.uuids <= n.uuids
      && (forall q :: q in n.quarantine ==> q in s.quarantine || RequestOf(pc) == Some(q))
      && (RequestOf(n.attempts[a].pc).Some? ==>
            RequestOf(n.attempts[a].pc).value.uuid in n.uuids || RequestOf(n.attempts[a].pc) == RequestOf(pc))
  {
  }

  lemma {:induction false} ReclaimerStaysCareful(mode: RenameMode, s: State, a: AttemptId, c: Choice)
    requires ReconcilersCareful(s) && a in s.attempts && Reclaim(mode, s, a, c).Some?
    ensures
      var n := Reclaim(mode, s, a, c).value;
      && VisitsUncovered(n.attempts[a].pc, n.requests, n.dead, n.uuids)
      && (RequestOf(n.attempts[a].pc).Some? ==> RequestOf(n.attempts[a].pc).value.uuid in n.uuids)
      && forall q :: q in n.quarantine ==> q.uuid in n.uuids
  {
    ReclaimerStep(mode, s, a, c);
  }

  lemma {:induction false} AcquirerStaysCareful(s: State, a: AttemptId, c: Choice)
    requires a in s.attempts && Acquire(s, a, c).Some?
    ensures
      var n := Acquire(s, a, c).value;
      && VisitsUncovered(n.attempts[a].pc, n.requests, n.dead, n.uuids)
      && RequestOf(n.attempts[a].pc).None? && n.quarantine == s.quarantine
  {
  }

  lemma {:induction false} ActorStaysCareful(mode: RenameMode, s: State, a: AttemptId, c: Choice)
    requires ReconcilersCareful(s) && Next(mode, s, Act(a, c)).Some?
    ensures
      var n := Next(mode, s, Act(a, c)).value;
      && a in n.attempts
      && VisitsUncovered(n.attempts[a].pc, n.requests, n.dead, n.uuids)
      && (RequestOf(n.attempts[a].pc).Some? ==> RequestOf(n.attempts[a].pc).value.uuid in n.uuids)
      && forall q :: q in n.quarantine ==> q.uuid in n.uuids
  {
    if Next(mode, s, Act(a, c)) == Acquire(s, a, c) {
      AcquirerStaysCareful(s, a, c);
    } else if Next(mode, s, Act(a, c)) == Reclaim(mode, s, a, c) {
      ReclaimerStaysCareful(mode, s, a, c);
    } else {
      VisitorStaysCareful(mode, s, a, c);
    }
    StepAddsFresh(mode, s, Act(a, c));
  }

  lemma {:induction false} CarefulStep(mode: RenameMode, s: State, step: Step)
    requires ReconcilersCareful(s) && Next(mode, s, step).Some?
    ensures ReconcilersCareful(Next(mode, s, step).value)
  {
    StepAddsFresh(mode, s, step);
    if step.Act? {
      OnlyTheActorMoves(mode, s, step.a, step.c);
      ActorStaysCareful(mode, s, step.a, step.c);
    }
  }

  lemma {:induction false} CarefulRun(mode: RenameMode, s: State, steps: seq<Step>, z: State)
    requires ReconcilersCareful(s) && Exec(mode, s, steps) == Some(z)
    ensures ReconcilersCareful(z)
    decreases |steps|
  {
    if steps != [] {
      CarefulStep(mode, s, steps[0]);
      CarefulRun(mode, Next(mode, s, steps[0]).value, steps[1..], z);
    }
  }

  /** The step is taken by the attempt that made the quarantine. */
  predicate ByItsReclaimer(s: State, step: Step, q: RequestId) {
    step.Act? && step.a in s.attempts && RequestOf(s.attempts[step.a].pc) == Some(q)
  }

  /** In every run a quarantine is left alone by everyone but the reclaimer that made
      it as long as its request is on disk; after that it is either restored or, when
      both that reclaimer and the owner of the record have died, removed. */
  lemma {:induction false} QuarantineIsSafe(mode: RenameMode, before: seq<Step>, s: State, step: Step, q: RequestId)
    requires Exec(mode, Init(), before) == Some(s) && q in s.quarantine
    requires Next(mode, s, step).Some? && !ByItsReclaimer(s, step, q)
    ensures
      var n, t := Next(mode, s, step).value, s.quarantine[q];
      (q in n.quarantine && n.quarantine[q] == t) ||
      (q !in s.requests && (n.lock == Some(t) || (q.pid in s.dead && t.pid in s.dead)))
  {
    CarefulRun(mode, Init(), before, s);
    assert step.Act? && step.a in s.attempts ==>
      VisitsUncovered(s.attempts[step.a].pc, s.requests, s.dead, s.uuids);
  }

  // ---------------------------------------------------------------------
  // Going on

  /** Whatever the others have done, an attempt that has not ended can take a step. */
  lemma {:induction false} EveryAttemptCanStep(mode: RenameMode, s: State, a: AttemptId) returns (c: Choice)
    requires Live(s, a) && s.attempts[a].pc != Left
    ensures Next(mode, s, Act(a, c)).Some?
  {
    var u := SomeAbove(s.uuids);
    c := Go;
    match s.attempts[a].pc
    case DropDeadRequests(todo) =>
      if r :| r in todo {
        c := Pass(r);
      } else {
        assert todo == {};
      }
    case VisitQuarantines(todo) =>
      if r :| r in todo {
        c := Pick(r);
      } else {
        assert todo == {};
      }
    case ReadParked(_, _) => c := Skip;
    case ProbeParked(_, _, _) => c := Skip;
    case PublishRequest => c := Fresh(u);
    case Publish => c := Fresh(u);
    case Observe(_) => c := Skip;
    case Restore(r) =>
      if r in s.quarantine && !MayPutBack(mode, s) {
        c := GiveUp;
      }
    case _ =>
  }

  /** A reclaimer that no longer finds its quarantine takes its request back and tries
      again, unless it was about to restore it. */
  lemma {:induction false} VanishedQuarantine(w: Setting, s: State, a: AttemptId) returns (s': State)
    requires Live(s, a)
    requires var pc := s.attempts[a].pc; (pc.Verify? || pc.Discard? || pc.Restore?) && pc.r !in s.quarantine
    ensures Reaches(w, s, s')
    ensures
      var pc := s.attempts[a].pc;
      s' == At(s.(requests := s.requests - {pc.r}), a, if pc.Restore? then Left else Begin)
  {
    Nothing(w, s);
    s' := Then(w, s, s, Act(a, Go));
    s' := Then(w, s, s', Act(a, Go));
  }
}
