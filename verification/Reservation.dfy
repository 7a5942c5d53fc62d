/** The task-creation reservation: a lock shared by processes that see nothing
    of each other except the names in one directory.

    The directory holds the canonical lock name, reclaim-request markers and
    quarantined lock records.  Every call that other processes can notice or
    whose answer they can change is one atomic step of one attempt: a rename, a
    link, the removal of a marker, the listing of a directory, the reading of a
    record, and the liveness probe that follows a reading.  Any process may die
    between two steps.  Ages and clocks are not modelled: where the code compares
    an age, both outcomes are possible. */
module Reservation {
  import opened Base

  type Pid = nat
  type AttemptId = nat

  /** A published lock record, complete from the moment it can be seen. */
  datatype Token = Token(pid: Pid, uuid: nat)

  /** The artifact id shared by a request marker and its quarantine. */
  datatype RequestId = RequestId(pid: Pid, uuid: nat)

  /** Where one attempt stands.  `todo` is the rest of a directory listing that
      was read earlier and may be out of date. */
  datatype Pc =
    | Begin
    | DropDeadRequests(todo: set<RequestId>)
    | VisitQuarantines(todo: set<RequestId>)
    | ReadParked(q: RequestId, todo: set<RequestId>)
    | ProbeParked(q: RequestId, seen: Token, todo: set<RequestId>)
    | RemoveParked(q: RequestId, seen: Token, todo: set<RequestId>)
    | CheckVacant(q: RequestId, todo: set<RequestId>)
    | RestoreParked(q: RequestId, todo: set<RequestId>)
    | CheckRequests
    | CheckQuarantines
    | Publish
    | Linked(token: Token)
    | RecheckQuarantines(token: Token)
    | Withdraw(token: Token)
    | Admitted(token: Token)
    | PublishRequest
    | Observe(r: RequestId)
    | Probe(r: RequestId, seen: Token)
    | MoveAside(r: RequestId, seen: Token)
    | Verify(r: RequestId, seen: Token)
    | Restore(r: RequestId)
    | Discard(r: RequestId, seen: Token)
    | DropRequest(r: RequestId, failed: bool)
    | Left

  datatype Attempt = Attempt(pid: Pid, pc: Pc)

  datatype State = State(
    lock: Option<Token>,
    requests: set<RequestId>,
    quarantine: map<RequestId, Token>,
    attempts: map<AttemptId, Attempt>,
    dead: set<Pid>,
    uuids: set<nat>)

  /** What `rename` does when the target name is taken: refuse, or replace the
      file as POSIX specifies. */
  datatype RenameMode = Vacant | Replaces

  /** The outcome of everything one step does not control: an age comparison,
      a random id, the order of a listing, an error code, the clock. */
  datatype Choice = Go | Skip | GiveUp | Fresh(uuid: nat) | Pick(r: RequestId) | Pass(r: RequestId)

  datatype Step = Start(a: AttemptId, pid: Pid) | Die(pid: Pid) | Act(a: AttemptId, c: Choice)

  function Init(): State {
    State(None, {}, map[], map[], {}, {})
  }

  predicate Live(s: State, a: AttemptId) {
    a in s.attempts && s.attempts[a].pid !in s.dead
  }

  function At(s: State, a: AttemptId, pc: Pc): State
    requires a in s.attempts
  {
    s.(attempts := s.attempts[a := s.attempts[a].(pc := pc)])
  }

  /** Compare the record at the canonical name with a token and, if it is that
      token, rename it away. */
  function Unlock(s: State, t: Token): State {
    if s.lock == Some(t) then s.(lock := None) else s
  }

  /** Rename a quarantine onto the canonical name. */
  function PutBack(s: State, q: RequestId): State
    requires q in s.quarantine
  {
    s.(lock := Some(s.quarantine[q]), quarantine := s.quarantine - {q})
  }

  predicate MayPutBack(mode: RenameMode, s: State) {
    s.lock.None? || mode.Replaces?
  }

  function When(condition: bool, s: State): Option<State> {
    if condition then Some(s) else None
  }

  /** reconcileInterruptedReclaims: drop the requests of dead processes, then
      remove or restore quarantines that no request covers. */
  function Reconcile(mode: RenameMode, s: State, a: AttemptId, c: Choice): Option<State>
    requires a in s.attempts
  {
    match s.attempts[a].pc
    case DropDeadRequests(todo) =>
      if c.Go? then When(todo == {}, At(s, a, VisitQuarantines(s.quarantine.Keys)))
      else if c.Pass? then When(c.r in todo, At(s, a, DropDeadRequests(todo - {c.r})))
      else if !c.Pick? || c.r !in todo || c.r.pid !in s.dead then None
      else if c.r !in s.requests then Some(At(s, a, Left))
      else Some(At(s.(requests := s.requests - {c.r}), a, DropDeadRequests(todo - {c.r})))
    case VisitQuarantines(todo) =>
      if c.Go? then When(todo == {}, At(s, a, CheckRequests))
      else if !c.Pick? || c.r !in todo then None
      else if c.r in s.requests then Some(At(s, a, VisitQuarantines(todo - {c.r})))
      else Some(At(s, a, ReadParked(c.r, todo - {c.r})))
    case ReadParked(q, todo) =>
      if c.Skip? then Some(At(s, a, CheckVacant(q, todo)))
      else if c.Go? && q in s.quarantine then Some(At(s, a, ProbeParked(q, s.quarantine[q], todo))) else None
    case ProbeParked(q, t, todo) =>
      if c.Skip? then Some(At(s, a, CheckVacant(q, todo)))
      else When(c.Go? && t.pid in s.dead && q.pid in s.dead, At(s, a, RemoveParked(q, t, todo)))
    case RemoveParked(q, t, todo) =>
      if !c.Go? then None
      else if q in s.quarantine && s.quarantine[q] == t
      then Some(At(s.(quarantine := s.quarantine - {q}), a, VisitQuarantines(todo)))
      else Some(At(s, a, Left))
    case CheckVacant(q, todo) =>
      When(c.Go?, At(s, a, if s.lock.None? then RestoreParked(q, todo) else VisitQuarantines(todo)))
    case RestoreParked(q, todo) =>
      if !c.Go? then None
      else if q in s.quarantine && MayPutBack(mode, s)
      then Some(At(PutBack(s, q), a, VisitQuarantines(todo)))
      else Some(At(s, a, VisitQuarantines(todo)))
    case _ => None
  }

  /** acquireTaskCreationReservation and the release it returns.  When the staging
      file cannot be cleaned up, a link is given up again; by the error's code the
      attempt goes on to reclaim (`Skip`) or ends (`GiveUp`). */
  function Acquire(s: State, a: AttemptId, c: Choice): Option<State>
    requires a in s.attempts
  {
    match s.attempts[a].pc
    case Begin =>
      if c.Go? then Some(At(s, a, DropDeadRequests(s.requests))) else When(c.GiveUp?, At(s, a, Left))
    case CheckRequests =>
      When(c.Go?, At(s, a, if s.requests == {} then CheckQuarantines else Begin))
    case CheckQuarantines =>
      When(c.Go?, At(s, a, if s.quarantine == map[] then Publish else Begin))
    case Publish =>
      if c.Skip? then Some(At(s, a, PublishRequest))
      else if c.GiveUp? then Some(At(s, a, Left))
      else if !c.Fresh? || c.uuid in s.uuids then None
      else
        var t := Token(s.attempts[a].pid, c.uuid);
        var s' := s.(uuids := s.uuids + {c.uuid});
        if s.lock.None? then Some(At(s'.(lock := Some(t)), a, Linked(t)))
        else Some(At(s', a, PublishRequest))
    case Linked(t) =>
      if c.Go? then Some(At(s, a, if s.requests == {} then RecheckQuarantines(t) else Withdraw(t)))
      else if c.Skip? then Some(At(Unlock(s, t), a, PublishRequest))
      else When(c.GiveUp?, At(Unlock(s, t), a, Left))
    case RecheckQuarantines(t) =>
      When(c.Go?, At(s, a, if s.quarantine == map[] then Admitted(t) else Withdraw(t)))
    case Withdraw(t) =>
      When(c.Go?, At(Unlock(s, t), a, if s.lock == Some(t) then Begin else Left))
    case Admitted(t) =>
      When(c.Go?, At(Unlock(s, t), a, Left))
    case _ => None
  }

  /** reclaimStaleLock: publish a request, observe a dead owner, rename the lock
      aside, and only then decide what was moved. */
  function Reclaim(mode: RenameMode, s: State, a: AttemptId, c: Choice): Option<State>
    requires a in s.attempts
  {
    match s.attempts[a].pc
    case PublishRequest =>
      if !c.Fresh? || c.uuid in s.uuids then None
      else
        var r := RequestId(s.attempts[a].pid, c.uuid);
        Some(At(s.(requests := s.requests + {r}, uuids := s.uuids + {c.uuid}), a, Observe(r)))
    case Observe(r) =>
      if c.Skip? then Some(At(s, a, DropRequest(r, false)))
      else if c.Go? && s.lock.Some? then Some(At(s, a, Probe(r, s.lock.value))) else None
    case Probe(r, t) =>
      When(c.Go?, At(s, a, if t.pid in s.dead then MoveAside(r, t) else DropRequest(r, false)))
    case MoveAside(r, t) =>
      if c.Skip? || (c.Go? && s.lock.None?) then Some(At(s, a, DropRequest(r, false)))
      else if c.Go?
      then Some(At(s.(lock := None, quarantine := s.quarantine[r := s.lock.value]), a, Verify(r, t)))
      else None
    case Verify(r, t) =>
      When(c.Go?, At(s, a, if r !in s.quarantine then DropRequest(r, false)
                           else if s.quarantine[r] == t then Discard(r, t) else Restore(r)))
    case Restore(r) =>
      if r !in s.quarantine then When(c.Go?, At(s, a, DropRequest(r, true)))
      else if MayPutBack(mode, s) then When(c.Go?, At(PutBack(s, r), a, DropRequest(r, false)))
      else When(c.GiveUp?, At(s, a, DropRequest(r, true)))
    case Discard(r, t) =>
      if !c.Go? then None
      else if r !in s.quarantine then Some(At(s, a, DropRequest(r, false)))
      else if s.quarantine[r] == t
      then Some(At(s.(quarantine := s.quarantine - {r}), a, DropRequest(r, false)))
      else Some(At(s, a, DropRequest(r, true)))
    case DropRequest(r, failed) =>
      When(c.Go?, At(s.(requests := s.requests - {r}), a, if failed then Left else Begin))
    case _ => None
  }

  /** One step of the whole system, or `None` when the step is not possible. */
  function Next(mode: RenameMode, s: State, step: Step): Option<State> {
    match step
    case Start(a, pid) =>
      if a in s.attempts || pid in s.dead then None
      else Some(s.(attempts := s.attempts[a := Attempt(pid, Begin)]))
    case Die(pid) => Some(s.(dead := s.dead + {pid}))
    case Act(a, c) =>
      if !Live(s, a) then None
      else
        match s.attempts[a].pc
        case Begin | CheckRequests | CheckQuarantines | Publish | Linked(_) | RecheckQuarantines(_)
             | Withdraw(_) | Admitted(_) => Acquire(s, a, c)
        case PublishRequest | Observe(_) | Probe(_, _) | MoveAside(_, _) | Verify(_, _) | Restore(_)
             | Discard(_, _) | DropRequest(_, _) => Reclaim(mode, s, a, c)
        case _ => Reconcile(mode, s, a, c)
  }

  function Exec(mode: RenameMode, s: State, steps: seq<Step>): Option<State>
    decreases |steps|
  {
    if steps == [] then Some(s)
    else
      var s' := Next(mode, s, steps[0]);
      if s'.None? then None else Exec(mode, s'.value, steps[1..])
  }

  lemma {:induction false} ExecAppend(mode: RenameMode, s: State, steps: seq<Step>, last: Step)
    requires Exec(mode, s, steps).Some?
    ensures Exec(mode, s, steps + [last]) == Next(mode, Exec(mode, s, steps).value, last)
    decreases |steps|
  {
    if steps == [] {
    } else {
      assert (steps + [last])[1..] == steps[1..] + [last];
      ExecAppend(mode, Next(mode, s, steps[0]).value, steps[1..], last);
    }
  }

  /** Only this attempt's place changes, and nobody dies. */
  predicate MovesOnly(s: State, a: AttemptId, s': State) {
    a in s.attempts && s'.dead == s.dead && a in s'.attempts &&
    s'.attempts == s.attempts[a := Attempt(s.attempts[a].pid, s'.attempts[a].pc)]
  }

  lemma {:induction false} AcquireMovesOnly(s: State, a: AttemptId, c: Choice)
    requires a in s.attempts && Acquire(s, a, c).Some?
    ensures MovesOnly(s, a, Acquire(s, a, c).value)
  {
  }

  lemma {:induction false} ReclaimMovesOnly(mode: RenameMode, s: State, a: AttemptId, c: Choice)
    requires a in s.attempts && Reclaim(mode, s, a, c).Some?
    ensures MovesOnly(s, a, Reclaim(mode, s, a, c).value)
  {
  }

  lemma {:induction false} ReconcileMovesOnly(mode: RenameMode, s: State, a: AttemptId, c: Choice)
    requires a in s.attempts && Reconcile(mode, s, a, c).Some?
    ensures MovesOnly(s, a, Reconcile(mode, s, a, c).value)
  {
  }

  /** A step of one attempt is a step of that attempt only. */
  lemma {:induction false} OnlyTheActorMoves(mode: RenameMode, s: State, a: AttemptId, c: Choice)
    requires Next(mode, s, Act(a, c)).Some?
    ensures MovesOnly(s, a, Next(mode, s, Act(a, c)).value)
  {
    if Next(mode, s, Act(a, c)) == Acquire(s, a, c) {
      AcquireMovesOnly(s, a, c);
    } else if Next(mode, s, Act(a, c)) == Reclaim(mode, s, a, c) {
      ReclaimMovesOnly(mode, s, a, c);
    } else {
      ReconcileMovesOnly(mode, s, a, c);
    }
  }

  // ---------------------------------------------------------------------
  // Mutual exclusion

  /** The token an attempt has linked and not yet withdrawn or released. */
  function TokenOf(pc: Pc): Option<Token> {
    match pc
    case Linked(t) => Some(t)
    case RecheckQuarantines(t) => Some(t)
    case Withdraw(t) => Some(t)
    case Admitted(t) => Some(t)
    case _ => None
  }

  /** The request an attempt works under, from publishing it to removing it. */
  function RequestOf(pc: Pc): Option<RequestId> {
    match pc
    case Observe(r) => Some(r)
    case Probe(r, _) => Some(r)
    case MoveAside(r, _) => Some(r)
    case Verify(r, _) => Some(r)
    case Restore(r) => Some(r)
    case Discard(r, _) => Some(r)
    case DropRequest(r, _) => Some(r)
    case _ => None
  }

  /** A record the attempt is about to move or remove although it is not its own. */
  function VictimOf(pc: Pc): Option<Token> {
    match pc
    case RemoveParked(_, t, _) => Some(t)
    case MoveAside(_, t) => Some(t)
    case Verify(_, t) => Some(t)
    case Discard(_, t) => Some(t)
    case _ => None
  }

  predicate Holds(s: State, a: AttemptId, t: Token) {
    Live(s, a) && TokenOf(s.attempts[a].pc) == Some(t)
  }

  predicate IsAdmitted(s: State, a: AttemptId) {
    Live(s, a) && s.attempts[a].pc.Admitted?
  }

  ghost predicate MutualExclusion(s: State) {
    forall a, b :: IsAdmitted(s, a) && IsAdmitted(s, b) ==> a == b
  }

  predicate Parked(s: State, t: Token) {
    exists q :: q in s.quarantine && s.quarantine[q] == t
  }

  /** No record lies in two places. */
  ghost predicate OnePlace(s: State) {
    (forall q :: q in s.quarantine ==> s.lock != Some(s.quarantine[q])) &&
    (forall q, q' :: q in s.quarantine && q' in s.quarantine && s.quarantine[q] == s.quarantine[q'] ==> q == q')
  }

  /** Random ids are fresh: every id on disk or in an attempt has been drawn. */
  ghost predicate IdsDrawn(s: State) {
    (s.lock.Some? ==> s.lock.value.uuid in s.uuids) &&
    (forall q :: q in s.quarantine ==> q.uuid in s.uuids && s.quarantine[q].uuid in s.uuids) &&
    (forall a :: a in s.attempts ==>
      (TokenOf(s.attempts[a].pc).Some? ==> TokenOf(s.attempts[a].pc).value.uuid in s.uuids) &&
      (RequestOf(s.attempts[a].pc).Some? ==> RequestOf(s.attempts[a].pc).value.uuid in s.uuids))
  }

  /** A live owner's record is at the canonical name or parked, and nobody
      else has its token. */
  ghost predicate OwnersKept(s: State) {
    (forall a, t :: Holds(s, a, t) ==> t.pid == s.attempts[a].pid && (s.lock == Some(t) || Parked(s, t))) &&
    (forall a, b, t :: Holds(s, a, t) && Holds(s, b, t) ==> a == b)
  }

  /** A reclaimer that has not renamed anything yet. */
  predicate BeforeMoving(pc: Pc) {
    pc.Observe? || pc.Probe? || pc.MoveAside?
  }

  /** A request belongs to one attempt, and its quarantine appears only after
      that attempt has renamed the lock aside. */
  ghost predicate RequestsPrivate(s: State) {
    (forall a, b :: a in s.attempts && b in s.attempts && a != b && RequestOf(s.attempts[a].pc).Some? ==>
      RequestOf(s.attempts[a].pc) != RequestOf(s.attempts[b].pc)) &&
    (forall a :: a in s.attempts && BeforeMoving(s.attempts[a].pc) ==> s.attempts[a].pc.r !in s.quarantine)
  }

  /** Nobody removes a record of a live process but its owner. */
  ghost predicate VictimsDead(s: State) {
    forall a :: a in s.attempts && VictimOf(s.attempts[a].pc).Some? ==>
      VictimOf(s.attempts[a].pc).value.pid in s.dead
  }

  ghost predicate Inv(s: State) {
    OnePlace(s) && IdsDrawn(s) && OwnersKept(s) && RequestsPrivate(s) && VictimsDead(s) && MutualExclusion(s)
  }

  /** When a live owner sees no quarantine, its record and that of any other
      live owner are both at the canonical name: there is no other. */
  lemma {:induction false} NoRivalWithoutQuarantine(s: State, a: AttemptId, t: Token)
    requires OwnersKept(s) && Holds(s, a, t) && s.quarantine == map[]
    ensures s.lock == Some(t)
    ensures forall b, u :: Holds(s, b, u) ==> b == a
  {
    forall b, u | Holds(s, b, u) ensures b == a {
      assert !Parked(s, u) && !Parked(s, t);
    }
  }

  /** Moving on without touching the directory. */
  lemma {:induction false} MovingOnKeepsInv(s: State, a: AttemptId, pc: Pc)
    requires Inv(s) && Live(s, a)
    requires TokenOf(pc).None? || TokenOf(pc) == TokenOf(s.attempts[a].pc)
    requires RequestOf(pc).None? || RequestOf(pc) == RequestOf(s.attempts[a].pc)
    requires pc.Admitted? ==> s.quarantine == map[]
    requires pc.Probe? || pc.MoveAside? ==> pc.r !in s.quarantine
    requires !pc.Observe?
    requires VictimOf(pc).Some? ==> VictimOf(pc).value.pid in s.dead
    ensures Inv(At(s, a, pc))
  {
    var s' := At(s, a, pc);
    forall b, t | Holds(s', b, t)
      ensures Holds(s, b, t) && (s'.lock == Some(t) || Parked(s', t))
    {
      if Parked(s, t) {
        var q :| q in s.quarantine && s.quarantine[q] == t;
        assert q in s'.quarantine;
      }
    }
    assert MutualExclusion(s') by {
      if pc.Admitted? {
        NoRivalWithoutQuarantine(s, a, pc.token);
        forall b | IsAdmitted(s', b) ensures b == a {
          assert Holds(s, b, TokenOf(s'.attempts[b].pc).value);
        }
      } else {
        assert forall b :: IsAdmitted(s', b) ==> IsAdmitted(s, b);
      }
    }
  }

  /** Removing a parked record that no live attempt holds. */
  lemma {:induction false} RemovalKeepsInv(s: State, q: RequestId)
    requires Inv(s) && q in s.quarantine
    requires forall b :: !Holds(s, b, s.quarantine[q])
    ensures Inv(s.(quarantine := s.quarantine - {q}))
  {
    var s' := s.(quarantine := s.quarantine - {q});
    forall b, t | Holds(s', b, t) ensures t.pid == s'.attempts[b].pid && (s'.lock == Some(t) || Parked(s', t)) {
      assert Holds(s, b, t);
      if Parked(s, t) {
        var q' :| q' in s.quarantine && s.quarantine[q'] == t;
        assert q' in s'.quarantine && s'.quarantine[q'] == t;
      }
    }
    assert forall b, t :: Holds(s', b, t) ==> Holds(s, b, t);
    assert forall b :: IsAdmitted(s', b) ==> IsAdmitted(s, b);
  }

  /** Clearing the canonical name of a token that no live attempt holds. */
  lemma {:induction false} UnlockKeepsInv(s: State, t: Token)
    requires Inv(s)
    requires forall b :: !Holds(s, b, t)
    ensures Inv(Unlock(s, t))
  {
    var s' := Unlock(s, t);
    forall b, u | Holds(s', b, u) ensures u.pid == s'.attempts[b].pid && (s'.lock == Some(u) || Parked(s', u)) {
      assert Holds(s, b, u);
      if Parked(s, u) {
        var q :| q in s.quarantine && s.quarantine[q] == u;
        assert q in s'.quarantine;
      }
    }
    assert forall b, u :: Holds(s', b, u) ==> Holds(s, b, u);
    assert forall b :: IsAdmitted(s', b) ==> IsAdmitted(s, b);
  }

  /** Restoring a parked record to the canonical name, when no live attempt holds
      the record that is there, if any. */
  lemma {:induction false} PutBackKeepsInv(s: State, q: RequestId)
    requires Inv(s) && q in s.quarantine
    requires s.lock.Some? ==> forall b :: !Holds(s, b, s.lock.value)
    ensures Inv(PutBack(s, q))
  {
    var s' := PutBack(s, q);
    assert forall b, t :: Holds(s', b, t) ==> Holds(s, b, t);
    forall b, t | Holds(s', b, t) ensures t.pid == s'.attempts[b].pid && (s'.lock == Some(t) || Parked(s', t)) {
      assert s.lock != Some(t) && Parked(s, t);
      var q' :| q' in s.quarantine && s.quarantine[q'] == t;
      assert q' != q ==> q' in s'.quarantine && s'.quarantine[q'] == t;
    }
    assert forall b :: IsAdmitted(s', b) ==> IsAdmitted(s, b);
  }

  /** Renaming the lock to a quarantine name that is not in use. */
  lemma {:induction false} MoveAsideKeepsInv(s: State, r: RequestId)
    requires Inv(s) && s.lock.Some? && r !in s.quarantine && r.uuid in s.uuids
    requires forall b :: b in s.attempts && BeforeMoving(s.attempts[b].pc) ==> s.attempts[b].pc.r != r
    ensures Inv(s.(lock := None, quarantine := s.quarantine[r := s.lock.value]))
  {
    var s' := s.(lock := None, quarantine := s.quarantine[r := s.lock.value]);
    forall b, t | Holds(s', b, t) ensures t.pid == s'.attempts[b].pid && Parked(s', t) {
      assert Holds(s, b, t);
      if Parked(s, t) {
        var q :| q in s.quarantine && s.quarantine[q] == t;
        assert q in s'.quarantine && s'.quarantine[q] == t;
      } else {
        assert r in s'.quarantine && s'.quarantine[r] == t;
      }
    }
    assert forall b, t :: Holds(s', b, t) ==> Holds(s, b, t);
    assert forall b :: IsAdmitted(s', b) ==> IsAdmitted(s, b);
  }

  lemma {:induction false} LinkKeepsOwners(s: State, a: AttemptId, t: Token)
    requires IdsDrawn(s) && OwnersKept(s) && MutualExclusion(s)
    requires Live(s, a) && TokenOf(s.attempts[a].pc).None? && s.lock.None?
    requires t.pid == s.attempts[a].pid && t.uuid !in s.uuids
    ensures
      var s' := At(s.(lock := Some(t)), a, Linked(t));
      OwnersKept(s') && MutualExclusion(s')
  {
    var s' := At(s.(lock := Some(t)), a, Linked(t));
    assert forall b, v :: b != a && Holds(s', b, v) ==> Holds(s, b, v) && v != t;
    assert forall b :: IsAdmitted(s', b) ==> IsAdmitted(s, b);
    forall b, v | Holds(s', b, v) && b != a ensures Parked(s', v) {
      var q :| q in s.quarantine && s.quarantine[q] == v;
      assert q in s'.quarantine;
    }
  }

  /** Linking a fresh record to the vacant canonical name. */
  lemma {:induction false} LinkKeepsInv(s: State, a: AttemptId, u: nat)
    requires Inv(s) && Live(s, a) && s.attempts[a].pc.Publish? && s.lock.None? && u !in s.uuids
    ensures Inv(Acquire(s, a, Fresh(u)).value)
  {
    var s' := Acquire(s, a, Fresh(u)).value;
    var t := Token(s.attempts[a].pid, u);
    LinkKeepsOwners(s, a, t);
    assert OwnersKept(s') && MutualExclusion(s') by {
      SameOwners(At(s.(lock := Some(t)), a, Linked(t)), s');
    }
  }

  /** Requests, and ids that were drawn, do not matter to the invariant. */
  lemma {:induction false} MarkersKeepInv(s: State, requests: set<RequestId>, uuids: set<nat>)
    requires Inv(s) && s.uuids <= uuids
    ensures Inv(s.(requests := requests, uuids := uuids))
  {
    SameOwners(s, s.(requests := requests, uuids := uuids));
  }

  lemma {:induction false} ListingKeepsInv(s: State, a: AttemptId, c: Choice)
    requires Inv(s) && Live(s, a) && Reconcile(Vacant, s, a, c).Some?
    requires !HandlesParked(s.attempts[a].pc)
    ensures Inv(Reconcile(Vacant, s, a, c).value)
  {
    var s' := Reconcile(Vacant, s, a, c).value;
    MovingOnKeepsInv(s, a, s'.attempts[a].pc);
    MarkersKeepInv(At(s, a, s'.attempts[a].pc), s'.requests, s'.uuids);
  }

  predicate HandlesParked(pc: Pc) {
    pc.ReadParked? || pc.ProbeParked? || pc.RemoveParked? || pc.RestoreParked?
  }

  lemma {:induction false} ParkedKeepsInv(s: State, a: AttemptId, c: Choice)
    requires Inv(s) && Live(s, a) && Reconcile(Vacant, s, a, c).Some?
    requires HandlesParked(s.attempts[a].pc)
    ensures Inv(Reconcile(Vacant, s, a, c).value)
  {
    var pc := s.attempts[a].pc;
    var s' := Reconcile(Vacant, s, a, c).value;
    var m := At(s, a, s'.attempts[a].pc);
    MovingOnKeepsInv(s, a, s'.attempts[a].pc);
    if pc.RemoveParked? && s'.quarantine != s.quarantine {
      RemovalKeepsInv(m, pc.q);
    } else if s'.quarantine != s.quarantine {
      PutBackKeepsInv(m, pc.q);
    }
  }

  lemma {:induction false} ReleaseKeepsInv(s: State, a: AttemptId, t: Token, pc: Pc)
    requires Inv(s) && Holds(s, a, t) && (pc == Begin || pc == PublishRequest || pc == Left)
    ensures Inv(At(Unlock(s, t), a, pc))
  {
    var m := At(s, a, pc);
    assert Inv(m) by { MovingOnKeepsInv(s, a, pc); }
    assert forall b :: b != a ==> Holds(m, b, t) == Holds(s, b, t);
    UnlockKeepsInv(m, t);
  }

  lemma {:induction false} AcquireKeepsInv(s: State, a: AttemptId, c: Choice)
    requires Inv(s) && Live(s, a) && Acquire(s, a, c).Some?
    ensures Inv(Acquire(s, a, c).value)
  {
    var pc := s.attempts[a].pc;
    var s' := Acquire(s, a, c).value;
    if s'.attempts[a].pc.Linked? {
      LinkKeepsInv(s, a, c.uuid);
    } else if pc.Admitted? || pc.Withdraw? || (pc.Linked? && !c.Go?) {
      ReleaseKeepsInv(s, a, pc.token, s'.attempts[a].pc);
    } else {
      var m := At(s, a, s'.attempts[a].pc);
      assert Inv(m) by { MovingOnKeepsInv(s, a, s'.attempts[a].pc); }
      MarkersKeepInv(m, s'.requests, s'.uuids);
    }
  }

  lemma {:induction false} MovingAsideKeepsInv(s: State, a: AttemptId)
    requires Inv(s) && Live(s, a) && s.attempts[a].pc.MoveAside?
    ensures Inv(Reclaim(Vacant, s, a, Go).value)
  {
    var pc := s.attempts[a].pc;
    var s' := Reclaim(Vacant, s, a, Go).value;
    MovingOnKeepsInv(s, a, s'.attempts[a].pc);
    if s.lock.Some? {
      MoveAsideKeepsInv(At(s, a, s'.attempts[a].pc), pc.r);
    }
  }

  predicate DecidesReclaim(pc: Pc) {
    BeforeMoving(pc) || pc.Verify?
  }

  lemma {:induction false} DecidingKeepsInv(s: State, a: AttemptId, c: Choice)
    requires Inv(s) && Live(s, a) && Reclaim(Vacant, s, a, c).Some? && DecidesReclaim(s.attempts[a].pc)
    requires !(s.attempts[a].pc.MoveAside? && c == Go)
    ensures Inv(Reclaim(Vacant, s, a, c).value)
  {
    var s' := Reclaim(Vacant, s, a, c).value;
    MovingOnKeepsInv(s, a, s'.attempts[a].pc);
  }

  /** A reclaimer that settles its quarantine drops markers, puts the record back,
      or removes the record it meant to remove. */
  lemma {:induction false} SettlingShape(s: State, a: AttemptId, c: Choice)
    requires a in s.attempts && Reclaim(Vacant, s, a, c).Some?
    requires var pc := s.attempts[a].pc; pc.Restore? || pc.Discard? || pc.DropRequest?
    ensures
      var pc, s' := s.attempts[a].pc, Reclaim(Vacant, s, a, c).value;
      var m := At(s, a, s'.attempts[a].pc);
      if s'.quarantine == s.quarantine then s' == m.(requests := s'.requests, uuids := s'.uuids)
      else if pc.Restore? then pc.r in s.quarantine && s.lock.None? && s' == PutBack(m, pc.r)
      else pc.Discard? && pc.r in s.quarantine && s.quarantine[pc.r] == pc.seen &&
           s' == m.(quarantine := s.quarantine - {pc.r})
  {
  }

  lemma {:induction false} SettlingKeepsInv(s: State, a: AttemptId, c: Choice)
    requires Inv(s) && Live(s, a) && Reclaim(Vacant, s, a, c).Some?
    requires !s.attempts[a].pc.PublishRequest? && !DecidesReclaim(s.attempts[a].pc)
    ensures Inv(Reclaim(Vacant, s, a, c).value)
  {
    var s' := Reclaim(Vacant, s, a, c).value;
    var pc := s.attempts[a].pc;
    var m := At(s, a, s'.attempts[a].pc);
    MovingOnKeepsInv(s, a, s'.attempts[a].pc);
    SettlingShape(s, a, c);
    if s'.quarantine == s.quarantine {
      MarkersKeepInv(m, s'.requests, s'.uuids);
    } else if pc.Restore? {
      PutBackKeepsInv(m, pc.r);
    } else {
      RemovalKeepsInv(m, pc.r);
    }
  }

  /** Publishing a fresh request. */
  lemma {:induction false} RequestKeepsInv(s: State, a: AttemptId, u: nat)
    requires Inv(s) && Live(s, a) && s.attempts[a].pc.PublishRequest? && u !in s.uuids
    ensures Inv(Reclaim(Vacant, s, a, Fresh(u)).value)
  {
    var s' := Reclaim(Vacant, s, a, Fresh(u)).value;
    assert OwnersKept(s') && MutualExclusion(s') by { SameOwners(s, s'); }
  }

  /** What the invariant says about owners depends only on the records on disk
      and on who holds what. */
  lemma {:induction false} SameOwners(s: State, s': State)
    requires OwnersKept(s) && MutualExclusion(s)
    requires s'.lock == s.lock && s'.quarantine == s.quarantine
    requires forall b :: Live(s', b) && TokenOf(s'.attempts[b].pc).Some? ==> Live(s, b) && s'.attempts[b] == s.attempts[b]
    ensures OwnersKept(s') && MutualExclusion(s')
  {
    assert forall b, t :: Holds(s', b, t) ==> Holds(s, b, t);
    assert forall b :: IsAdmitted(s', b) ==> IsAdmitted(s, b);
    forall b, t | Holds(s', b, t) ensures s'.lock == Some(t) || Parked(s', t) {
      if Parked(s, t) {
        var q :| q in s.quarantine && s.quarantine[q] == t;
        assert q in s'.quarantine;
      }
    }
  }

  lemma {:induction false} StartOrDeathKeepsInv(s: State, step: Step)
    requires Inv(s) && !step.Act? && Next(Vacant, s, step).Some?
    ensures Inv(Next(Vacant, s, step).value)
  {
    var s' := Next(Vacant, s, step).value;
    assert OwnersKept(s') && MutualExclusion(s') by { SameOwners(s, s'); }
  }

  lemma {:induction false} NextKeepsInv(s: State, step: Step)
    requires Inv(s) && Next(Vacant, s, step).Some?
    ensures Inv(Next(Vacant, s, step).value)
  {
    if !step.Act? {
      StartOrDeathKeepsInv(s, step);
    } else {
      var a, c, pc := step.a, step.c, s.attempts[step.a].pc;
      if Next(Vacant, s, step) == Acquire(s, a, c) {
        AcquireKeepsInv(s, a, c);
      } else if HandlesParked(pc) {
        ParkedKeepsInv(s, a, c);
      } else if Next(Vacant, s, step) == Reconcile(Vacant, s, a, c) {
        ListingKeepsInv(s, a, c);
      } else if pc.PublishRequest? {
        RequestKeepsInv(s, a, c.uuid);
      } else if pc.MoveAside? && c == Go {
        MovingAsideKeepsInv(s, a);
      } else if DecidesReclaim(pc) {
        DecidingKeepsInv(s, a, c);
      } else {
        SettlingKeepsInv(s, a, c);
      }
    }
  }

  lemma {:induction false} AtMostOneAdmitted(s: State, steps: seq<Step>, s': State)
    requires Inv(s) && Exec(Vacant, s, steps) == Some(s')
    ensures Inv(s') && MutualExclusion(s')
    decreases |steps|
  {
    if steps != [] {
      NextKeepsInv(s, steps[0]);
      AtMostOneAdmitted(Next(Vacant, s, steps[0]).value, steps[1..], s');
    }
  }

  /** In every run, with any number of contenders, reclaimers, reconcilers and
      deaths, at most one live attempt is admitted, provided a rename never
      replaces a lock that is there. */
  lemma {:induction false} MutualExclusionInEveryRun(steps: seq<Step>, s: State, a: AttemptId, b: AttemptId)
    requires Exec(Vacant, Init(), steps) == Some(s)
    requires IsAdmitted(s, a) && IsAdmitted(s, b)
    ensures a == b
  {
    AtMostOneAdmitted(Init(), steps, s);
  }
}
