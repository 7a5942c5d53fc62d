/** Where an owner's record is.  Mutual exclusion tolerates a record that was moved
    aside; the release of its owner does not find it there.  In every reachable
    state a linked record stays at the canonical name until its owner gives it up
    exactly when it is there and no reclaimer threatens it: none is about to
    rename, and none is about to probe another record whose process may yet die.
    No reclaimer ever threatens an admitted owner in a run in which no process
    dies between publishing and removing a reclaim request and no reclaimer
    abandons its quarantine. */
module ReservationOwner {
  import opened Base
  import opened Reservation

  // ---------------------------------------------------------------------
  // What makes an owner lose its place

  /** `b` renames the lock at its next step, or does so once the process that it
      is about to probe has died while those of `a` and `b` live on. */
  predicate Threatens(s: State, a: AttemptId, b: AttemptId) {
    Live(s, a) && Live(s, b) &&
    match s.attempts[b].pc
    case MoveAside(_, _) => true
    case Probe(_, seen) => seen.pid != s.attempts[a].pid && seen.pid != s.attempts[b].pid
    case _ => false
  }

  /** The record of `a` is at the canonical name and nobody threatens it. */
  ghost predicate Secure(s: State, a: AttemptId, t: Token) {
    s.lock == Some(t) && forall b :: !Threatens(s, a, b)
  }

  /** Wherever a run leads, as long as `a` has its token the record is at the
      canonical name. */
  ghost predicate KeepsPlace(s: State, a: AttemptId, t: Token) {
    forall steps :: Exec(Vacant, s, steps).Some? && Holds(Exec(Vacant, s, steps).value, a, t) ==>
      Exec(Vacant, s, steps).value.lock == Some(t)
  }

  /** A token that was drawn is not drawn again: who has it has had it. */
  lemma {:induction false} HeldBefore(s: State, step: Step, a: AttemptId, t: Token)
    requires Next(Vacant, s, step).Some? && t.uuid in s.uuids && Holds(Next(Vacant, s, step).value, a, t)
    ensures Holds(s, a, t)
  {
    if step.Act? {
      OnlyTheActorMoves(Vacant, s, step.a, step.c);
    }
  }

  lemma {:induction false} IdsStayDrawn(s: State, step: Step)
    requires Next(Vacant, s, step).Some?
    ensures s.uuids <= Next(Vacant, s, step).value.uuids
  {
  }

  /** No step of another attempt moves a record that nobody threatens. */
  lemma {:induction false} OthersLeaveTheRecord(s: State, a: AttemptId, t: Token, b: AttemptId, c: Choice)
    requires OwnersKept(s) && Holds(s, a, t) && Secure(s, a, t)
    requires b != a && Next(Vacant, s, Act(b, c)).Some?
    ensures
      var s' := Next(Vacant, s, Act(b, c)).value;
      s'.lock == s.lock && !Threatens(s', a, b)
  {
    assert !Threatens(s, a, b);
    assert TokenOf(s.attempts[b].pc).Some? ==> Holds(s, b, TokenOf(s.attempts[b].pc).value);
  }

  lemma {:induction false} OwnStepKeepsPlace(s: State, a: AttemptId, t: Token, c: Choice)
    requires Holds(s, a, t) && s.lock == Some(t)
    requires Next(Vacant, s, Act(a, c)).Some? && Holds(Next(Vacant, s, Act(a, c)).value, a, t)
    ensures Next(Vacant, s, Act(a, c)).value.lock == Some(t)
  {
  }

  lemma {:induction false} SecureStays(s: State, step: Step, a: AttemptId, t: Token)
    requires OwnersKept(s) && Holds(s, a, t) && Secure(s, a, t)
    requires Next(Vacant, s, step).Some? && Holds(Next(Vacant, s, step).value, a, t)
    ensures Secure(Next(Vacant, s, step).value, a, t)
  {
    var s' := Next(Vacant, s, step).value;
    if step.Act? {
      OnlyTheActorMoves(Vacant, s, step.a, step.c);
      if step.a == a {
        OwnStepKeepsPlace(s, a, t, step.c);
      } else {
        OthersLeaveTheRecord(s, a, t, step.a, step.c);
      }
    }
    forall b ensures !Threatens(s', a, b) {
      assert !Threatens(s, a, b);
    }
  }

  lemma {:induction false} SecureKeepsPlace(s: State, steps: seq<Step>, a: AttemptId, t: Token)
    requires Inv(s) && t.uuid in s.uuids && (Holds(s, a, t) ==> Secure(s, a, t))
    requires Exec(Vacant, s, steps).Some? && Holds(Exec(Vacant, s, steps).value, a, t)
    ensures Exec(Vacant, s, steps).value.lock == Some(t)
    decreases |steps|
  {
    if steps != [] {
      var m := Next(Vacant, s, steps[0]).value;
      NextKeepsInv(s, steps[0]);
      IdsStayDrawn(s, steps[0]);
      if Holds(m, a, t) {
        HeldBefore(s, steps[0], a, t);
        SecureStays(s, steps[0], a, t);
      }
      SecureKeepsPlace(m, steps[1..], a, t);
    }
  }

  lemma {:induction false} OneStep(s: State, step: Step)
    ensures Exec(Vacant, s, [step]) == Next(Vacant, s, step)
  {
    var s' := Next(Vacant, s, step);
    assert [step][1..] == [];
    if s'.Some? {
      assert Exec(Vacant, s'.value, []) == s';
    }
  }

  /** A reclaimer that is about to rename does so. */
  lemma {:induction false} RenamerMovesIt(s: State, a: AttemptId, t: Token, b: AttemptId)
    requires Holds(s, a, t) && s.lock == Some(t) && Live(s, b) && s.attempts[b].pc.MoveAside?
    ensures !KeepsPlace(s, a, t)
  {
    var steps := [Act(b, Go)];
    OneStep(s, Act(b, Go));
    assert Holds(Exec(Vacant, s, steps).value, a, t);
  }

  /** The process whose record a reclaimer has read dies; the probe finds it dead,
      and the reclaimer renames the record that has taken its place. */
  lemma {:induction false} ProberMovesIt(s: State, a: AttemptId, t: Token, b: AttemptId)
    requires Holds(s, a, t) && s.lock == Some(t) && Threatens(s, a, b) && s.attempts[b].pc.Probe?
    ensures !KeepsPlace(s, a, t)
  {
    var seen := s.attempts[b].pc.seen;
    var s1 := s.(dead := s.dead + {seen.pid});
    var s2 := At(s1, b, MoveAside(s.attempts[b].pc.r, seen));
    assert Next(Vacant, s, Die(seen.pid)) == Some(s1);
    assert Next(Vacant, s1, Act(b, Go)) == Some(s2);
    var s3 := Next(Vacant, s2, Act(b, Go)).value;
    assert Holds(s3, a, t) && s3.lock.None?;
    OneStep(s2, Act(b, Go));
    assert [Act(b, Go), Act(b, Go)][1..] == [Act(b, Go)];
    assert Exec(Vacant, s1, [Act(b, Go), Act(b, Go)]) == Some(s3);
    var steps := [Die(seen.pid), Act(b, Go), Act(b, Go)];
    assert steps[1..] == [Act(b, Go), Act(b, Go)];
    assert Exec(Vacant, s, steps) == Some(s3);
  }

  /** In every reachable state an owner's record stays at the canonical name until
      the owner gives it up, whatever dies or is abandoned on the way, exactly
      when it is there and no reclaimer threatens it. */
  lemma {:induction false} OwnerKeepsItsPlaceExactly(before: seq<Step>, s: State, a: AttemptId, t: Token)
    requires Exec(Vacant, Init(), before) == Some(s) && Holds(s, a, t)
    ensures KeepsPlace(s, a, t) <==> s.lock == Some(t) && forall b :: !Threatens(s, a, b)
  {
    AtMostOneAdmitted(Init(), before, s);
    if Secure(s, a, t) {
      forall steps | Exec(Vacant, s, steps).Some? && Holds(Exec(Vacant, s, steps).value, a, t)
        ensures Exec(Vacant, s, steps).value.lock == Some(t)
      {
        SecureKeepsPlace(s, steps, a, t);
      }
    } else if KeepsPlace(s, a, t) {
      assert Exec(Vacant, s, []) == Some(s);
      var b :| Threatens(s, a, b);
      if s.attempts[b].pc.MoveAside? {
        RenamerMovesIt(s, a, t, b);
      } else {
        ProberMovesIt(s, a, t, b);
      }
    }
  }

  /** At its admission an owner's record is always at the canonical name: it stays
      there until its release exactly when no reclaimer threatens it then. */
  lemma {:induction false} AdmissionIsFinalExactly(before: seq<Step>, s: State, a: AttemptId, n: State)
    requires Exec(Vacant, Init(), before) == Some(s)
    requires Live(s, a) && s.attempts[a].pc.RecheckQuarantines? && s.quarantine == map[]
    requires Next(Vacant, s, Act(a, Go)) == Some(n)
    ensures
      var t := s.attempts[a].pc.token;
      IsAdmitted(n, a) && n.lock == Some(t) && (KeepsPlace(n, a, t) <==> forall b :: !Threatens(n, a, b))
  {
    var t := s.attempts[a].pc.token;
    AtMostOneAdmitted(Init(), before, s);
    NoRivalWithoutQuarantine(s, a, t);
    ExecAppend(Vacant, Init(), before, Act(a, Go));
    OwnerKeepsItsPlaceExactly(before + [Act(a, Go)], n, a, t);
  }

  // ---------------------------------------------------------------------
  // Runs in which no admitted owner is threatened

  /** `step` neither kills a process that has a request out nor lets a
      reclaimer leave its quarantine behind. */
  ghost predicate Undisturbed(s: State, step: Step) {
    match step
    case Start(_, _) => true
    case Die(pid) => forall a :: Live(s, a) && RequestOf(s.attempts[a].pc).Some? ==> s.attempts[a].pid != pid
    case Act(a, c) => Live(s, a) && s.attempts[a].pc.Restore? ==> c != GiveUp
  }

  ghost predicate UndisturbedRun(s: State, steps: seq<Step>)
    decreases |steps|
  {
    steps != [] ==>
      Undisturbed(s, steps[0]) &&
      (Next(Vacant, s, steps[0]).Some? ==> UndisturbedRun(Next(Vacant, s, steps[0]).value, steps[1..]))
  }

  /** Every live reclaimer's request is on disk. */
  ghost predicate RequestsPublished(s: State) {
    forall a :: a in s.attempts && RequestOf(s.attempts[a].pc).Some? ==>
      var r := RequestOf(s.attempts[a].pc).value;
      r.pid == s.attempts[a].pid && (Live(s, a) ==> r in s.requests)
  }

  predicate Settles(s: State, a: AttemptId, q: RequestId) {
    Live(s, a) && RequestOf(s.attempts[a].pc) == Some(q) &&
    match s.attempts[a].pc
    case Verify(_, _) => true
    case Restore(_) => true
    case Discard(_, t) => q in s.quarantine && s.quarantine[q] == t
    case _ => false
  }

  /** Every quarantine is in the hands of the live reclaimer that made it. */
  ghost predicate QuarantinesOwned(s: State) {
    forall q :: q in s.quarantine ==> exists a :: Settles(s, a, q)
  }

  predicate Cleared(s: State, a: AttemptId) {
    Live(s, a) && (s.attempts[a].pc.RecheckQuarantines? || s.attempts[a].pc.Admitted?)
  }

  /** Once an owner has read an empty request listing, its record is at the
      canonical name and nobody threatens it. */
  ghost predicate ClearedUndisputed(s: State) {
    forall a :: Cleared(s, a) ==> Secure(s, a, s.attempts[a].pc.token)
  }

  ghost predicate OwnerInv(s: State) {
    RequestsPublished(s) && QuarantinesOwned(s) && ClearedUndisputed(s)
  }

  /** What one attempt's step does to its own and to other requests. */
  lemma {:induction false} RequestsInAStep(s: State, a: AttemptId, c: Choice)
    requires Next(Vacant, s, Act(a, c)).Some?
    ensures
      var s' := Next(Vacant, s, Act(a, c)).value;
      a in s'.attempts &&
      var was, now := RequestOf(s.attempts[a].pc), RequestOf(s'.attempts[a].pc);
      && (now.None? || now == was || (now.value.pid == s.attempts[a].pid && now.value in s'.requests))
      && forall r :: r in s.requests && r !in s'.requests ==> r.pid in s.dead || (was == Some(r) && now.None?)
  {
  }

  lemma {:induction false} RequestsStayPublished(s: State, step: Step)
    requires RequestsPrivate(s) && RequestsPublished(s) && Next(Vacant, s, step).Some?
    ensures RequestsPublished(Next(Vacant, s, step).value)
  {
    var s' := Next(Vacant, s, step).value;
    if step.Act? {
      OnlyTheActorMoves(Vacant, s, step.a, step.c);
      RequestsInAStep(s, step.a, step.c);
    }
    forall b | b in s'.attempts && RequestOf(s'.attempts[b].pc).Some?
      ensures RequestOf(s'.attempts[b].pc).value.pid == s'.attempts[b].pid
      ensures Live(s', b) ==> RequestOf(s'.attempts[b].pc).value in s'.requests
    {
    }
  }

  /** One attempt's step adds a quarantine only by renaming the lock aside, and
      keeps hold of the quarantine it is settling. */
  lemma {:induction false} QuarantinesInAStep(s: State, a: AttemptId, c: Choice)
    requires Next(Vacant, s, Act(a, c)).Some?
    requires s.attempts[a].pc.Restore? ==> c != GiveUp
    ensures
      var s' := Next(Vacant, s, Act(a, c)).value;
      && (forall q :: q in s'.quarantine && q !in s.quarantine ==> Settles(s', a, q))
      && (forall q :: q in s'.quarantine && Settles(s, a, q) ==> Settles(s', a, q))
      && (forall q :: q in s'.quarantine && q in s.quarantine ==>
           s'.quarantine[q] == s.quarantine[q] || Settles(s', a, q))
  {
  }

  lemma {:induction false} QuarantinesStayOwned(s: State, step: Step)
    requires QuarantinesOwned(s) && Undisturbed(s, step) && Next(Vacant, s, step).Some?
    ensures QuarantinesOwned(Next(Vacant, s, step).value)
  {
    var s' := Next(Vacant, s, step).value;
    forall q | q in s'.quarantine ensures exists b :: Settles(s', b, q) {
      if step.Act? {
        OnlyTheActorMoves(Vacant, s, step.a, step.c);
        QuarantinesInAStep(s, step.a, step.c);
        if !Settles(s', step.a, q) {
          var b :| Settles(s, b, q);
          assert Settles(s', b, q);
        }
      } else {
        var b :| Settles(s, b, q);
        assert Settles(s', b, q);
      }
    }
  }

  lemma {:induction false} QuarantineHasRequest(s: State, q: RequestId)
    requires RequestsPublished(s) && QuarantinesOwned(s) && q in s.quarantine
    ensures q in s.requests
  {
    var b :| Settles(s, b, q);
  }

  /** With no request on disk, nothing is parked and nobody may rename. */
  lemma {:induction false} NoRequestNoReclaim(s: State)
    requires RequestsPublished(s) && QuarantinesOwned(s) && s.requests == {}
    ensures s.quarantine == map[]
    ensures forall b :: Live(s, b) ==> RequestOf(s.attempts[b].pc).None?
  {
    forall q | q in s.quarantine ensures q in s.requests {
      QuarantineHasRequest(s, q);
    }
    assert s.quarantine.Keys == {};
  }

  /** An owner that reads an empty request listing is secure then and there. */
  lemma {:induction false} ClearedAreSecure(s: State, step: Step, a: AttemptId, t: Token)
    requires OwnersKept(s) && OwnerInv(s) && Next(Vacant, s, step).Some? && Holds(s, a, t)
    requires Cleared(Next(Vacant, s, step).value, a)
    ensures Secure(s, a, t)
  {
    if !Cleared(s, a) {
      NoRequestNoReclaim(s);
      NoRivalWithoutQuarantine(s, a, t);
    }
  }

  lemma {:induction false} ClearedHeld(s: State, step: Step, a: AttemptId)
    requires Next(Vacant, s, step).Some? && Cleared(Next(Vacant, s, step).value, a)
    ensures Holds(s, a, Next(Vacant, s, step).value.attempts[a].pc.token)
  {
    if step.Act? {
      OnlyTheActorMoves(Vacant, s, step.a, step.c);
    }
  }

  lemma {:induction false} ClearedStayUndisputed(s: State, step: Step)
    requires Inv(s) && OwnerInv(s) && Next(Vacant, s, step).Some?
    ensures ClearedUndisputed(Next(Vacant, s, step).value)
  {
    var s' := Next(Vacant, s, step).value;
    forall a | Cleared(s', a) ensures Secure(s', a, s'.attempts[a].pc.token) {
      var t := s'.attempts[a].pc.token;
      ClearedHeld(s, step, a);
      ClearedAreSecure(s, step, a, t);
      SecureStays(s, step, a, t);
    }
  }

  lemma {:induction false} AdmittedRecordStays(s: State, steps: seq<Step>, s': State)
    requires Inv(s) && OwnerInv(s) && UndisturbedRun(s, steps) && Exec(Vacant, s, steps) == Some(s')
    ensures forall a :: IsAdmitted(s', a) ==> s'.lock == Some(s'.attempts[a].pc.token)
    decreases |steps|
  {
    if steps != [] {
      var m := Next(Vacant, s, steps[0]).value;
      NextKeepsInv(s, steps[0]);
      RequestsStayPublished(s, steps[0]);
      QuarantinesStayOwned(s, steps[0]);
      ClearedStayUndisputed(s, steps[0]);
      AdmittedRecordStays(m, steps[1..], s');
    }
  }

  /** In every undisturbed run an admitted owner finds its record at the canonical
      name, however many reclaimers and reconcilers passed by. */
  lemma {:induction false} OwnerFindsItsRecord(steps: seq<Step>, s: State, a: AttemptId)
    requires UndisturbedRun(Init(), steps) && Exec(Vacant, Init(), steps) == Some(s) && IsAdmitted(s, a)
    ensures s.lock == Some(s.attempts[a].pc.token)
  {
    AdmittedRecordStays(Init(), steps, s);
  }
}
