/** What the reservation's guarantees rest on: runs, built step by step from an
    empty directory, in which an admitted owner loses its place or two attempts
    are admitted, and what remains true when a rename replaces its target as
    POSIX specifies. */
module ReservationLimits {
  import opened Base
  import opened Reservation

  /** How renames behave, and whether only runs are looked at in which no process
      dies with a reclaim request out. */
  datatype Setting = Setting(mode: RenameMode, considerate: bool)

  ghost predicate DiesNotAsking(s: State, step: Step) {
    step.Die? ==> forall a :: Live(s, a) && RequestOf(s.attempts[a].pc).Some? ==> s.attempts[a].pid != step.pid
  }

  ghost predicate NobodyDiesAsking(mode: RenameMode, s: State, steps: seq<Step>)
    decreases |steps|
  {
    steps != [] ==>
      DiesNotAsking(s, steps[0]) &&
      (Next(mode, s, steps[0]).Some? ==> NobodyDiesAsking(mode, Next(mode, s, steps[0]).value, steps[1..]))
  }

  ghost predicate Leads(w: Setting, s: State, steps: seq<Step>, s': State) {
    Exec(w.mode, s, steps) == Some(s') && (w.considerate ==> NobodyDiesAsking(w.mode, s, steps))
  }

  ghost predicate Reaches(w: Setting, s: State, s': State) {
    exists steps :: Leads(w, s, steps, s')
  }

  lemma {:induction false} NobodyDiesAskingStill(mode: RenameMode, s: State, steps: seq<Step>, last: Step)
    requires Exec(mode, s, steps).Some? && NobodyDiesAsking(mode, s, steps)
    requires DiesNotAsking(Exec(mode, s, steps).value, last)
    ensures NobodyDiesAsking(mode, s, steps + [last])
    decreases |steps|
  {
    if steps == [] {
      assert (steps + [last])[1..] == [];
    } else {
      assert (steps + [last])[1..] == steps[1..] + [last];
      NobodyDiesAskingStill(mode, Next(mode, s, steps[0]).value, steps[1..], last);
    }
  }

  lemma {:induction false} Then(w: Setting, origin: State, s: State, step: Step) returns (s': State)
    requires Reaches(w, origin, s) && Next(w.mode, s, step).Some? && (w.considerate ==> DiesNotAsking(s, step))
    ensures s' == Next(w.mode, s, step).value && Reaches(w, origin, s')
  {
    s' := Next(w.mode, s, step).value;
    var steps :| Leads(w, origin, steps, s);
    ExecAppend(w.mode, origin, steps, step);
    if w.considerate {
      NobodyDiesAskingStill(w.mode, origin, steps, step);
    }
    assert Leads(w, origin, steps + [step], s');
  }

  lemma {:induction false} Nothing(w: Setting, s: State)
    ensures Reaches(w, s, s)
  {
    assert Leads(w, s, [], s);
  }

  /** In a directory without reclaim artifacts an attempt gets to its link. */
  lemma {:induction false} Enters(w: Setting, origin: State, s: State, a: AttemptId, pid: Pid) returns (s': State)
    requires Reaches(w, origin, s) && a !in s.attempts && pid !in s.dead
    requires s.requests == {} && s.quarantine == map[]
    ensures s' == s.(attempts := s.attempts[a := Attempt(pid, Publish)]) && Reaches(w, origin, s')
  {
    s' := Then(w, origin, s, Start(a, pid));
    s' := Tries(w, origin, s', a);
  }

  lemma {:induction false} Tries(w: Setting, origin: State, s: State, a: AttemptId) returns (s': State)
    requires Reaches(w, origin, s) && Live(s, a) && s.attempts[a].pc == Begin
    requires s.requests == {} && s.quarantine == map[]
    ensures s' == At(s, a, Publish) && Reaches(w, origin, s')
  {
    s' := Then(w, origin, s, Act(a, Go));
    s' := Then(w, origin, s', Act(a, Go));
    assert s.quarantine.Keys == {};
    s' := Looks(w, origin, s', a);
  }

  lemma {:induction false} Looks(w: Setting, origin: State, s: State, a: AttemptId) returns (s': State)
    requires Reaches(w, origin, s) && Live(s, a) && s.attempts[a].pc == VisitQuarantines({})
    requires s.requests == {} && s.quarantine == map[]
    ensures s' == At(s, a, Publish) && Reaches(w, origin, s')
  {
    s' := Then(w, origin, s, Act(a, Go));
    s' := Then(w, origin, s', Act(a, Go));
    s' := Then(w, origin, s', Act(a, Go));
  }

  /** A reclaimer that finds a dead owner is ready to rename it aside. */
  lemma {:induction false} FindsDead(w: Setting, origin: State, s: State, a: AttemptId,
                                     u: nat) returns (s': State)
    requires Reaches(w, origin, s) && Live(s, a) && s.attempts[a].pc == Publish
    requires s.lock.Some? && s.lock.value.pid in s.dead && u !in s.uuids && u + 1 !in s.uuids
    ensures
      var r := RequestId(s.attempts[a].pid, u + 1);
      s' == At(s.(requests := s.requests + {r}, uuids := s.uuids + {u} + {u + 1}), a, MoveAside(r, s.lock.value))
    ensures Reaches(w, origin, s')
  {
    s' := Then(w, origin, s, Act(a, Fresh(u)));
    s' := Asks(w, origin, s', a, u + 1);
  }

  lemma {:induction false} Asks(w: Setting, origin: State, s: State, a: AttemptId, u: nat) returns (s': State)
    requires Reaches(w, origin, s) && Live(s, a) && s.attempts[a].pc == PublishRequest
    requires s.lock.Some? && s.lock.value.pid in s.dead && u !in s.uuids
    ensures
      var r := RequestId(s.attempts[a].pid, u);
      s' == At(s.(requests := s.requests + {r}, uuids := s.uuids + {u}), a, MoveAside(r, s.lock.value))
    ensures Reaches(w, origin, s')
  {
    s' := Then(w, origin, s, Act(a, Fresh(u)));
    s' := ReadsDead(w, origin, s', a);
  }

  lemma {:induction false} ReadsDead(w: Setting, origin: State, s: State, a: AttemptId) returns (s': State)
    requires Reaches(w, origin, s) && Live(s, a) && s.attempts[a].pc.Observe?
    requires s.lock.Some? && s.lock.value.pid in s.dead
    ensures s' == At(s, a, MoveAside(s.attempts[a].pc.r, s.lock.value)) && Reaches(w, origin, s')
  {
    s' := Then(w, origin, s, Act(a, Go));
    s' := Then(w, origin, s', Act(a, Go));
  }

  /** It renames whatever is at the canonical name aside. */
  lemma {:induction false} Moves(w: Setting, origin: State, s: State, a: AttemptId) returns (s': State)
    requires Reaches(w, origin, s) && Live(s, a) && s.attempts[a].pc.MoveAside? && s.lock.Some?
    ensures
      var r, seen := s.attempts[a].pc.r, s.attempts[a].pc.seen;
      s' == At(s.(lock := None, quarantine := s.quarantine[r := s.lock.value]), a,
               if s.lock.value == seen then Discard(r, seen) else Restore(r))
    ensures Reaches(w, origin, s')
  {
    s' := Then(w, origin, s, Act(a, Go));
    s' := Then(w, origin, s', Act(a, Go));
  }

  /** It renames the dead record aside, removes it and takes its request back. */
  lemma {:induction false} Clears(w: Setting, origin: State, s: State, a: AttemptId) returns (s': State)
    requires Reaches(w, origin, s) && Live(s, a) && s.attempts[a].pc.MoveAside?
    requires s.lock == Some(s.attempts[a].pc.seen) && s.quarantine == map[]
    ensures s' == At(s.(lock := None, requests := s.requests - {s.attempts[a].pc.r}), a, Begin)
    ensures Reaches(w, origin, s')
  {
    s' := Moves(w, origin, s, a);
    s' := Discards(w, origin, s', a);
  }

  lemma {:induction false} Discards(w: Setting, origin: State, s: State, a: AttemptId) returns (s': State)
    requires Reaches(w, origin, s) && Live(s, a) && s.attempts[a].pc.Discard?
    requires s.quarantine == map[s.attempts[a].pc.r := s.attempts[a].pc.seen]
    ensures s' == At(s.(quarantine := map[], requests := s.requests - {s.attempts[a].pc.r}), a, Begin)
    ensures Reaches(w, origin, s')
  {
    s' := Then(w, origin, s, Act(a, Go));
    assert s'.quarantine == map[];
    s' := Then(w, origin, s', Act(a, Go));
  }

  /** Its two checks find nothing, and the owner is admitted. */
  lemma {:induction false} Passes(w: Setting, origin: State, s: State, a: AttemptId) returns (s': State)
    requires Reaches(w, origin, s) && Live(s, a) && s.attempts[a].pc.Linked?
    requires s.requests == {} && s.quarantine == map[]
    ensures s' == At(s, a, Admitted(s.attempts[a].pc.token)) && Reaches(w, origin, s')
  {
    s' := Then(w, origin, s, Act(a, Go));
    s' := Then(w, origin, s', Act(a, Go));
  }

  /** A reclaimer that is done takes its request back. */
  lemma {:induction false} TakesBack(w: Setting, origin: State, s: State, a: AttemptId) returns (s': State)
    requires Reaches(w, origin, s) && Live(s, a) && s.attempts[a].pc.DropRequest?
    ensures
      var r, failed := s.attempts[a].pc.r, s.attempts[a].pc.failed;
      s' == At(s.(requests := s.requests - {r}), a, if failed then Left else Begin)
    ensures Reaches(w, origin, s')
  {
    s' := Then(w, origin, s, Act(a, Go));
  }

  /** An owner reads an empty request listing. */
  lemma {:induction false} ReadsNoRequest(w: Setting, origin: State, s: State, a: AttemptId) returns (s': State)
    requires Reaches(w, origin, s) && Live(s, a) && s.attempts[a].pc.Linked? && s.requests == {}
    ensures s' == At(s, a, RecheckQuarantines(s.attempts[a].pc.token)) && Reaches(w, origin, s')
  {
    s' := Then(w, origin, s, Act(a, Go));
  }

  /** An owner reads an empty quarantine listing. */
  lemma {:induction false} ReadsNoQuarantine(w: Setting, origin: State, s: State, a: AttemptId) returns (s': State)
    requires Reaches(w, origin, s) && Live(s, a) && s.attempts[a].pc.RecheckQuarantines? && s.quarantine == map[]
    ensures s' == At(s, a, Admitted(s.attempts[a].pc.token)) && Reaches(w, origin, s')
  {
    s' := Then(w, origin, s, Act(a, Go));
  }

  lemma {:induction false} Renames(w: Setting, origin: State, s: State, a: AttemptId) returns (s': State)
    requires Reaches(w, origin, s) && Live(s, a) && s.attempts[a].pc.MoveAside? && s.lock.Some?
    ensures
      var r, seen := s.attempts[a].pc.r, s.attempts[a].pc.seen;
      s' == At(s.(lock := None, quarantine := s.quarantine[r := s.lock.value]), a, Verify(r, seen))
    ensures Reaches(w, origin, s')
  {
    s' := Then(w, origin, s, Act(a, Go));
  }

  lemma {:induction false} Dies(w: Setting, origin: State, s: State, pid: Pid) returns (s': State)
    requires Reaches(w, origin, s) && (w.considerate ==> DiesNotAsking(s, Die(pid)))
    ensures s' == s.(dead := s.dead + {pid}) && Reaches(w, origin, s')
  {
    s' := Then(w, origin, s, Die(pid));
  }

  const STALE := Token(0, 0)
  const OWNER := Token(3, 5)
  const RIVAL := Token(4, 6)
  const LATE := RequestId(1, 2)

  /** Seven attempts of seven processes, with the pcs of the first five. */
  function Seven(p0: Pc, p1: Pc, p2: Pc, p3: Pc, p4: Pc): map<AttemptId, Attempt> {
    map[0 := Attempt(0, p0), 1 := Attempt(1, p1), 2 := Attempt(2, p2), 3 := Attempt(3, p3),
        4 := Attempt(4, p4), 5 := Attempt(5, Publish), 6 := Attempt(6, Publish)]
  }

  lemma {:induction false} SevenEnter(w: Setting)
    ensures Reaches(w, Init(), Init().(attempts := Seven(Publish, Publish, Publish, Publish, Publish)))
  {
    Nothing(w, Init());
    var s := Enters(w, Init(), Init(), 0, 0);
    s := Enters(w, Init(), s, 1, 1);
    s := Enters(w, Init(), s, 2, 2);
    s := Enters(w, Init(), s, 3, 3);
    s := Enters(w, Init(), s, 4, 4);
    s := Enters(w, Init(), s, 5, 5);
    s := Enters(w, Init(), s, 6, 6);
    assert s.attempts == Seven(Publish, Publish, Publish, Publish, Publish);
  }

  /** Attempt 1 has observed the dead owner 0 and is about to rename; meanwhile
      attempt 2 reclaims that owner and attempt 3 links its own record. */
  function LateReclaimer(): State {
    State(Some(OWNER), {LATE}, map[],
          Seven(Linked(STALE), MoveAside(LATE, STALE), Begin, Linked(OWNER), Publish),
          {0}, {0, 1, 2, 3, 4, 5})
  }

  /** Both have observed the dead owner. */
  function BothObserved(): State {
    State(Some(STALE), {LATE, RequestId(2, 4)}, map[],
          Seven(Linked(STALE), MoveAside(LATE, STALE), MoveAside(RequestId(2, 4), STALE), Publish, Publish),
          {0}, {0, 1, 2, 3, 4})
  }

  function OwnerDied(): State {
    State(Some(STALE), {}, map[], Seven(Linked(STALE), Publish, Publish, Publish, Publish), {0}, {0})
  }

  lemma {:induction false} OwnerDies(w: Setting)
    ensures Reaches(w, Init(), OwnerDied())
  {
    SevenEnter(w);
    var s := Init().(attempts := Seven(Publish, Publish, Publish, Publish, Publish));
    s := Links(w, Init(), s, 0, 0);
    s := Then(w, Init(), s, Die(0));
    assert s == OwnerDied();
  }

  lemma {:induction false} BothObserve(w: Setting)
    ensures Reaches(w, Init(), BothObserved())
  {
    var s := LateObserves(w);
    s := FindsDead(w, Init(), s, 2, 3);
    assert s == BothObserved();
  }

  lemma {:induction false} LateObserves(w: Setting) returns (s: State)
    ensures Reaches(w, Init(), s)
    ensures s == State(OwnerDied().lock, {LATE}, map[], s.attempts, {0}, {0, 1, 2})
    ensures s.attempts == OwnerDied().attempts[1 := Attempt(1, MoveAside(LATE, STALE))]
  {
    OwnerDies(w);
    s := FindsDead(w, Init(), OwnerDied(), 1, 1);
  }

  lemma {:induction false} LateReclaimerHappens(w: Setting)
    ensures Reaches(w, Init(), LateReclaimer())
  {
    BothObserve(w);
    var s := Clears(w, Init(), BothObserved(), 2);
    s := Links(w, Init(), s, 3, 5);
    assert s == LateReclaimer();
  }

  /** The late reclaimer has parked the owner's record, and a rival has linked
      its own. */
  function RivalLinked(): State {
    State(Some(RIVAL), {LATE}, map[LATE := OWNER],
          Seven(Linked(STALE), Restore(LATE), Begin, Linked(OWNER), Linked(RIVAL)), {0}, {0, 1, 2, 3, 4, 5, 6})
  }

  lemma {:induction false} RivalLinks(w: Setting)
    ensures Reaches(w, Init(), RivalLinked())
  {
    LateReclaimerHappens(w);
    var s := Moves(w, Init(), LateReclaimer(), 1);
    assert s.attempts == Seven(Linked(STALE), Restore(LATE), Begin, Linked(OWNER), Publish);
    s := Links(w, Init(), s, 4, 6);
    assert s.attempts == RivalLinked().attempts;
    assert s.uuids == RivalLinked().uuids;
  }

  lemma {:induction false} Links(w: Setting, origin: State, s: State, a: AttemptId, u: nat) returns (s': State)
    requires Reaches(w, origin, s) && Live(s, a) && s.attempts[a].pc == Publish
    requires s.lock.None? && u !in s.uuids
    ensures
      var t := Token(s.attempts[a].pid, u);
      s' == At(s.(lock := Some(t), uuids := s.uuids + {u}), a, Linked(t))
    ensures Reaches(w, origin, s')
  {
    s' := Then(w, origin, s, Act(a, Fresh(u)));
  }

  // ---------------------------------------------------------------------
  // Two admitted, with renames that replace

  lemma {:induction false} RestoresOver(w: Setting, origin: State, s: State, a: AttemptId) returns (s': State)
    requires w.mode.Replaces? && Reaches(w, origin, s) && Live(s, a) && s.attempts[a].pc == Restore(LATE)
    requires s.requests == {LATE} && s.quarantine == map[LATE := OWNER]
    ensures s' == At(s.(lock := Some(OWNER), requests := {}, quarantine := map[]), a, Begin)
    ensures Reaches(w, origin, s')
  {
    s' := PutsBack(w, origin, s, a);
    s' := TakesBack(w, origin, s', a);
  }

  lemma {:induction false} PutsBack(w: Setting, origin: State, s: State, a: AttemptId) returns (s': State)
    requires w.mode.Replaces? && Reaches(w, origin, s) && Live(s, a) && s.attempts[a].pc == Restore(LATE)
    requires s.quarantine == map[LATE := OWNER]
    ensures s' == At(s.(lock := Some(OWNER), quarantine := map[]), a, DropRequest(LATE, false))
    ensures Reaches(w, origin, s')
  {
    s' := Then(w, origin, s, Act(a, Go));
    assert s'.quarantine == map[];
  }

  /** With a rename that replaces the file that is there, two live attempts are
      admitted, although no reclaimer dies: the late one restores one owner's
      record over another's. */
  lemma {:induction false} ReplacingRestoreAdmitsTwo()
    ensures exists steps :: Exec(Replaces, Init(), steps).Some? && NobodyDiesAsking(Replaces, Init(), steps) &&
                            !MutualExclusion(Exec(Replaces, Init(), steps).value)
  {
    var w := Setting(Replaces, true);
    RivalLinks(w);
    var s := RestoresOver(w, Init(), RivalLinked(), 1);
    s := Passes(w, Init(), s, 3);
    s := Passes(w, Init(), s, 4);
    assert IsAdmitted(s, 3) && IsAdmitted(s, 4);
    var steps :| Leads(w, Init(), steps, s);
    assert !MutualExclusion(Exec(Replaces, Init(), steps).value);
  }

  // ---------------------------------------------------------------------
  // An admitted owner loses its place

  /** A reconciler that comes upon the parked record looks whether the canonical
      name is vacant. */
  lemma {:induction false} Visits(w: Setting, origin: State, s: State, a: AttemptId) returns (s': State)
    requires Reaches(w, origin, s) && Live(s, a) && s.attempts[a].pc == VisitQuarantines({LATE}) && s.requests == {}
    ensures s' == At(s, a, CheckVacant(LATE, {})) && Reaches(w, origin, s')
  {
    assert {LATE} - {LATE} == {};
    s' := Then(w, origin, s, Act(a, Pick(LATE)));
    s' := Then(w, origin, s', Act(a, Skip));
  }

  /** The rival's record is at the canonical name, the owner's is parked and not
      covered by a request any more.  The owner has read an empty request listing,
      and a reconciler is about to look at the canonical name. */
  function Uncovered(late: Pc, dead: set<Pid>): State {
    State(Some(RIVAL), {}, map[LATE := OWNER],
          Seven(Linked(STALE), late, CheckVacant(LATE, {}), RecheckQuarantines(OWNER), Linked(RIVAL)),
          dead, {0, 1, 2, 3, 4, 5, 6})
  }

  /** The late reclaimer finds the canonical name taken and gives up: it takes its
      request back and leaves the quarantine. */
  lemma {:induction false} Abandons(w: Setting)
    requires w.mode.Vacant?
    ensures Reaches(w, Init(), Uncovered(Left, {0}))
  {
    RivalLinks(w);
    var s := GivesUp(w, Init(), RivalLinked(), 1);
    s := TakesBack(w, Init(), s, 1);
    s := FindsTaken(w, Init(), s, 2);
    s := ReadsNoRequest(w, Init(), s, 3);
    assert s.attempts == Uncovered(Left, {0}).attempts;
  }

  lemma {:induction false} GivesUp(w: Setting, origin: State, s: State, a: AttemptId) returns (s': State)
    requires w.mode.Vacant? && Reaches(w, origin, s) && Live(s, a) && s.attempts[a].pc == Restore(LATE)
    requires LATE in s.quarantine && s.lock.Some?
    ensures s' == At(s, a, DropRequest(LATE, true)) && Reaches(w, origin, s')
  {
    s' := Then(w, origin, s, Act(a, GiveUp));
  }

  lemma {:induction false} FindsTaken(w: Setting, origin: State, s: State, a: AttemptId) returns (s': State)
    requires Reaches(w, origin, s) && Live(s, a) && s.attempts[a].pc == Begin
    requires s.requests == {} && s.quarantine.Keys == {LATE}
    ensures s' == At(s, a, CheckVacant(LATE, {})) && Reaches(w, origin, s')
  {
    s' := Then(w, origin, s, Act(a, Go));
    s' := Then(w, origin, s', Act(a, Go));
    s' := Visits(w, origin, s', a);
  }

  /** The late reclaimer dies, and the reconciler drops its request. */
  lemma {:induction false} DiesAsking(w: Setting)
    requires w.mode.Vacant? && !w.considerate
    ensures Reaches(w, Init(), Uncovered(Restore(LATE), {0, 1}))
  {
    RivalLinks(w);
    var s := Dies(w, Init(), RivalLinked(), 1);
    s := DropsDead(w, Init(), s, 2);
    s := Visits(w, Init(), s, 2);
    s := ReadsNoRequest(w, Init(), s, 3);
    assert s.attempts == Uncovered(Restore(LATE), {0, 1}).attempts && s.dead == {0, 1};
  }

  lemma {:induction false} DropsDead(w: Setting, origin: State, s: State, a: AttemptId) returns (s': State)
    requires Reaches(w, origin, s) && Live(s, a) && s.attempts[a].pc == Begin
    requires s.requests == {LATE} && LATE.pid in s.dead && s.quarantine.Keys == {LATE}
    ensures s' == At(s.(requests := {}), a, VisitQuarantines({LATE})) && Reaches(w, origin, s')
  {
    s' := Then(w, origin, s, Act(a, Go));
    s' := Then(w, origin, s', Act(a, Pick(LATE)));
    s' := Then(w, origin, s', Act(a, Go));
  }

  /** The rival dies, and two more reclaimers observe it. */
  lemma {:induction false} BothObserveAgain(w: Setting, late: Pc, dead: set<Pid>) returns (s: State)
    requires Reaches(w, Init(), Uncovered(late, dead)) && dead <= {0, 1}
    requires RequestOf(late).Some? ==> !w.considerate
    ensures Reaches(w, Init(), s) && s.dead == dead + {4}
    ensures s.lock == Some(RIVAL) && s.quarantine == map[LATE := OWNER]
    ensures s.attempts == Uncovered(late, dead).attempts[5 := Attempt(5, MoveAside(RequestId(5, 8), RIVAL))]
                                                        [6 := Attempt(6, MoveAside(RequestId(6, 10), RIVAL))]
  {
    var u := Uncovered(late, dead);
    s := Dies(w, Init(), u, 4);
    s := TwoFindDead(w, Init(), s, 5, 6, 7);
  }

  lemma {:induction false} TwoFindDead(w: Setting, origin: State, s: State, a: AttemptId, b: AttemptId,
                                       u: nat) returns (s': State)
    requires Reaches(w, origin, s) && Live(s, a) && Live(s, b) && a != b
    requires s.attempts[a].pc == Publish == s.attempts[b].pc && s.lock.Some? && s.lock.value.pid in s.dead
    requires forall v :: v in s.uuids ==> v < u
    ensures
      var moving := (pid: Pid, v: nat) => Attempt(pid, MoveAside(RequestId(pid, v), s.lock.value));
      s'.attempts == s.attempts[a := moving(s.attempts[a].pid, u + 1)][b := moving(s.attempts[b].pid, u + 3)]
    ensures s'.lock == s.lock && s'.quarantine == s.quarantine && s'.dead == s.dead && Reaches(w, origin, s')
  {
    s' := FindsDead(w, origin, s, a, u);
    s' := FindsDead(w, origin, s', b, u + 2);
  }

  /** One attempt removes a dead owner's record and another restores a parked
      one to the name that became vacant. */
  lemma {:induction false} ClearsAndRestores(w: Setting, origin: State, s: State, a: AttemptId,
                                             b: AttemptId) returns (s': State)
    requires Reaches(w, origin, s) && Live(s, a) && Live(s, b) && a != b
    requires s.attempts[a].pc.MoveAside? && s.lock == Some(s.attempts[a].pc.seen)
    requires s.attempts[b].pc == CheckVacant(LATE, {}) && s.quarantine == map[LATE := OWNER]
    requires s.attempts[a].pc.r != LATE && s.lock != Some(OWNER)
    ensures Reaches(w, origin, s')
    ensures s'.lock == Some(OWNER) && s'.quarantine == map[] && s'.dead == s.dead
    ensures s'.attempts == s.attempts[a := Attempt(s.attempts[a].pid, DropRequest(s.attempts[a].pc.r, false))]
                                     [b := Attempt(s.attempts[b].pid, VisitQuarantines({}))]
  {
    s' := Moves(w, origin, s, a);
    assert s'.attempts[b] == s.attempts[b];
    s' := Removes(w, origin, s', a);
    assert s'.quarantine == s.quarantine;
    s' := RestoresVacant(w, origin, s', b);
  }

  lemma {:induction false} RestoresVacant(w: Setting, origin: State, s: State, a: AttemptId) returns (s': State)
    requires Reaches(w, origin, s) && Live(s, a) && s.attempts[a].pc == CheckVacant(LATE, {})
    requires s.lock.None? && s.quarantine == map[LATE := OWNER]
    ensures s' == At(s.(lock := Some(OWNER), quarantine := map[]), a, VisitQuarantines({})) && Reaches(w, origin, s')
  {
    s' := Then(w, origin, s, Act(a, Go));
    s' := Then(w, origin, s', Act(a, Go));
    assert s'.quarantine == map[];
  }

  lemma {:induction false} Removes(w: Setting, origin: State, s: State, a: AttemptId) returns (s': State)
    requires Reaches(w, origin, s) && Live(s, a) && s.attempts[a].pc.Discard?
    requires s.attempts[a].pc.r in s.quarantine && s.quarantine[s.attempts[a].pc.r] == s.attempts[a].pc.seen
    ensures
      var r := s.attempts[a].pc.r;
      s' == At(s.(quarantine := s.quarantine - {r}), a, DropRequest(r, false))
    ensures Reaches(w, origin, s')
  {
    s' := Then(w, origin, s, Act(a, Go));
  }

  /** The owner's record, parked during the first artifact check, is restored
      before the second, and moved again by a reclaimer the check never saw. */
  lemma {:induction false} LosesItsPlace(w: Setting, late: Pc, dead: set<Pid>) returns (s: State)
    requires Reaches(w, Init(), Uncovered(late, dead)) && dead <= {0, 1}
    requires RequestOf(late).Some? ==> !w.considerate
    ensures Reaches(w, Init(), s) && IsAdmitted(s, 3) && s.lock.None?
  {
    s := BothObserveAgain(w, late, dead);
    s := ClearsAndRestores(w, Init(), s, 6, 2);
    s := ReadsNoQuarantine(w, Init(), s, 3);
    s := Renames(w, Init(), s, 5);
  }

  /** A reclaimer that dies with its request out can cost an admitted live owner
      its place. */
  lemma {:induction false} AdmittedRecordCanBeMoved()
    ensures exists steps :: Exec(Vacant, Init(), steps).Some? &&
              IsAdmitted(Exec(Vacant, Init(), steps).value, 3) && Exec(Vacant, Init(), steps).value.lock.None?
  {
    var w := Setting(Vacant, false);
    DiesAsking(w);
    var s := LosesItsPlace(w, Restore(LATE), {0, 1});
    var steps :| Leads(w, Init(), steps, s);
    assert IsAdmitted(Exec(Vacant, Init(), steps).value, 3);
  }

  /** So can a reclaimer that abandons its quarantine, in a run in which nobody
      dies with a request out. */
  lemma {:induction false} AbandonedRecordCanBeMoved()
    ensures exists steps :: Exec(Vacant, Init(), steps).Some? && NobodyDiesAsking(Vacant, Init(), steps) &&
              IsAdmitted(Exec(Vacant, Init(), steps).value, 3) && Exec(Vacant, Init(), steps).value.lock.None?
  {
    var w := Setting(Vacant, true);
    Abandons(w);
    var s := LosesItsPlace(w, Left, {0});
    var steps :| Leads(w, Init(), steps, s);
    assert IsAdmitted(Exec(Vacant, Init(), steps).value, 3);
  }

  // ---------------------------------------------------------------------
  // With POSIX renames, only replacing a live owner's record breaks the exclusion

  /** The step renames a quarantine onto the canonical name. */
  predicate Restores(s: State, step: Step) {
    step.Act? && step.c == Go && Live(s, step.a) &&
    match s.attempts[step.a].pc
    case RestoreParked(q, _) => q in s.quarantine
    case Restore(r) => r in s.quarantine
    case _ => false
  }

  ghost predicate Unheld(s: State, lock: Option<Token>) {
    lock.Some? ==> forall b :: !Holds(s, b, lock.value)
  }

  /** A restore keeps the invariant exactly when no live attempt holds the record
      it replaces. */
  lemma {:induction false} ReplacingKeepsInvExactly(s: State, q: RequestId)
    requires Inv(s) && q in s.quarantine
    ensures Inv(PutBack(s, q)) <==> Unheld(s, s.lock)
  {
    var s' := PutBack(s, q);
    if Unheld(s, s.lock) {
      PutBackKeepsInv(s, q);
    } else {
      var b :| Holds(s, b, s.lock.value);
      assert Holds(s', b, s.lock.value) && s'.lock != s.lock && !Parked(s', s.lock.value);
    }
  }

  /** Every restore of the run finds the canonical name vacant, or taken by a record
      that no live attempt holds. */
  ghost predicate SparesOwners(s: State, steps: seq<Step>)
    decreases |steps|
  {
    steps != [] ==>
      (Restores(s, steps[0]) ==> Unheld(s, s.lock)) &&
      (Next(Replaces, s, steps[0]).Some? ==> SparesOwners(Next(Replaces, s, steps[0]).value, steps[1..]))
  }

  lemma {:induction false} SameStep(s: State, step: Step)
    requires Next(Replaces, s, step).Some? && (Restores(s, step) ==> s.lock.None?)
    ensures Next(Vacant, s, step) == Next(Replaces, s, step)
  {
  }

  lemma {:induction false} RestoreKeepsInv(s: State, step: Step)
    requires Inv(s) && Restores(s, step) && Unheld(s, s.lock)
    ensures Next(Replaces, s, step).Some? && Inv(Next(Replaces, s, step).value)
  {
    var s' := Next(Replaces, s, step).value;
    var pc, pc' := s.attempts[step.a].pc, s'.attempts[step.a].pc;
    var m := At(s, step.a, pc');
    MovingOnKeepsInv(s, step.a, pc');
    assert forall b, t :: Holds(m, b, t) ==> Holds(s, b, t);
    PutBackKeepsInv(m, if pc.Restore? then pc.r else pc.q);
  }

  lemma {:induction false} SparingRunKeepsInv(s: State, steps: seq<Step>, s': State)
    requires Inv(s) && Exec(Replaces, s, steps) == Some(s') && SparesOwners(s, steps)
    ensures Inv(s')
    decreases |steps|
  {
    if steps != [] {
      if Restores(s, steps[0]) {
        RestoreKeepsInv(s, steps[0]);
      } else {
        SameStep(s, steps[0]);
        NextKeepsInv(s, steps[0]);
      }
      SparingRunKeepsInv(Next(Replaces, s, steps[0]).value, steps[1..], s');
    }
  }

  /** Where renames replace, mutual exclusion holds of every run in which no restore
      replaces the record of a live attempt. */
  lemma {:induction false} ExclusionWhileOwnersAreSpared(steps: seq<Step>, s: State, a: AttemptId, b: AttemptId)
    requires Exec(Replaces, Init(), steps) == Some(s) && SparesOwners(Init(), steps)
    requires IsAdmitted(s, a) && IsAdmitted(s, b)
    ensures a == b
  {
    SparingRunKeepsInv(Init(), steps, s);
  }

  // ---------------------------------------------------------------------
  // What becomes of an owner whose record was replaced

  /** The record is neither at the canonical name nor in a quarantine. */
  ghost predicate Lost(s: State, t: Token) {
    s.lock != Some(t) && !Parked(s, t)
  }

  lemma {:induction false} StepKeepsLost(mode: RenameMode, s: State, step: Step, t: Token)
    requires Next(mode, s, step).Some? && t.uuid in s.uuids && Lost(s, t)
    ensures var s' := Next(mode, s, step).value; t.uuid in s'.uuids && Lost(s', t)
  {
    var s' := Next(mode, s, step).value;
    forall q | q in s'.quarantine ensures s'.quarantine[q] != t {
      assert q in s.quarantine ==> s.quarantine[q] != t;
    }
  }

  lemma {:induction false} LostStaysLost(mode: RenameMode, s: State, steps: seq<Step>, t: Token)
    requires Exec(mode, s, steps).Some? && t.uuid in s.uuids && Lost(s, t)
    ensures Lost(Exec(mode, s, steps).value, t)
    decreases |steps|
  {
    if steps != [] {
      StepKeepsLost(mode, s, steps[0], t);
      LostStaysLost(mode, Next(mode, s, steps[0]).value, steps[1..], t);
    }
  }

  /** The record that a restore replaces is lost for good: its owner, as long as it
      lives, neither finds it at its release nor sees it parked. */
  lemma {:induction false} ReplacedRecordIsLost(before: seq<Step>, s: State, step: Step, after: seq<Step>, z: State)
    requires Exec(Replaces, Init(), before) == Some(s) && SparesOwners(Init(), before)
    requires Restores(s, step) && s.lock.Some? && Next(Replaces, s, step).Some?
    requires Exec(Replaces, Next(Replaces, s, step).value, after) == Some(z)
    ensures Lost(z, s.lock.value)
  {
    SparingRunKeepsInv(Init(), before, s);
    var n := Next(Replaces, s, step).value;
    forall q | q in n.quarantine ensures n.quarantine[q] != s.lock.value {
      assert n.quarantine[q] == s.quarantine[q];
    }
    LostStaysLost(Replaces, n, after, s.lock.value);
  }

  lemma {:induction false} SomeAbove(ids: set<nat>) returns (n: nat)
    ensures forall v :: v in ids ==> v < n
    decreases ids
  {
    n := 0;
    if v :| v in ids {
      var m := SomeAbove(ids - {v});
      n := if v < m then m else v + 1;
      forall x | x in ids ensures x < n {
        assert x == v || x in ids - {v};
      }
    }
  }

  predicate WaitsOrIsAdmitted(pc: Pc) {
    pc.Linked? || pc.RecheckQuarantines? || pc.Admitted?
  }

  /** An owner's checks of the markers do not look for its own record. */
  lemma {:induction false} IsLetIn(w: Setting, origin: State, s: State, a: AttemptId) returns (s': State)
    requires Reaches(w, origin, s) && Live(s, a) && WaitsOrIsAdmitted(s.attempts[a].pc)
    requires s.requests == {} && s.quarantine == map[]
    ensures s' == At(s, a, Admitted(s.attempts[a].pc.token)) && Reaches(w, origin, s')
  {
    s' := s;
    if s.attempts[a].pc.Linked? {
      s' := ReadsNoRequest(w, origin, s, a);
    }
    if !s'.attempts[a].pc.Admitted? {
      s' := ReadsNoQuarantine(w, origin, s', a);
    }
  }

  /** A record whose process has died is cleared away. */
  lemma {:induction false} Reclaims(w: Setting, origin: State, s: State, a: AttemptId, u: nat) returns (s': State)
    requires Reaches(w, origin, s) && Live(s, a) && s.attempts[a].pc == Publish
    requires s.requests == {} && s.quarantine == map[] && s.lock.Some? && s.lock.value.pid in s.dead
    requires forall v :: v in s.uuids ==> v < u
    ensures s' == At(s.(lock := None, uuids := s.uuids + {u} + {u + 1}), a, Publish) && Reaches(w, origin, s')
  {
    s' := FindsDead(w, origin, s, a, u);
    s' := Clears(w, origin, s', a);
    assert s'.requests == {};
    s' := Tries(w, origin, s', a);
  }

  /** An owner whose record is lost, and that is not withdrawing, lets another one in
      beside itself as soon as no request and no quarantine is left, unless the
      canonical name holds another record of its own process. */
  lemma {:induction false} LostOwnerIsNotAlone(s: State, b: AttemptId)
    requires Live(s, b) && WaitsOrIsAdmitted(s.attempts[b].pc) && s.requests == {} && s.quarantine == map[]
    requires s.lock.Some? ==> s.lock.value.pid != s.attempts[b].pid
    ensures exists steps :: Exec(Vacant, s, steps).Some? && !MutualExclusion(Exec(Vacant, s, steps).value)
  {
    var w, pid := Setting(Vacant, false), s.attempts[b].pid;
    var a := SomeAbove(s.attempts.Keys);
    var u := SomeAbove(s.uuids);
    Nothing(w, s);
    var z := IsLetIn(w, s, s, b);
    if s.lock.Some? {
      z := Dies(w, s, z, s.lock.value.pid);
    }
    z := Enters(w, s, z, a, pid);
    if s.lock.Some? {
      z := Reclaims(w, s, z, a, u);
    }
    z := Links(w, s, z, a, u + 2);
    z := Passes(w, s, z, a);
    assert IsAdmitted(z, a) && IsAdmitted(z, b);
    var steps :| Leads(w, s, steps, z);
    assert !MutualExclusion(Exec(Vacant, s, steps).value);
  }
}
