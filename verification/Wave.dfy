/** The wave scheduler: workers that share one counter and one list of result
    slots, interleaved at their awaits. */
module Wave {
  import opened Base

  datatype Status = Completed | Failed | Stopped | StartFailed

  datatype TaskResult = TaskResult(taskId: string, status: Status)

  /** Where a worker is between two of its awaits. */
  datatype Worker =
    | Ready
    | Claimed(index: nat)
    | Running(index: nat)
    | Done

  datatype State = State(
    next: nat,
    results: seq<Option<TaskResult>>,
    workers: seq<Worker>,
    stopRequested: bool,
    /** How often each index was claimed, and each slot written. */
    claims: seq<nat>,
    writes: seq<nat>)

  datatype Event =
    | Advance(w: nat)
    | StartJob(w: nat)
    | StartThrows(w: nat)
    | JobSettles(w: nat, status: Status)
    | Interrupt

  // ---------------------------------------------------------------------
  // Steps

  function WorkerCount(parallelCount: int, n: nat): nat {
    if parallelCount <= 0 then 0 else if parallelCount < n then parallelCount else n
  }

  function Init(parallelCount: int, n: nat): State {
    State(0, seq(n, _ => None), seq(WorkerCount(parallelCount, n), _ => Ready), false, seq(n, _ => 0), seq(n, _ => 0))
  }

  /** The top of a worker's loop, up to its first await: it returns, or takes the
      next index.  A worker that is asked to stop returns and leaves its slot. */
  function AdvanceWorker(s: State, w: nat): State
    requires w < |s.workers| && |s.claims| == |s.results|
  {
    match s.workers[w]
    case Ready =>
      if s.next < |s.results| && !s.stopRequested then
        s.(workers := s.workers[w := Claimed(s.next)], next := s.next + 1,
           claims := s.claims[s.next := s.claims[s.next] + 1])
      else s.(workers := s.workers[w := Done])
    case Claimed(_) => if s.stopRequested then s.(workers := s.workers[w := Done]) else s
    case _ => s
  }

  /** A worker writes its slot and goes back to the top of its loop. */
  function Settle(s: State, w: nat, index: nat, r: TaskResult): State
    requires w < |s.workers| && index < |s.results| == |s.writes|
  {
    s.(results := s.results[index := Some(r)], writes := s.writes[index := s.writes[index] + 1],
       workers := s.workers[w := Ready])
  }

  function Next(selections: seq<string>, s: State, e: Event): State {
    if !Shaped(selections, s) then s
    else
      match e
      case Advance(w) => if w < |s.workers| then AdvanceWorker(s, w) else s
      case StartJob(w) =>
        if w < |s.workers| && s.workers[w].Claimed? then
          s.(workers := s.workers[w := Running(s.workers[w].index)])
        else s
      case StartThrows(w) =>
        if w < |s.workers| && s.workers[w].Claimed? then
          Settle(s, w, s.workers[w].index, TaskResult(selections[s.workers[w].index], StartFailed))
        else s
      case JobSettles(w, status) =>
        if w < |s.workers| && s.workers[w].Running? then
          Settle(s, w, s.workers[w].index, TaskResult(selections[s.workers[w].index], status))
        else s
      case Interrupt => s.(stopRequested := true)
  }

  predicate Shaped(selections: seq<string>, s: State) {
    |s.results| == |s.claims| == |s.writes| == |selections| && s.next <= |selections| &&
    forall w :: 0 <= w < |s.workers| && Holds(s.workers[w]) ==> s.workers[w].index < s.next
  }

  predicate Holds(w: Worker) {
    w.Claimed? || w.Running?
  }

  /** Any interleaving of worker steps. */
  function Run(selections: seq<string>, s: State, events: seq<Event>): State
    decreases |events|
  {
    if events == [] then s else Run(selections, Next(selections, s, events[0]), events[1..])
  }

  // ---------------------------------------------------------------------
  // The invariant

  predicate HeldBy(s: State, i: nat) {
    exists w :: 0 <= w < |s.workers| && Holds(s.workers[w]) && s.workers[w].index == i
  }

  predicate Inv(selections: seq<string>, s: State) {
    && Shaped(selections, s)
    // no slot is held twice
    && (forall v, w :: 0 <= v < w < |s.workers| && Holds(s.workers[v]) && Holds(s.workers[w]) ==>
          s.workers[v].index != s.workers[w].index)
    // claims and writes count once
    && (forall i :: 0 <= i < |selections| ==> s.claims[i] == if i < s.next then 1 else 0)
    && (forall i :: 0 <= i < |selections| ==> s.writes[i] == if s.results[i].Some? then 1 else 0)
    && (forall i :: 0 <= i < |selections| && s.results[i].Some? ==>
          i < s.next && s.results[i].value.taskId == selections[i])
    && (forall w :: 0 <= w < |s.workers| && Holds(s.workers[w]) ==> s.results[s.workers[w].index].None?)
    // uninterrupted, every claimed slot is written or held, and workers return last
    && (!s.stopRequested ==>
          (forall i :: 0 <= i < s.next ==> s.results[i].Some? || HeldBy(s, i)) &&
          (forall w :: 0 <= w < |s.workers| && s.workers[w].Done? ==> s.next == |selections|))
  }

  lemma {:induction false} InitHasInv(selections: seq<string>, parallelCount: int)
    ensures Inv(selections, Init(parallelCount, |selections|))
  {
  }

  lemma {:induction false} HoldersStay(s: State, s': State, w: nat, i: nat)
    requires w < |s.workers| == |s'.workers| && s'.workers == s.workers[w := s'.workers[w]] && HeldBy(s, i)
    requires Holds(s.workers[w]) && s.workers[w].index == i ==> Holds(s'.workers[w]) && s'.workers[w].index == i
    ensures HeldBy(s', i)
  {
    var v :| 0 <= v < |s.workers| && Holds(s.workers[v]) && s.workers[v].index == i;
    assert Holds(s'.workers[v]) && s'.workers[v].index == i;
  }

  lemma {:induction false} ClaimKeepsInv(selections: seq<string>, s: State, w: nat)
    requires Inv(selections, s) && w < |s.workers| && s.workers[w].Ready? && s.next < |selections| && !s.stopRequested
    ensures Inv(selections, AdvanceWorker(s, w))
  {
    var s' := AdvanceWorker(s, w);
    forall i | 0 <= i < s'.next ensures s'.results[i].Some? || HeldBy(s', i) {
      if i == s.next {
        assert Holds(s'.workers[w]) && s'.workers[w].index == i;
      } else if s.results[i].None? {
        HoldersStay(s, s', w, i);
      }
    }
  }

  lemma {:induction false} ReturnKeepsInv(selections: seq<string>, s: State, w: nat)
    requires Inv(selections, s) && w < |s.workers|
    requires s.stopRequested || (s.workers[w].Ready? && s.next == |selections|)
    ensures Inv(selections, s.(workers := s.workers[w := Done]))
  {
    var s' := s.(workers := s.workers[w := Done]);
    if !s.stopRequested {
      forall i | 0 <= i < s'.next ensures s'.results[i].Some? || HeldBy(s', i) {
        if s.results[i].None? {
          HoldersStay(s, s', w, i);
        }
      }
    }
  }

  lemma {:induction false} StartKeepsInv(selections: seq<string>, s: State, w: nat)
    requires Inv(selections, s) && w < |s.workers| && s.workers[w].Claimed?
    ensures Inv(selections, s.(workers := s.workers[w := Running(s.workers[w].index)]))
  {
    var s' := s.(workers := s.workers[w := Running(s.workers[w].index)]);
    if !s.stopRequested {
      forall i | 0 <= i < s'.next ensures s'.results[i].Some? || HeldBy(s', i) {
        if s.results[i].None? {
          HoldersStay(s, s', w, i);
        }
      }
    }
  }

  lemma {:induction false} SettleKeepsInv(selections: seq<string>, s: State, w: nat, r: TaskResult)
    requires Inv(selections, s) && w < |s.workers| && Holds(s.workers[w])
    requires r.taskId == selections[s.workers[w].index]
    ensures Inv(selections, Settle(s, w, s.workers[w].index, r))
  {
    var s' := Settle(s, w, s.workers[w].index, r);
    if !s.stopRequested {
      forall i | 0 <= i < s'.next ensures s'.results[i].Some? || HeldBy(s', i) {
        if s'.results[i].None? {
          HoldersStay(s, s', w, i);
        }
      }
    }
  }

  lemma {:induction false} NextKeepsInv(selections: seq<string>, s: State, e: Event)
    requires Inv(selections, s)
    ensures Inv(selections, Next(selections, s, e))
  {
    match e
    case Advance(w) =>
      if w < |s.workers| && s.workers[w].Ready? {
        if s.next < |selections| && !s.stopRequested {
          ClaimKeepsInv(selections, s, w);
        } else {
          ReturnKeepsInv(selections, s, w);
        }
      } else if w < |s.workers| && s.workers[w].Claimed? && s.stopRequested {
        ReturnKeepsInv(selections, s, w);
      }
    case StartJob(w) =>
      if w < |s.workers| && s.workers[w].Claimed? {
        StartKeepsInv(selections, s, w);
      }
    case StartThrows(w) =>
      if w < |s.workers| && s.workers[w].Claimed? {
        SettleKeepsInv(selections, s, w, TaskResult(selections[s.workers[w].index], StartFailed));
      }
    case JobSettles(w, status) =>
      if w < |s.workers| && s.workers[w].Running? {
        SettleKeepsInv(selections, s, w, TaskResult(selections[s.workers[w].index], status));
      }
    case Interrupt =>
      InterruptKeepsInv(selections, s);
  }

  lemma {:induction false} InterruptKeepsInv(selections: seq<string>, s: State)
    requires Inv(selections, s)
    ensures Inv(selections, s.(stopRequested := true))
  {
  }

  lemma {:induction false} RunKeepsInv(selections: seq<string>, s: State, events: seq<Event>)
    requires Inv(selections, s)
    ensures Inv(selections, Run(selections, s, events)) && |Run(selections, s, events).workers| == |s.workers|
    decreases |events|
  {
    if events != [] {
      NextKeepsInv(selections, s, events[0]);
      RunKeepsInv(selections, Next(selections, s, events[0]), events[1..]);
    }
  }

  // ---------------------------------------------------------------------
  // The results

  /** `Promise.all` resolves when every worker has returned. */
  predicate AllDone(s: State) {
    forall w :: 0 <= w < |s.workers| ==> s.workers[w].Done?
  }

  function InFlight(workers: seq<Worker>): nat {
    if workers == [] then 0
    else InFlight(workers[..|workers| - 1]) + if workers[|workers| - 1].Running? then 1 else 0
  }

  lemma {:induction false} InFlightBound(workers: seq<Worker>)
    ensures InFlight(workers) <= |workers|
  {
    if workers != [] {
      InFlightBound(workers[..|workers| - 1]);
    }
  }

  /** In every interleaving no index is claimed twice, no slot is written twice or
      with another task's result, and no more jobs run at once than were allowed. */
  lemma {:induction false} EveryInterleaving(selections: seq<string>, parallelCount: int, events: seq<Event>)
    ensures
      var s := Run(selections, Init(parallelCount, |selections|), events);
      && |s.results| == |s.claims| == |s.writes| == |selections|
      && (forall i :: 0 <= i < |selections| ==> s.claims[i] <= 1 && s.writes[i] <= s.claims[i])
      && (forall i :: 0 <= i < |selections| && s.results[i].Some? ==> s.results[i].value.taskId == selections[i])
      && InFlight(s.workers) <= |s.workers| <= |selections|
      && |s.workers| <= if parallelCount <= 0 then 0 else parallelCount
  {
    InitHasInv(selections, parallelCount);
    RunKeepsInv(selections, Init(parallelCount, |selections|), events);
    InFlightBound(Run(selections, Init(parallelCount, |selections|), events).workers);
  }

  /** Each slot holds the one result of its own selection, claimed once. */
  predicate Complete(selections: seq<string>, s: State) {
    |s.results| == |s.claims| == |s.writes| == |selections| &&
    forall i :: 0 <= i < |selections| ==>
      s.claims[i] == 1 == s.writes[i] && s.results[i].Some? && s.results[i].value.taskId == selections[i]
  }

  /** When an uninterrupted wave resolves, it is complete, provided it had a worker
      at all; without one it resolves at once, with nothing done. */
  lemma {:induction false} ResolvedExactly(selections: seq<string>, parallelCount: int, events: seq<Event>)
    ensures
      var s := Run(selections, Init(parallelCount, |selections|), events);
      AllDone(s) && !s.stopRequested ==> (Complete(selections, s) <==> parallelCount >= 1 || selections == [])
  {
    InitHasInv(selections, parallelCount);
    RunKeepsInv(selections, Init(parallelCount, |selections|), events);
    var s := Run(selections, Init(parallelCount, |selections|), events);
    if AllDone(s) && !s.stopRequested && selections != [] {
      if parallelCount >= 1 {
        assert s.workers[0].Done?;
        forall i | 0 <= i < |selections| ensures s.results[i].Some? {
          assert s.results[i].Some? || HeldBy(s, i);
        }
      } else {
        NoWorkersNoResults(selections, Init(parallelCount, |selections|), events);
        assert s.results[0].None?;
      }
    }
  }

  lemma {:induction false} NoWorkersNoResults(selections: seq<string>, s: State, events: seq<Event>)
    requires Inv(selections, s) && s.workers == [] && forall i :: 0 <= i < |s.results| ==> s.results[i].None?
    ensures var s' := Run(selections, s, events);
            |s'.results| == |selections| && forall i :: 0 <= i < |s'.results| ==> s'.results[i].None?
    decreases |events|
  {
    if events != [] {
      NextKeepsInv(selections, s, events[0]);
      NoWorkersNoResults(selections, Next(selections, s, events[0]), events[1..]);
    }
  }

  // ---------------------------------------------------------------------
  // Every wave comes to its end

  /** The steps a worker may still take with what it holds. */
  function Weight(w: Worker): nat {
    match w
    case Done => 0
    case Ready => 1
    case Running(_) => 2
    case Claimed(_) => 3
  }

  function Weights(workers: seq<Worker>): nat {
    if workers == [] then 0 else Weights(workers[..|workers| - 1]) + Weight(workers[|workers| - 1])
  }

  /** A bound on the steps that are left. */
  function Left(s: State): nat {
    Weights(s.workers) + (if s.next <= |s.results| then 3 * (|s.results| - s.next) else 0) +
    (if s.stopRequested then 0 else 1)
  }

  lemma {:induction false} WeightsUpdated(workers: seq<Worker>, w: nat, x: Worker)
    requires w < |workers|
    ensures Weights(workers[w := x]) + Weight(workers[w]) == Weights(workers) + Weight(x)
  {
    var n := |workers| - 1;
    if w < n {
      WeightsUpdated(workers[..n], w, x);
      assert workers[w := x][..n] == workers[..n][w := x];
    } else {
      assert workers[w := x][..n] == workers[..n];
    }
  }

  /** Whatever changes the state uses up a step. */
  lemma {:induction false} StepsAreUsedUp(selections: seq<string>, s: State, e: Event)
    requires Next(selections, s, e) != s
    ensures Left(Next(selections, s, e)) < Left(s)
  {
    if !e.Interrupt? && e.w < |s.workers| {
      WeightsUpdated(s.workers, e.w, Next(selections, s, e).workers[e.w]);
    }
  }

  /** How many events of a run change the state. */
  function Effective(selections: seq<string>, s: State, events: seq<Event>): nat
    decreases |events|
  {
    if events == [] then 0
    else
      var s' := Next(selections, s, events[0]);
      Effective(selections, s', events[1..]) + if s' == s then 0 else 1
  }

  lemma {:induction false} EffectiveWithin(selections: seq<string>, s: State, events: seq<Event>)
    ensures Effective(selections, s, events) + Left(Run(selections, s, events)) <= Left(s)
    decreases |events|
  {
    if events != [] {
      if Next(selections, s, events[0]) != s {
        StepsAreUsedUp(selections, s, events[0]);
      }
      EffectiveWithin(selections, Next(selections, s, events[0]), events[1..]);
    }
  }

  lemma {:induction false} ReadyWeights(n: nat)
    ensures Weights(seq(n, _ => Ready)) == n
  {
    if n > 0 {
      ReadyWeights(n - 1);
      assert seq(n, _ => Ready)[..n - 1] == seq(n - 1, _ => Ready);
    }
  }

  /** The workers can take no more step exactly when all of them have returned. */
  lemma {:induction false} StuckExactly(selections: seq<string>, s: State)
    requires Inv(selections, s)
    ensures (forall e :: e != Interrupt ==> Next(selections, s, e) == s) <==> AllDone(s)
  {
    if !AllDone(s) {
      var w :| 0 <= w < |s.workers| && !s.workers[w].Done?;
      var e := if s.workers[w].Claimed? then StartThrows(w)
               else if s.workers[w].Running? then JobSettles(w, Completed) else Advance(w);
      assert Next(selections, s, e).workers[w] != s.workers[w];
    }
  }

  /** In every interleaving, interrupted or not, at most three steps are taken for
      each selection, one for each worker and one for the interruption; a wave that
      can take no more has resolved. */
  lemma {:induction false} EveryWaveEnds(selections: seq<string>, parallelCount: int, events: seq<Event>)
    ensures
      var init := Init(parallelCount, |selections|);
      var s := Run(selections, init, events);
      && Effective(selections, init, events) <= 3 * |selections| + WorkerCount(parallelCount, |selections|) + 1
      && ((forall e :: e != Interrupt ==> Next(selections, s, e) == s) <==> AllDone(s))
  {
    var init := Init(parallelCount, |selections|);
    ReadyWeights(WorkerCount(parallelCount, |selections|));
    EffectiveWithin(selections, init, events);
    InitHasInv(selections, parallelCount);
    RunKeepsInv(selections, init, events);
    StuckExactly(selections, Run(selections, init, events));
  }

  // ---------------------------------------------------------------------
  // What the slots tell

  /** The event settles the slot, with this status. */
  predicate SettlesSlot(s: State, e: Event, i: nat, status: Status) {
    match e
    case StartThrows(w) => w < |s.workers| && s.workers[w] == Claimed(i) && status == StartFailed
    case JobSettles(w, outcome) => w < |s.workers| && s.workers[w] == Running(i) && status == outcome
    case _ => false
  }

  lemma {:induction false} RunLast(selections: seq<string>, s: State, events: seq<Event>, e: Event)
    ensures Run(selections, s, events + [e]) == Next(selections, Run(selections, s, events), e)
    decreases |events|
  {
    if events == [] {
      assert [e][1..] == [];
      assert Run(selections, s, [e]) == Next(selections, s, e);
      assert events + [e] == [e];
    } else {
      assert (events + [e])[1..] == events[1..] + [e];
      RunLast(selections, Next(selections, s, events[0]), events[1..], e);
    }
  }

  lemma {:induction false} NextSettles(selections: seq<string>, s: State, e: Event, i: nat)
    requires Inv(selections, s) && i < |selections|
    ensures
      var s' := Next(selections, s, e);
      && |s'.results| == |selections|
      && (s.results[i].Some? ==> s'.results[i] == s.results[i])
      && (s.results[i].None? ==>
           if exists status :: SettlesSlot(s, e, i, status)
           then s'.results[i].Some? && SettlesSlot(s, e, i, s'.results[i].value.status)
           else s'.results[i].None?)
  {
    if e.StartThrows? && e.w < |s.workers| && s.workers[e.w] == Claimed(i) {
      assert SettlesSlot(s, e, i, StartFailed);
    }
    if e.JobSettles? && e.w < |s.workers| && s.workers[e.w] == Running(i) {
      assert SettlesSlot(s, e, i, e.status);
    }
  }

  /** The step of the run that settled the slot. */
  ghost predicate SettledAt(selections: seq<string>, init: State, events: seq<Event>, k: int, i: nat, status: Status) {
    0 <= k < |events| && SettlesSlot(Run(selections, init, events[..k]), events[k], i, status)
  }

  lemma {:induction false} SlotsSettle(selections: seq<string>, init: State, events: seq<Event>, i: nat)
    requires Inv(selections, init) && i < |selections| && init.results[i].None?
    ensures
      var s := Run(selections, init, events);
      && |s.results| == |selections|
      && (s.results[i].Some? ==> exists k :: SettledAt(selections, init, events, k, i, s.results[i].value.status))
    decreases |events|
  {
    if events != [] {
      var n := |events| - 1;
      var before, e := events[..n], events[n];
      var s := Run(selections, init, before);
      SlotsSettle(selections, init, before, i);
      RunKeepsInv(selections, init, before);
      RunLast(selections, init, before, e);
      assert events == before + [e];
      NextSettles(selections, s, e, i);
      if s.results[i].Some? {
        var k :| SettledAt(selections, init, before, k, i, s.results[i].value.status);
        assert before[..k] == events[..k];
        assert SettledAt(selections, init, events, k, i, s.results[i].value.status);
      } else if Next(selections, s, e).results[i].Some? {
        assert SettledAt(selections, init, events, n, i, Next(selections, s, e).results[i].value.status);
      }
    }
  }

  /** In every interleaving a slot holds what the event that settled it said: the
      outcome of the job that ran for its selection, or that it could not be
      started. */
  lemma {:induction false} SlotsTellWhatHappened(selections: seq<string>, parallelCount: int, events: seq<Event>, i: nat)
    requires i < |selections|
    ensures
      var init := Init(parallelCount, |selections|);
      var s := Run(selections, init, events);
      && i < |s.results|
      && (s.results[i].Some? ==> exists k :: SettledAt(selections, init, events, k, i, s.results[i].value.status))
  {
    InitHasInv(selections, parallelCount);
    SlotsSettle(selections, Init(parallelCount, |selections|), events, i);
  }

  /** After an interruption no further selection is claimed. */
  lemma {:induction false} InterruptStopsClaims(selections: seq<string>, s: State, events: seq<Event>)
    requires s.stopRequested
    ensures
      var s' := Run(selections, s, events);
      s'.stopRequested && s'.next == s.next && s'.claims == s.claims
    decreases |events|
  {
    if events != [] {
      InterruptStopsClaims(selections, Next(selections, s, events[0]), events[1..]);
    }
  }

  // ---------------------------------------------------------------------
  // The exit code

  /** `every` passes over empty slots. */
  function WaveExitCode(results: seq<Option<TaskResult>>, parseErrorCount: nat): int {
    if parseErrorCount == 0 &&
       forall i :: 0 <= i < |results| && results[i].Some? ==> results[i].value.status == Completed
    then 0 else 1
  }

  /** A resolved, uninterrupted wave of at least one worker exits with 0 exactly
      when every selection completed and every spec parsed. */
  lemma {:induction false} ExitCodeExactly(selections: seq<string>, parallelCount: int, events: seq<Event>, errors: nat)
    requires parallelCount >= 1
    ensures
      var s := Run(selections, Init(parallelCount, |selections|), events);
      AllDone(s) && !s.stopRequested ==>
        (WaveExitCode(s.results, errors) == 0 <==>
         errors == 0 && |s.results| == |selections| &&
         forall i :: 0 <= i < |selections| ==> s.results[i] == Some(TaskResult(selections[i], Completed)))
  {
    ResolvedExactly(selections, parallelCount, events);
  }

  /** Called with no parallelism, the scheduler runs nothing and the wave still
      exits with 0. */
  lemma {:induction false} NoWorkersExitCleanly(selections: seq<string>, parallelCount: int)
    requires parallelCount <= 0 && selections != []
    ensures var s := Init(parallelCount, |selections|);
            AllDone(s) && WaveExitCode(s.results, 0) == 0 && !Complete(selections, s)
  {
    var s := Init(parallelCount, |selections|);
    assert s.results[0].None?;
  }

  /** Interrupted, a worker can leave its slot empty. */
  lemma {:induction false} InterruptLeavesHoles(task: string)
    ensures
      var s := Run([task], Init(1, 1), [Advance(0), Interrupt, Advance(0)]);
      AllDone(s) && s.results == [None]
  {
    var s0 := Init(1, 1);
    var s1 := Next([task], s0, Advance(0));
    InitHasInv([task], 1);
    assert s0.workers == [Ready] && s0.results == [None];
    NextKeepsInv([task], s0, Advance(0));
    var s2 := Next([task], s1, Interrupt);
    NextKeepsInv([task], s1, Interrupt);
    var s3 := Next([task], s2, Advance(0));
    NextKeepsInv([task], s2, Advance(0));
    assert s1.workers == [Claimed(0)] && s3.workers == [Done];
    var events := [Advance(0), Interrupt, Advance(0)];
    assert events[1..] == [Interrupt, Advance(0)] && events[1..][1..] == [Advance(0)];
    assert events[1..][1..][1..] == [];
    assert Run([task], s0, events) == Run([task], s1, events[1..]) == Run([task], s2, events[1..][1..]) ==
           Run([task], s3, events[1..][1..][1..]) == s3;
  }
}
