/** The inbox poller: deliveries that survive crashes, restarts, throwing output
    and failing acknowledgements. */
module Inbox {

  datatype Message = Message(messageId: string, unread: bool)

  /** What the broker makes of an acknowledgement: it answers well, it answers
      badly, or the call throws, before or after the message was moved. */
  datatype Ack = Accepted | Refused | Threw(moved: bool)

  /** What the world does to one message of a call. */
  datatype Fate = Fate(emitThrows: bool, ack: Ack)

  /** What the world sees, in order. */
  datatype Event =
    | Emitted(messageId: string)
    | MovedToRead(messageId: string)
    /** The process was started anew and has seen nothing. */
    | Restarted

  datatype Counts = Counts(emitted: nat, acked: nat, ackFailures: nat)

  /** How a call stands: going on, left by a throwing output, or killed. */
  datatype End = Going | Thrown | Crashed

  /** `budget` is the number of steps (mark, emit, acknowledge) until a crash. */
  datatype Progress = Progress(log: seq<Event>, seen: set<string>, counts: Counts, budget: nat, end: End)

  // ---------------------------------------------------------------------
  // One message

  function Acknowledge(p: Progress, m: Message, ack: Ack): Progress {
    if p.budget == 0 then p.(end := Crashed)
    else
      var log := if ack == Accepted || ack == Threw(true) then p.log + [MovedToRead(m.messageId)] else p.log;
      var counts := if ack == Accepted then p.counts.(acked := p.counts.acked + 1)
                    else p.counts.(ackFailures := p.counts.ackFailures + 1);
      p.(log := log, counts := counts, budget := p.budget - 1)
  }

  function Emit(p: Progress, m: Message, fate: Fate, noAck: bool): Progress {
    if p.budget == 0 then p.(end := Crashed)
    else if fate.emitThrows then p.(end := Thrown)
    else
      var q := p.(log := p.log + [Emitted(m.messageId)], counts := p.counts.(emitted := p.counts.emitted + 1),
                  budget := p.budget - 1);
      if !noAck && m.unread then Acknowledge(q, m, fate.ack) else q
  }

  function Deliver(p: Progress, m: Message, fate: Fate, noAck: bool): Progress {
    if p.end != Going || m.messageId == "" || m.messageId in p.seen then p
    else if p.budget == 0 then p.(end := Crashed)
    else Emit(p.(seen := p.seen + {m.messageId}, budget := p.budget - 1), m, fate, noAck)
  }

  datatype Call = Call(messages: seq<Message>, fates: seq<Fate>, noAck: bool, budget: nat)

  predicate ValidCall(c: Call) {
    |c.fates| == |c.messages|
  }

  function Start(log: seq<Event>, seen: set<string>, c: Call): Progress {
    Progress(log, seen, Counts(0, 0, 0), c.budget, Going)
  }

  /** A call after its first `n` messages. */
  function After(p: Progress, c: Call, n: nat): Progress
    requires ValidCall(c) && n <= |c.messages|
  {
    if n == 0 then p else Deliver(After(p, c, n - 1), c.messages[n - 1], c.fates[n - 1], c.noAck)
  }

  // ---------------------------------------------------------------------
  // The poller

  class Poller {
    var log: seq<Event>
    var seen: set<string>

    constructor ()
      ensures log == [] && seen == {}
    {
      log, seen := [], {};
    }

    /** One tick.  The state it leaves is that of a call over the old state, also
        when it throws or is killed. */
    method ProcessMessages(c: Call) returns (counts: Counts, end: End)
      requires ValidCall(c)
      modifies this
      ensures var p := After(Start(old(log), old(seen), c), c, |c.messages|);
              log == p.log && seen == p.seen && counts == p.counts && end == p.end
    {
      ghost var start := Start(log, seen, c);
      var emitted, acked, ackFailures, budget := 0, 0, 0, c.budget;
      for i := 0 to |c.messages|
        invariant After(start, c, i) == Progress(log, seen, Counts(emitted, acked, ackFailures), budget, Going)
      {
        var m := c.messages[i];
        if m.messageId == "" || m.messageId in seen {
          continue;
        }
        if budget == 0 {
          StaysEnded(start, c, i + 1, |c.messages|);
          return Counts(emitted, acked, ackFailures), Crashed;
        }
        seen := seen + {m.messageId};
        budget := budget - 1;
        if budget == 0 {
          StaysEnded(start, c, i + 1, |c.messages|);
          return Counts(emitted, acked, ackFailures), Crashed;
        }
        if c.fates[i].emitThrows {
          StaysEnded(start, c, i + 1, |c.messages|);
          return Counts(emitted, acked, ackFailures), Thrown;
        }
        log := log + [Emitted(m.messageId)];
        emitted := emitted + 1;
        budget := budget - 1;
        if !c.noAck && m.unread {
          if budget == 0 {
            StaysEnded(start, c, i + 1, |c.messages|);
            return Counts(emitted, acked, ackFailures), Crashed;
          }
          if c.fates[i].ack == Accepted || c.fates[i].ack == Threw(true) {
            log := log + [MovedToRead(m.messageId)];
          }
          if c.fates[i].ack == Accepted {
            acked := acked + 1;
          } else {
            ackFailures := ackFailures + 1;
          }
          budget := budget - 1;
        }
      }
      return Counts(emitted, acked, ackFailures), Going;
    }

    /** A new process. */
    method Restart()
      modifies this
      ensures log == old(log) + [Restarted] && seen == {}
    {
      log, seen := log + [Restarted], {};
    }
  }

  lemma {:induction false} StaysEnded(p: Progress, c: Call, i: nat, n: nat)
    requires ValidCall(c) && i <= n <= |c.messages| && After(p, c, i).end != Going
    ensures After(p, c, n) == After(p, c, i)
  {
    if i < n {
      StaysEnded(p, c, i, n - 1);
    }
  }

  // ---------------------------------------------------------------------
  // Runs

  datatype Tick = Poll(call: Call) | Restart

  predicate ValidTicks(ticks: seq<Tick>) {
    forall k :: 0 <= k < |ticks| && ticks[k].Poll? ==> ValidCall(ticks[k].call)
  }

  /** The log and the seen ids after a tick.  A killed process is started anew. */
  function Tock(log: seq<Event>, seen: set<string>, tick: Tick): (seq<Event>, set<string>)
    requires tick.Poll? ==> ValidCall(tick.call)
  {
    match tick
    case Restart => (log + [Restarted], {})
    case Poll(c) =>
      var p := After(Start(log, seen, c), c, |c.messages|);
      if p.end == Crashed then (p.log + [Restarted], {}) else (p.log, p.seen)
  }

  function Run(ticks: seq<Tick>, n: nat): (seq<Event>, set<string>)
    requires ValidTicks(ticks) && n <= |ticks|
  {
    if n == 0 then ([], {})
    else
      var before := Run(ticks, n - 1);
      Tock(before.0, before.1, ticks[n - 1])
  }

  // ---------------------------------------------------------------------
  // What every run keeps

  /** A message is moved to read right after its delivery. */
  predicate MovesFollowDeliveries(log: seq<Event>) {
    forall k :: 0 <= k < |log| && log[k].MovedToRead? ==> k > 0 && log[k - 1] == Emitted(log[k].messageId)
  }

  predicate SameLife(log: seq<Event>, j: nat, k: nat)
    requires j <= k <= |log|
  {
    forall r :: j <= r < k ==> log[r] != Restarted
  }

  /** No id is delivered twice between restarts. */
  predicate OncePerLife(log: seq<Event>) {
    forall j, k :: 0 <= j < k < |log| && log[j].Emitted? && log[j] == log[k] ==> !SameLife(log, j, k)
  }

  /** What this process delivered it has seen. */
  predicate Remembered(log: seq<Event>, seen: set<string>) {
    forall k :: 0 <= k < |log| && log[k].Emitted? && SameLife(log, k, |log|) ==> log[k].messageId in seen
  }

  predicate LogInv(log: seq<Event>, seen: set<string>) {
    MovesFollowDeliveries(log) && OncePerLife(log) && Remembered(log, seen)
  }

  lemma {:induction false} SameLifeLonger(log: seq<Event>, e: Event, j: nat, k: nat)
    requires j <= k <= |log|
    ensures SameLife(log + [e], j, k) <==> SameLife(log, j, k)
    ensures SameLife(log + [e], j, |log| + 1) <==> SameLife(log, j, |log|) && e != Restarted
  {
    var more := log + [e];
    assert forall r :: 0 <= r < |log| ==> more[r] == log[r];
    assert more[|log|] == e;
  }

  lemma {:induction false} EmitKeepsInv(log: seq<Event>, seen: set<string>, id: string)
    requires LogInv(log, seen) && id !in seen
    ensures LogInv(log + [Emitted(id)], seen + {id})
  {
    var more := log + [Emitted(id)];
    forall j, k | 0 <= j < k < |more| && more[j].Emitted? && more[j] == more[k] ensures !SameLife(more, j, k) {
      SameLifeLonger(log, Emitted(id), j, k);
      if k < |log| {
        assert log[j] == log[k];
      }
    }
    forall k | 0 <= k < |more| && more[k].Emitted? && SameLife(more, k, |more|)
      ensures more[k].messageId in seen + {id}
    {
      SameLifeLonger(log, Emitted(id), k, if k < |log| then k else |log|);
    }
  }

  lemma {:induction false} MoveKeepsInv(log: seq<Event>, seen: set<string>, id: string)
    requires LogInv(log, seen) && log != [] && log[|log| - 1] == Emitted(id)
    ensures LogInv(log + [MovedToRead(id)], seen)
  {
    var more := log + [MovedToRead(id)];
    forall j, k | 0 <= j < k < |more| && more[j].Emitted? && more[j] == more[k] ensures !SameLife(more, j, k) {
      SameLifeLonger(log, MovedToRead(id), j, k);
      assert k < |log| && log[j] == log[k];
    }
    forall k | 0 <= k < |more| && more[k].Emitted? && SameLife(more, k, |more|) ensures more[k].messageId in seen {
      SameLifeLonger(log, MovedToRead(id), k, k);
      assert log[k].Emitted?;
    }
  }

  lemma {:induction false} RestartKeepsInv(log: seq<Event>, seen: set<string>)
    requires LogInv(log, seen)
    ensures LogInv(log + [Restarted], {})
  {
    var more := log + [Restarted];
    forall j, k | 0 <= j < k < |more| && more[j].Emitted? && more[j] == more[k] ensures !SameLife(more, j, k) {
      SameLifeLonger(log, Restarted, j, k);
      assert k < |log| && log[j] == log[k];
    }
    forall k | 0 <= k < |more| && more[k].Emitted? ensures !SameLife(more, k, |more|) {
      SameLifeLonger(log, Restarted, k, k);
    }
  }

  lemma {:induction false} MoreSeenKeepsInv(log: seq<Event>, seen: set<string>, id: string)
    requires LogInv(log, seen)
    ensures LogInv(log, seen + {id})
  {
  }

  lemma {:induction false} DeliverKeepsInv(p: Progress, m: Message, fate: Fate, noAck: bool)
    requires LogInv(p.log, p.seen)
    ensures var q := Deliver(p, m, fate, noAck); LogInv(q.log, q.seen)
  {
    var id := m.messageId;
    if p.end == Going && id != "" && id !in p.seen {
      MoreSeenKeepsInv(p.log, p.seen, id);
      EmitKeepsInv(p.log, p.seen, id);
      MoveKeepsInv(p.log + [Emitted(id)], p.seen + {id}, id);
    }
  }

  lemma {:induction false} AfterKeepsInv(p: Progress, c: Call, n: nat)
    requires ValidCall(c) && n <= |c.messages| && LogInv(p.log, p.seen)
    ensures LogInv(After(p, c, n).log, After(p, c, n).seen)
  {
    if n > 0 {
      AfterKeepsInv(p, c, n - 1);
      DeliverKeepsInv(After(p, c, n - 1), c.messages[n - 1], c.fates[n - 1], c.noAck);
    }
  }

  lemma {:induction false} RunKeepsInv(ticks: seq<Tick>, n: nat)
    requires ValidTicks(ticks) && n <= |ticks|
    ensures LogInv(Run(ticks, n).0, Run(ticks, n).1)
  {
    if n > 0 {
      RunKeepsInv(ticks, n - 1);
      var before := Run(ticks, n - 1);
      match ticks[n - 1]
      case Restart =>
        RestartKeepsInv(before.0, before.1);
      case Poll(c) =>
        var p := After(Start(before.0, before.1, c), c, |c.messages|);
        AfterKeepsInv(Start(before.0, before.1, c), c, |c.messages|);
        RestartKeepsInv(p.log, p.seen);
    }
  }

  /** In every run a message that this poller moved to read was delivered right
      before, and no process delivers an id twice. */
  lemma {:induction false} AtLeastOnceDelivery(ticks: seq<Tick>)
    requires ValidTicks(ticks)
    ensures var log := Run(ticks, |ticks|).0;
            && (forall k :: 0 <= k < |log| && log[k].MovedToRead? ==> k > 0 && log[k - 1] == Emitted(log[k].messageId))
            && (forall j, k :: 0 <= j < k < |log| && log[j].Emitted? && log[j] == log[k] ==>
                  exists r :: j < r < k && log[r] == Restarted)
  {
    var log := Run(ticks, |ticks|).0;
    RunKeepsInv(ticks, |ticks|);
    forall j, k | 0 <= j < k < |log| && log[j].Emitted? && log[j] == log[k]
      ensures exists r :: j < r < k && log[r] == Restarted
    {
      assert !SameLife(log, j, k);
    }
  }

  // ---------------------------------------------------------------------
  // What a call delivers

  predicate Delivered(log: seq<Event>, from: nat, id: string) {
    exists k :: from <= k < |log| && log[k] == Emitted(id)
  }

  lemma {:induction false} LogGrows(p: Progress, c: Call, n: nat)
    requires ValidCall(c) && n <= |c.messages|
    ensures p.log <= After(p, c, n).log && p.seen <= After(p, c, n).seen
  {
    if n > 0 {
      LogGrows(p, c, n - 1);
    }
  }

  lemma {:induction false} DeliverDelivers(p: Progress, m: Message, fate: Fate, noAck: bool, from: nat, id: string)
    requires from <= |p.log| && Deliver(p, m, fate, noAck).end == Going
    ensures var q := Deliver(p, m, fate, noAck);
            && (id in q.seen <==> id in p.seen || (id == m.messageId && id != ""))
            && (Delivered(q.log, from, id) <==>
                Delivered(p.log, from, id) || (id == m.messageId && id != "" && id !in p.seen))
  {
    var q := Deliver(p, m, fate, noAck);
    var n := |p.log|;
    assert p.log <= q.log;
    if m.messageId != "" && m.messageId !in p.seen {
      assert q.log[n] == Emitted(m.messageId);
      assert |q.log| == n + 1 || (|q.log| == n + 2 && q.log[n + 1].MovedToRead?);
    }
    if k :| from <= k < |p.log| && p.log[k] == Emitted(id) {
      assert q.log[k] == Emitted(id);
    }
    if k :| from <= k < |q.log| && q.log[k] == Emitted(id) {
      assert k < n ==> p.log[k] == q.log[k];
    }
  }

  lemma {:induction false} AfterDelivers(p: Progress, c: Call, n: nat, id: string)
    requires ValidCall(c) && n <= |c.messages| && After(p, c, n).end == Going
    ensures var q := After(p, c, n);
            var listed := id != "" && exists k :: 0 <= k < n && c.messages[k].messageId == id;
            && (id in q.seen <==> id in p.seen || listed)
            && (Delivered(q.log, |p.log|, id) <==> listed && id !in p.seen)
  {
    if n > 0 {
      var before := After(p, c, n - 1);
      if before.end == Going {
        AfterDelivers(p, c, n - 1, id);
        LogGrows(p, c, n - 1);
        DeliverDelivers(before, c.messages[n - 1], c.fates[n - 1], c.noAck, |p.log|, id);
      }
    }
  }

  /** A call that comes to its end has delivered exactly the listed ids that this
      process had not seen. */
  lemma {:induction false} CompleteCallDeliversExactly(log: seq<Event>, seen: set<string>, c: Call, id: string)
    requires ValidCall(c) && After(Start(log, seen, c), c, |c.messages|).end == Going
    ensures Delivered(After(Start(log, seen, c), c, |c.messages|).log, |log|, id) <==>
            id != "" && id !in seen && exists k :: 0 <= k < |c.messages| && c.messages[k].messageId == id
  {
    AfterDelivers(Start(log, seen, c), c, |c.messages|, id);
  }

  // ---------------------------------------------------------------------
  // What any call delivers, from its inputs alone

  /** Message `i` is new to a process that has seen `seen`, and the first of its id. */
  predicate IsFresh(c: Call, seen: set<string>, i: nat)
    requires i < |c.messages|
  {
    var id := c.messages[i].messageId;
    id != "" && id !in seen && forall j :: 0 <= j < i ==> c.messages[j].messageId != id
  }

  /** The steps that the fresh ones of the first `n` messages take: mark and emit,
      and acknowledge the unread ones. */
  function Cost(c: Call, seen: set<string>, n: nat): nat
    requires n <= |c.messages|
  {
    if n == 0 then 0
    else if !IsFresh(c, seen, n - 1) then Cost(c, seen, n - 1)
    else Cost(c, seen, n - 1) + if !c.noAck && c.messages[n - 1].unread then 3 else 2
  }

  predicate FreshThrow(c: Call, seen: set<string>, i: nat)
    requires ValidCall(c) && i < |c.messages|
  {
    IsFresh(c, seen, i) && c.fates[i].emitThrows
  }

  /** No output throws for a fresh one of the first `n` messages. */
  predicate Quiet(c: Call, seen: set<string>, n: nat)
    requires ValidCall(c) && n <= |c.messages|
  {
    forall i :: 0 <= i < n ==> !FreshThrow(c, seen, i)
  }

  /** The call gets to the delivery of message `i`. */
  predicate GetsThrough(c: Call, seen: set<string>, i: nat)
    requires ValidCall(c) && i < |c.messages|
  {
    IsFresh(c, seen, i) && Quiet(c, seen, i + 1) && Cost(c, seen, i) + 2 <= c.budget
  }

  ghost predicate GetsTo(c: Call, seen: set<string>, n: nat, id: string)
    requires ValidCall(c) && n <= |c.messages|
  {
    exists i :: 0 <= i < n && c.messages[i].messageId == id && GetsThrough(c, seen, i)
  }

  /** What `n` messages have come to, told from the inputs. */
  ghost predicate Foreseen(c: Call, seen: set<string>, n: nat, from: nat, id: string, q: Progress)
    requires ValidCall(c) && n <= |c.messages|
  {
    && (q.end == Going <==> Quiet(c, seen, n) && Cost(c, seen, n) <= c.budget)
    && (q.end == Going ==> q.budget == c.budget - Cost(c, seen, n))
    && (q.end == Going ==> forall x :: x in q.seen <==> x in seen || (x != "" && Lists(c, n, x)))
    && from <= |q.log|
    && (Delivered(q.log, from, id) <==> GetsTo(c, seen, n, id))
  }

  predicate Lists(c: Call, n: nat, id: string)
    requires n <= |c.messages|
  {
    exists k :: 0 <= k < n && c.messages[k].messageId == id
  }

  /** A message that changes nothing. */
  lemma {:induction false} PassesBy(c: Call, seen: set<string>, n: nat, from: nat, id: string, q: Progress)
    requires ValidCall(c) && 0 < n <= |c.messages| && Foreseen(c, seen, n - 1, from, id, q)
    requires q.end == Going ==> !IsFresh(c, seen, n - 1)
    requires q.end == Going ==> c.messages[n - 1].messageId == "" || c.messages[n - 1].messageId in q.seen
    ensures Foreseen(c, seen, n, from, id, q)
  {
    CostGrows(c, seen, n);
    var m := c.messages[n - 1];
    assert GetsTo(c, seen, n, id) <==> GetsTo(c, seen, n - 1, id) || (m.messageId == id && GetsThrough(c, seen, n - 1));
    QuietGrows(c, seen, n);
    forall x ensures Lists(c, n, x) <==> Lists(c, n - 1, x) || x == c.messages[n - 1].messageId {
    }
  }

  lemma {:induction false} CostGrows(c: Call, seen: set<string>, n: nat)
    requires 0 < n <= |c.messages|
    ensures Cost(c, seen, n - 1) <= Cost(c, seen, n)
  {
  }

  lemma {:induction false} QuietGrows(c: Call, seen: set<string>, n: nat)
    requires ValidCall(c) && 0 < n <= |c.messages|
    ensures Quiet(c, seen, n) <==> Quiet(c, seen, n - 1) && !FreshThrow(c, seen, n - 1)
  {
  }

  lemma {:induction false} FreshIsUnseen(c: Call, seen: set<string>, n: nat, q: Progress)
    requires ValidCall(c) && 0 < n <= |c.messages|
    requires forall x :: x in q.seen <==> x in seen || (x != "" && Lists(c, n - 1, x))
    ensures IsFresh(c, seen, n - 1) <==> c.messages[n - 1].messageId != "" && c.messages[n - 1].messageId !in q.seen
  {
    var id := c.messages[n - 1].messageId;
    assert Lists(c, n - 1, id) <==> !(forall j :: 0 <= j < n - 1 ==> c.messages[j].messageId != id);
  }

  /** A fresh message that a going call comes to. */
  lemma {:induction false} ComesTo(c: Call, seen: set<string>, n: nat, from: nat, id: string, q: Progress)
    requires ValidCall(c) && 0 < n <= |c.messages| && Foreseen(c, seen, n - 1, from, id, q) && q.end == Going
    requires IsFresh(c, seen, n - 1) && c.messages[n - 1].messageId !in q.seen
    ensures Foreseen(c, seen, n, from, id, Deliver(q, c.messages[n - 1], c.fates[n - 1], c.noAck))
  {
    var m := c.messages[n - 1];
    var q' := Deliver(q, m, c.fates[n - 1], c.noAck);
    QuietGrows(c, seen, n);
    assert GetsTo(c, seen, n, id) <==> GetsTo(c, seen, n - 1, id) || (m.messageId == id && GetsThrough(c, seen, n - 1));
    DeliversFresh(q, m, c.fates[n - 1], c.noAck, from, id);
    forall x ensures Lists(c, n, x) <==> Lists(c, n - 1, x) || x == m.messageId {
    }
  }

  /** One fresh message of a going call. */
  lemma {:induction false} DeliversFresh(p: Progress, m: Message, fate: Fate, noAck: bool, from: nat, id: string)
    requires p.end == Going && m.messageId != "" && m.messageId !in p.seen && from <= |p.log|
    ensures
      var q, cost := Deliver(p, m, fate, noAck), if !noAck && m.unread then 3 else 2;
      && from <= |q.log|
      && (q.end == Going <==> !fate.emitThrows && cost <= p.budget)
      && (q.end == Going ==> q.budget == p.budget - cost && q.seen == p.seen + {m.messageId})
      && (Delivered(q.log, from, id) <==>
          Delivered(p.log, from, id) || (id == m.messageId && !fate.emitThrows && 2 <= p.budget))
  {
    var q := Deliver(p, m, fate, noAck);
    var n := |p.log|;
    assert p.log <= q.log;
    assert 2 <= p.budget && !fate.emitThrows ==> n < |q.log| && q.log[n] == Emitted(m.messageId);
    assert forall k :: n <= k < |q.log| && q.log[k].Emitted? ==> k == n && 2 <= p.budget && !fate.emitThrows;
    assert forall k :: 0 <= k < n ==> q.log[k] == p.log[k];
  }

  lemma {:induction false} AfterIsForeseen(log: seq<Event>, seen: set<string>, c: Call, n: nat, id: string)
    requires ValidCall(c) && n <= |c.messages|
    ensures Foreseen(c, seen, n, |log|, id, After(Start(log, seen, c), c, n))
  {
    if n > 0 {
      var q := After(Start(log, seen, c), c, n - 1);
      AfterIsForeseen(log, seen, c, n - 1, id);
      if q.end == Going {
        FreshIsUnseen(c, seen, n, q);
      }
      if q.end == Going && IsFresh(c, seen, n - 1) {
        ComesTo(c, seen, n, |log|, id, q);
      } else {
        PassesBy(c, seen, n, |log|, id, q);
      }
    }
  }

  /** Any call, whether it comes to its end, is left by a throwing output or is
      killed: an id is delivered exactly when a listed message has it that the
      process has not seen, no output throws for a fresh message up to that one,
      and the process lives until it has emitted it. */
  lemma {:induction false} CallDeliversExactly(log: seq<Event>, seen: set<string>, c: Call, id: string)
    requires ValidCall(c)
    ensures Delivered(After(Start(log, seen, c), c, |c.messages|).log, |log|, id) <==>
            exists i :: 0 <= i < |c.messages| && c.messages[i].messageId == id && IsFresh(c, seen, i) &&
              (forall j :: 0 <= j <= i ==> !FreshThrow(c, seen, j)) && Cost(c, seen, i) + 2 <= c.budget
  {
    AfterIsForeseen(log, seen, c, |c.messages|, id);
    forall i | 0 <= i < |c.messages| ensures GetsThrough(c, seen, i) <==>
      IsFresh(c, seen, i) && (forall j :: 0 <= j <= i ==> !FreshThrow(c, seen, j)) && Cost(c, seen, i) + 2 <= c.budget
    {
    }
  }

  // ---------------------------------------------------------------------
  // What throwing output costs

  lemma {:induction false} SeenIsSilent(p: Progress, c: Call, n: nat, from: nat, id: string)
    requires ValidCall(c) && n <= |c.messages| && id in p.seen && from <= |p.log|
    ensures Delivered(After(p, c, n).log, from, id) <==> Delivered(p.log, from, id)
  {
    if n > 0 {
      var before := After(p, c, n - 1);
      SeenIsSilent(p, c, n - 1, from, id);
      LogGrows(p, c, n - 1);
      DeliverIsSilent(before, c.messages[n - 1], c.fates[n - 1], c.noAck, from, id);
    }
  }

  lemma {:induction false} DeliverIsSilent(p: Progress, m: Message, fate: Fate, noAck: bool, from: nat, id: string)
    requires id in p.seen && from <= |p.log|
    ensures Delivered(Deliver(p, m, fate, noAck).log, from, id) <==> Delivered(p.log, from, id)
  {
    var q := Deliver(p, m, fate, noAck);
    assert p.log <= q.log;
    if k :| from <= k < |p.log| && p.log[k] == Emitted(id) {
      assert q.log[k] == Emitted(id);
    }
    if k :| from <= k < |q.log| && q.log[k] == Emitted(id) {
      assert k < |p.log| ==> p.log[k] == q.log[k];
    }
  }

  /** The log after more calls of the same process. */
  function Calls(log: seq<Event>, seen: set<string>, calls: seq<Call>, n: nat): (seq<Event>, set<string>)
    requires n <= |calls| && forall k :: 0 <= k < |calls| ==> ValidCall(calls[k])
  {
    if n == 0 then (log, seen)
    else
      var before := Calls(log, seen, calls, n - 1);
      var p := After(Start(before.0, before.1, calls[n - 1]), calls[n - 1], |calls[n - 1].messages|);
      (p.log, p.seen)
  }

  /** A call that a throwing output left: the message at which it stopped, and how
      it stood before. */
  lemma {:induction false} StopsAt(p: Progress, c: Call, n: nat) returns (i: nat)
    requires ValidCall(c) && n <= |c.messages| && p.end == Going && After(p, c, n).end == Thrown
    ensures i < n && After(p, c, i).end == Going && After(p, c, i).budget >= 2 && c.fates[i].emitThrows
    ensures c.messages[i].messageId != "" && c.messages[i].messageId !in After(p, c, i).seen
    ensures After(p, c, n).log == After(p, c, i).log
    ensures After(p, c, n).seen == After(p, c, i).seen + {c.messages[i].messageId}
  {
    var before := After(p, c, n - 1);
    if before.end == Going {
      i := n - 1;
    } else {
      i := StopsAt(p, c, n - 1);
    }
  }

  /** A call is left by a throwing output exactly when the first fresh message whose
      output throws is reached before the process is killed. */
  lemma {:induction false} ThrownExactly(log: seq<Event>, seen: set<string>, c: Call)
    requires ValidCall(c)
    ensures After(Start(log, seen, c), c, |c.messages|).end == Thrown <==>
            exists i :: 0 <= i < |c.messages| && FreshThrow(c, seen, i) && Quiet(c, seen, i) &&
              Cost(c, seen, i) + 2 <= c.budget
  {
    var start := Start(log, seen, c);
    if After(start, c, |c.messages|).end == Thrown {
      var i := StopsAt(start, c, |c.messages|);
      AfterIsForeseen(log, seen, c, i, "");
      FreshIsUnseen(c, seen, i + 1, After(start, c, i));
    }
    if i :| 0 <= i < |c.messages| && FreshThrow(c, seen, i) && Quiet(c, seen, i) && Cost(c, seen, i) + 2 <= c.budget {
      AfterIsForeseen(log, seen, c, i, "");
      FreshIsUnseen(c, seen, i + 1, After(start, c, i));
      StaysEnded(start, c, i + 1, |c.messages|);
    }
  }

  lemma {:induction false} NeverDelivered(log: seq<Event>, seen: set<string>, calls: seq<Call>, n: nat, from: nat,
                                          id: string)
    requires n <= |calls| && forall k :: 0 <= k < |calls| ==> ValidCall(calls[k])
    requires from <= |log| && id in seen && !Delivered(log, from, id)
    ensures var later := Calls(log, seen, calls, n);
            log <= later.0 && id in later.1 && !Delivered(later.0, from, id)
  {
    if n > 0 {
      NeverDelivered(log, seen, calls, n - 1, from, id);
      var before, c := Calls(log, seen, calls, n - 1), calls[n - 1];
      SeenIsSilent(Start(before.0, before.1, c), c, |c.messages|, from, id);
      LogGrows(Start(before.0, before.1, c), c, |c.messages|);
    }
  }

  /** Whatever call a throwing output leaves: the message at which it stopped is fresh,
      every message before it was dealt with, it is marked seen but was not delivered,
      and whatever this process is called with later, it never delivers it. */
  lemma {:induction false} ThrownIsNotRetried(log: seq<Event>, seen: set<string>, c: Call, calls: seq<Call>, n: nat)
    returns (i: nat)
    requires ValidCall(c) && After(Start(log, seen, c), c, |c.messages|).end == Thrown
    requires n <= |calls| && forall k :: 0 <= k < |calls| ==> ValidCall(calls[k])
    ensures i < |c.messages| && FreshThrow(c, seen, i) && Quiet(c, seen, i)
    ensures var p, id := After(Start(log, seen, c), c, |c.messages|), c.messages[i].messageId;
            var later := Calls(p.log, p.seen, calls, n);
            p.log <= later.0 && id in later.1 && !Delivered(later.0, |log|, id)
  {
    var start := Start(log, seen, c);
    var p := After(start, c, |c.messages|);
    i := StopsAt(start, c, |c.messages|);
    var id := c.messages[i].messageId;
    AfterIsForeseen(log, seen, c, i, id);
    FreshIsUnseen(c, seen, i + 1, After(start, c, i));
    assert IsFresh(c, seen, i);
    AfterIsForeseen(log, seen, c, |c.messages|, id);
    forall k | i <= k < |c.messages| ensures !GetsThrough(c, seen, k) {
      assert FreshThrow(c, seen, i);
    }
    assert forall k :: 0 <= k < i ==> c.messages[k].messageId != id;
    LogGrows(start, c, |c.messages|);
    NeverDelivered(p.log, p.seen, calls, n, |log|, id);
  }
}
