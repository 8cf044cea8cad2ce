/**
 * Progress of a finite workload on one budget. A task makes its acquisitions one
 * after another and holds at most one permit, as a pooled query or an
 * interactive transaction does; no task waits while it holds.
 */
module BudgetProgress {
  import opened Sequences
  import B = AcquisitionBudget

  /** `left` counts the acquisitions a task has still to start. */
  datatype Task = Ready(left: nat) | Waiting(left: nat, t: B.Ticket) | Holding(left: nat, t: B.Ticket)

  /** `who` remembers which task made each call. */
  datatype State = State(budget: B.State, tasks: seq<Task>, who: map<B.Ticket, nat>)

  datatype Event = Request(k: nat, t: B.Ticket) | Done(k: nat) | GaveUp(k: nat)

  /** A task asks with a new call; a holder releases; a waiter's timer runs. */
  predicate Enabled(s: State, e: Event) {
    e.k < |s.tasks| &&
    match e
    case Request(k, t) => s.tasks[k].Ready? && s.tasks[k].left > 0 && t !in s.budget.arrivals
    case Done(k) => s.tasks[k].Holding?
    case GaveUp(k) => s.tasks[k].Waiting? && s.tasks[k].t in s.budget.timers
  }

  /** A waiter whose ticket was granted holds from then on. */
  function Wake(tasks: seq<Task>, grants: seq<B.Ticket>): (r: seq<Task>)
    ensures |r| == |tasks|
  {
    seq(|tasks|, i requires 0 <= i < |tasks| =>
      if tasks[i].Waiting? && tasks[i].t in grants then Holding(tasks[i].left, tasks[i].t) else tasks[i])
  }

  function Step(s: State, e: Event): State
    requires Enabled(s, e)
  {
    match e
    case Request(k, t) =>
      var budget := B.Acquire(s.budget, t);
      State(budget, Wake(s.tasks[k := Waiting(s.tasks[k].left - 1, t)], budget.grants), s.who[t := k])
    case Done(k) =>
      var budget := B.Release(s.budget, s.tasks[k].t);
      State(budget, Wake(s.tasks[k := Ready(s.tasks[k].left)], budget.grants), s.who)
    case GaveUp(k) =>
      State(B.Fire(s.budget, s.tasks[k].t), s.tasks[k := Ready(s.tasks[k].left)], s.who)
  }

  predicate Legal(s: State, events: seq<Event>)
    decreases events
  {
    events == [] || (Enabled(s, events[0]) && Legal(Step(s, events[0]), events[1..]))
  }

  function Run(s: State, events: seq<Event>): State
    requires Legal(s, events)
    decreases events
  {
    if events == [] then s else Run(Step(s, events[0]), events[1..])
  }

  predicate Final(s: State) {
    forall k :: 0 <= k < |s.tasks| ==> s.tasks[k] == Ready(0)
  }

  function Start(limit: B.LimitArgument, loads: seq<nat>): State {
    State(B.Created(B.ClampBudgetLimit(limit)), seq(|loads|, i requires 0 <= i < |loads| => Ready(loads[i])), map[])
  }

  // ----- The termination measure -----

  function Weight(task: Task): nat {
    match task
    case Ready(n) => 3 * n
    case Holding(n, _) => 3 * n + 1
    case Waiting(n, _) => 3 * n + 2
  }

  function Total(tasks: seq<Task>): nat {
    if tasks == [] then 0 else Weight(tasks[0]) + Total(tasks[1..])
  }

  lemma {:induction false} TotalUpdate(tasks: seq<Task>, k: nat, task: Task)
    requires k < |tasks|
    ensures Total(tasks[k := task]) == Total(tasks) - Weight(tasks[k]) + Weight(task)
  {
    if k > 0 {
      assert tasks[k := task][1..] == tasks[1..][k - 1 := task];
      TotalUpdate(tasks[1..], k - 1, task);
    } else {
      assert tasks[k := task][1..] == tasks[1..];
    }
  }

  lemma {:induction false} TotalWake(tasks: seq<Task>, grants: seq<B.Ticket>)
    ensures Total(Wake(tasks, grants)) <= Total(tasks)
  {
    if tasks != [] {
      assert Wake(tasks, grants)[1..] == Wake(tasks[1..], grants);
      TotalWake(tasks[1..], grants);
    }
  }

  /** Every step, whichever it is, lowers the measure. */
  lemma StepDecreases(s: State, e: Event)
    requires Enabled(s, e)
    ensures Total(Step(s, e).tasks) < Total(s.tasks)
  {
    match e
    case Request(k, t) =>
      TotalUpdate(s.tasks, k, Waiting(s.tasks[k].left - 1, t));
      TotalWake(s.tasks[k := Waiting(s.tasks[k].left - 1, t)], B.Acquire(s.budget, t).grants);
    case Done(k) =>
      TotalUpdate(s.tasks, k, Ready(s.tasks[k].left));
      TotalWake(s.tasks[k := Ready(s.tasks[k].left)], B.Release(s.budget, s.tasks[k].t).grants);
    case GaveUp(k) =>
      TotalUpdate(s.tasks, k, Ready(s.tasks[k].left));
  }

  // ----- Tasks and tickets agree -----

  function Queued(b: B.State): set<B.Ticket> {
    set t | t in b.waiters
  }

  /** Held permits are those of the holding tasks, queued tickets those of the waiting ones. */
  ghost predicate Owned(tasks: seq<Task>, who: map<B.Ticket, nat>, held: set<B.Ticket>, queued: set<B.Ticket>) {
    && (forall k :: 0 <= k < |tasks| && tasks[k].Holding? ==>
      tasks[k].t in held && tasks[k].t in who && who[tasks[k].t] == k)
    && (forall k :: 0 <= k < |tasks| && tasks[k].Waiting? ==>
      tasks[k].t in queued && tasks[k].t in who && who[tasks[k].t] == k)
    && (forall t :: t in held ==> t in who && who[t] < |tasks| && tasks[who[t]].Holding? && tasks[who[t]].t == t)
    && (forall t :: t in queued ==> t in who && who[t] < |tasks| && tasks[who[t]].Waiting? && tasks[who[t]].t == t)
  }

  ghost predicate Inv(s: State) {
    B.Inv(s.budget) && Owned(s.tasks, s.who, B.Held(s.budget), Queued(s.budget))
  }

  /** What a call, a release and a timer do to the held and queued tickets. */
  lemma AcquireSets(b: B.State, t: B.Ticket)
    requires B.Inv(b) && t !in b.arrivals
    ensures B.Held(B.Acquire(b, t)) == if B.HasFreePermit(b) then B.Held(b) + {t} else B.Held(b)
    ensures Queued(B.Acquire(b, t)) == if B.HasFreePermit(b) then Queued(b) else Queued(b) + {t}
    ensures t !in B.Held(b) && t !in Queued(b)
  {
    B.Fates(b);
    AppendSets(b, B.Acquire(b, t), t);
  }

  lemma AppendSets(b: B.State, b': B.State, t: B.Ticket)
    requires b'.returned == b.returned && t !in b.grants && t !in b.returned && t !in b.waiters
    ensures b'.grants == b.grants + [t] ==> B.Held(b') == B.Held(b) + {t}
    ensures b'.grants == b.grants ==> B.Held(b') == B.Held(b)
    ensures b'.waiters == b.waiters + [t] ==> Queued(b') == Queued(b) + {t}
    ensures t !in B.Held(b) && t !in Queued(b)
  {
  }

  lemma ReleaseSets(b: B.State, t: B.Ticket)
    requires B.Inv(b) && t in B.Held(b)
    ensures b.waiters == [] ==> B.Held(B.Release(b, t)) == B.Held(b) - {t} && Queued(B.Release(b, t)) == {}
    ensures b.waiters != [] ==>
      && B.Held(B.Release(b, t)) == B.Held(b) - {t} + {b.waiters[0]}
      && Queued(B.Release(b, t)) == Queued(b) - {b.waiters[0]}
      && b.waiters[0] in Queued(b)
  {
    B.Fates(b);
    if b.waiters != [] {
      assert b.waiters[0] in b.waiters;
      ReleaseToWaiter(b, t);
    }
  }

  lemma ReleaseToWaiter(b: B.State, t: B.Ticket)
    requires t in B.Held(b) && b.waiters != [] && Distinct(b.waiters)
    requires b.waiters[0] !in b.grants && b.waiters[0] !in b.returned
    ensures B.Held(B.Release(b, t)) == B.Held(b) - {t} + {b.waiters[0]}
    ensures Queued(B.Release(b, t)) == Queued(b) - {b.waiters[0]}
  {
    var next, rest := b.waiters[0], b.waiters[1..];
    assert b.waiters == [next] + rest;
    assert B.Release(b, t).grants == b.grants + [next] && B.Release(b, t).returned == b.returned + [t];
  }

  lemma FireSets(b: B.State, t: B.Ticket)
    requires B.Inv(b) && t in b.timers
    ensures B.Held(B.Fire(b, t)) == B.Held(b)
    ensures Queued(B.Fire(b, t)) == Queued(b) - {t}
  {
    forall x ensures x in B.Fire(b, t).waiters <==> x in b.waiters && x != t {
      WithoutMembers(b.waiters, [t], x);
    }
  }

  lemma RequestKeepsInv(s: State, k: nat, t: B.Ticket)
    requires Inv(s) && Enabled(s, Request(k, t))
    ensures Inv(Step(s, Request(k, t)))
  {
    B.AcquireKeepsInv(s.budget, t);
    AcquireSets(s.budget, t);
    B.Fates(s.budget);
    RequestOwned(s, Step(s, Request(k, t)), k, t, B.Acquire(s.budget, t).grants,
                 B.HasFreePermit(s.budget), B.Held(s.budget), Queued(s.budget));
  }

  lemma RequestOwned(s: State, s': State, k: nat, t: B.Ticket, grants: seq<B.Ticket>,
      free: bool, held: set<B.Ticket>, queued: set<B.Ticket>)
    requires Owned(s.tasks, s.who, held, queued) && k < |s.tasks| && s.tasks[k].Ready? && s.tasks[k].left > 0
    requires t !in held && t !in queued
    requires forall x :: x in queued ==> x !in grants
    requires t in grants <==> free
    requires s'.tasks == Wake(s.tasks[k := Waiting(s.tasks[k].left - 1, t)], grants) && s'.who == s.who[t := k]
    ensures Owned(s'.tasks, s'.who, if free then held + {t} else held, if free then queued else queued + {t})
  {
    assert forall j :: 0 <= j < |s.tasks| && j != k ==> s'.tasks[j] == s.tasks[j];
  }

  lemma DoneKeepsInv(s: State, k: nat)
    requires Inv(s) && Enabled(s, Done(k))
    ensures Inv(Step(s, Done(k)))
  {
    var t := s.tasks[k].t;
    B.StepKeepsInv(s.budget, B.ReleaserCalled(t));
    ReleaseSets(s.budget, t);
    B.Fates(s.budget);
    DoneOwned(s, Step(s, Done(k)), k, B.Release(s.budget, t).grants, B.Held(s.budget), Queued(s.budget),
              if s.budget.waiters == [] then {} else {s.budget.waiters[0]});
  }

  lemma DoneOwned(s: State, s': State, k: nat, grants: seq<B.Ticket>, held: set<B.Ticket>,
      queued: set<B.Ticket>, next: set<B.Ticket>)
    requires Owned(s.tasks, s.who, held, queued) && k < |s.tasks| && s.tasks[k].Holding?
    requires next <= queued
    requires forall x :: x in queued ==> (x in grants <==> x in next) && x !in held
    requires s'.tasks == Wake(s.tasks[k := Ready(s.tasks[k].left)], grants) && s'.who == s.who
    ensures Owned(s'.tasks, s'.who, held - {s.tasks[k].t} + next, queued - next)
  {
    assert forall j :: 0 <= j < |s.tasks| && j != k ==>
      s'.tasks[j] ==
      if s.tasks[j].Waiting? && s.tasks[j].t in next then Holding(s.tasks[j].left, s.tasks[j].t) else s.tasks[j];
  }

  lemma GaveUpKeepsInv(s: State, k: nat)
    requires Inv(s) && Enabled(s, GaveUp(k))
    ensures Inv(Step(s, GaveUp(k)))
  {
    B.FireKeepsInv(s.budget, s.tasks[k].t);
    FireSets(s.budget, s.tasks[k].t);
  }

  lemma {:induction false} RunKeepsInv(s: State, events: seq<Event>)
    requires Inv(s) && Legal(s, events)
    ensures Inv(Run(s, events))
    ensures Total(Run(s, events).tasks) + |events| <= Total(s.tasks)
    decreases events
  {
    if events != [] {
      match events[0] {
        case Request(k, t) => RequestKeepsInv(s, k, t);
        case Done(k) => DoneKeepsInv(s, k);
        case GaveUp(k) => GaveUpKeepsInv(s, k);
      }
      StepDecreases(s, events[0]);
      RunKeepsInv(Step(s, events[0]), events[1..]);
    }
  }

  // ----- Results -----

  /**
   * Deadlock freedom, without help from any timer: unless every task is settled,
   * some task can start an acquisition or a holder can release.
   */
  lemma SomeoneCanMove(limit: B.LimitArgument, loads: seq<nat>, events: seq<Event>) returns (e: Event)
    requires Legal(Start(limit, loads), events) && !Final(Run(Start(limit, loads), events))
    ensures Enabled(Run(Start(limit, loads), events), e) && !e.GaveUp?
  {
    var s := Run(Start(limit, loads), events);
    StartInv(limit, loads);
    RunKeepsInv(Start(limit, loads), events);
    var k :| 0 <= k < |s.tasks| && s.tasks[k] != Ready(0);
    if s.tasks[k].Ready? {
      var t := NewTicket(s.budget.arrivals);
      e := Request(k, t);
    } else if s.tasks[k].Holding? {
      e := Done(k);
    } else {
      var t := SomeHeld(s.budget, s.tasks[k].t);
      e := Done(s.who[t]);
    }
  }

  /** And no waiter is without its timeout: in every reachable state it may give up. */
  lemma WaiterMayGiveUp(limit: B.LimitArgument, loads: seq<nat>, events: seq<Event>, k: nat)
    requires Legal(Start(limit, loads), events) && k < |Run(Start(limit, loads), events).tasks|
    requires Run(Start(limit, loads), events).tasks[k].Waiting?
    ensures var s := Run(Start(limit, loads), events);
      Enabled(s, GaveUp(k)) && Step(s, GaveUp(k)).tasks == s.tasks[k := Ready(s.tasks[k].left)]
  {
    StartInv(limit, loads);
    RunKeepsInv(Start(limit, loads), events);
  }

  lemma SomeHeld(b: B.State, waiting: B.Ticket) returns (t: B.Ticket)
    requires B.Inv(b) && waiting in b.waiters
    ensures t in B.Held(b)
  {
    assert |B.Held(b)| >= 1;
    t :| t in B.Held(b);
  }

  lemma {:induction false} NewTicket(used: seq<B.Ticket>) returns (t: B.Ticket)
    ensures forall u :: u in used ==> u < t
  {
    t := 0;
    if used != [] {
      var rest := NewTicket(used[1..]);
      t := if used[0] < rest then rest else used[0] + 1;
      assert forall u :: u in used ==> u == used[0] || u in used[1..];
    }
  }

  function Sum(loads: seq<nat>): nat {
    if loads == [] then 0 else loads[0] + Sum(loads[1..])
  }

  lemma {:induction false} WorkloadWeight(limit: B.LimitArgument, loads: seq<nat>)
    ensures Total(Start(limit, loads).tasks) == 3 * Sum(loads)
  {
    if loads != [] {
      assert Start(limit, loads).tasks[1..] == Start(limit, loads[1..]).tasks;
      WorkloadWeight(limit, loads[1..]);
    }
  }

  lemma StartInv(limit: B.LimitArgument, loads: seq<nat>)
    ensures Inv(Start(limit, loads))
  {
    B.CreatedInv(limit);
  }

  lemma RunIsBounded(limit: B.LimitArgument, loads: seq<nat>, events: seq<Event>)
    requires Legal(Start(limit, loads), events)
    ensures |events| <= 3 * Sum(loads) && Inv(Run(Start(limit, loads), events))
  {
    WorkloadWeight(limit, loads);
    StartInv(limit, loads);
    RunKeepsInv(Start(limit, loads), events);
  }

  lemma QueuedExists(b: B.State)
    ensures b.waiters != [] ==> Queued(b) != {}
  {
    if b.waiters != [] {
      assert b.waiters[0] in Queued(b);
    }
  }

  /** With every task settled no permit is held and no call is queued. */
  lemma SettledIsEmpty(s: State)
    requires Inv(s) && Final(s)
    ensures s.budget.inUse == 0 && s.budget.waiters == []
  {
    QueuedExists(s.budget);
    assert B.Held(s.budget) == {} && Queued(s.budget) == {};
  }

  /**
   * A run takes at most three steps an acquisition, and one that cannot go on has
   * settled every task and freed every permit.
   */
  lemma EveryWorkloadSettles(limit: B.LimitArgument, loads: seq<nat>, events: seq<Event>)
    requires Legal(Start(limit, loads), events)
    ensures |events| <= 3 * Sum(loads)
    ensures var s := Run(Start(limit, loads), events);
      (forall e :: !Enabled(s, e)) ==> Final(s) && s.budget.inUse == 0 && s.budget.waiters == []
  {
    RunIsBounded(limit, loads, events);
    var s := Run(Start(limit, loads), events);
    if forall e :: !Enabled(s, e) {
      if !Final(s) {
        var e := SomeoneCanMove(limit, loads, events);
      }
      SettledIsEmpty(s);
    }
  }

  // ----- The shape that starves -----

  function Calls(n: nat): seq<B.Event> {
    seq(n, i requires 0 <= i < n => B.Acquired(i))
  }

  /**
   * A caller that takes `n` permits at once and gives none back before all have
   * come is served exactly when `n` is within the limit; beyond it the rest wait.
   */
  lemma {:induction false} AllAtOnce(limit: B.LimitArgument, n: nat)
    ensures var b := B.Run(B.Created(B.ClampBudgetLimit(limit)), Calls(n));
      && B.Legal(B.Created(B.ClampBudgetLimit(limit)), Calls(n))
      && |b.arrivals| == n && (forall t :: t in b.arrivals ==> t < n) && b.returned == [] && b.expiries == []
      && (b.waiters == [] <==> n <= b.limit)
      && |b.grants| == (if n <= b.limit then n else b.limit) && |b.grants| + |b.waiters| == n
      && b.limit == B.ClampBudgetLimit(limit) && b.inUse == |b.grants|
  {
    if n > 0 {
      AllAtOnce(limit, n - 1);
      assert Calls(n) == Calls(n - 1) + [B.Acquired(n - 1)];
      RunAppend(B.Created(B.ClampBudgetLimit(limit)), Calls(n - 1), B.Acquired(n - 1));
    }
  }

  lemma {:induction false} RunAppend(b: B.State, events: seq<B.Event>, e: B.Event)
    requires B.Legal(b, events) && B.Enabled(B.Run(b, events), e)
    ensures B.Legal(b, events + [e]) && B.Run(b, events + [e]) == B.Step(B.Run(b, events), e)
    decreases events
  {
    if events == [] {
      assert [e][1..] == [];
      assert B.Legal(B.Step(b, e), []);
    } else {
      assert (events + [e])[1..] == events[1..] + [e];
      RunAppend(B.Step(b, events[0]), events[1..], e);
    }
  }
}
