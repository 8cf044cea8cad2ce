/**
 * The connection-permit semaphore: a bounded FIFO semaphore with timed waiters
 * and idempotent releases. One call of `acquirePermit` is a ticket; it stands
 * for that call's promise, its timer and the releaser it may be given.
 */
module AcquisitionBudget {
  import opened Sequences

  type Ticket = nat

  const DB_ACQUISITION_BUDGET_MAX: nat := 5

  /** A JavaScript number handed in as a limit. */
  datatype LimitArgument = NotFinite | Finite(value: real)

  function ClampBudgetLimit(limit: LimitArgument): (r: nat)
    ensures r >= 1
    ensures limit.Finite? && limit.value >= 1.0 ==> r as real <= limit.value < r as real + 1.0
  {
    match limit
    case NotFinite => DB_ACQUISITION_BUDGET_MAX
    case Finite(v) => if v.Floor < 1 then 1 else v.Floor
  }

  /**
   * The budget record, the armed timers, and the logs of what happened: calls in
   * arrival order, grants, rejections and permits given back. A releaser's
   * `released` flag is its ticket's membership in `returned`.
   */
  datatype State = State(
    limit: nat,
    inUse: int,
    waiters: seq<Ticket>,
    timers: set<Ticket>,
    arrivals: seq<Ticket>,
    grants: seq<Ticket>,
    expiries: seq<Ticket>,
    returned: seq<Ticket>)

  function Created(limit: nat): State {
    State(limit, 0, [], {}, [], [], [], [])
  }

  predicate HasFreePermit(s: State) {
    s.inUse < s.limit
  }

  function Grant(s: State, t: Ticket): State {
    s.(inUse := s.inUse + 1, grants := s.grants + [t])
  }

  function Acquire(s: State, t: Ticket): State {
    var s' := s.(arrivals := s.arrivals + [t]);
    if HasFreePermit(s) then Grant(s', t)
    else s'.(waiters := s.waiters + [t], timers := s.timers + {t})
  }

  /** The armed timer of `t` runs: the waiter, if still queued, is taken out and the call rejects. */
  function Fire(s: State, t: Ticket): State {
    s.(timers := s.timers - {t}, waiters := Without(s.waiters, [t]), expiries := s.expiries + [t])
  }

  /** The releaser of `t` is called. */
  function Release(s: State, t: Ticket): State {
    if t in s.returned then s
    else
      var s' := s.(returned := s.returned + [t], inUse := s.inUse - 1);
      if s.waiters == [] then s'
      else
        var next := s.waiters[0];
        Grant(s'.(waiters := s.waiters[1..], timers := s.timers - {next}), next)
  }

  datatype Event = Acquired(t: Ticket) | TimerFired(t: Ticket) | ReleaserCalled(t: Ticket)

  /** A call is new, only an armed timer runs, and a releaser exists once it was handed out. */
  predicate Enabled(s: State, e: Event) {
    match e
    case Acquired(t) => t !in s.arrivals
    case TimerFired(t) => t in s.timers
    case ReleaserCalled(t) => t in s.grants
  }

  function Step(s: State, e: Event): State {
    match e
    case Acquired(t) => Acquire(s, t)
    case TimerFired(t) => Fire(s, t)
    case ReleaserCalled(t) => Release(s, t)
  }

  predicate Legal(s: State, events: seq<Event>)
    decreases events
  {
    events == [] || (Enabled(s, events[0]) && Legal(Step(s, events[0]), events[1..]))
  }

  function Run(s: State, events: seq<Event>): State
    decreases events
  {
    if events == [] then s else Run(Step(s, events[0]), events[1..])
  }

  /** The tickets that hold a permit now. */
  function Held(s: State): set<Ticket> {
    (set t | t in s.grants) - (set t | t in s.returned)
  }

  /** The counter is the number of held permits, and no permit is idle while a call waits. */
  predicate Counted(s: State) {
    && 1 <= s.limit
    && 0 <= s.inUse <= s.limit
    && s.inUse == |Held(s)|
    && (s.waiters != [] ==> s.inUse == s.limit)
  }

  /**
   * Every call is granted, rejected or queued, exactly one of them and once; the
   * calls that were not rejected are granted in arrival order.
   */
  ghost predicate Ordered(s: State) {
    && Distinct(s.arrivals) && Distinct(s.expiries)
    && Without(s.arrivals, s.expiries) == s.grants + s.waiters
    && (forall t :: t in s.expiries ==> t in s.arrivals)
  }

  /** The armed timers are those of the queued waiters; a permit is given back once, and only if granted. */
  ghost predicate Tracked(s: State) {
    && Distinct(s.returned)
    && (forall t :: t in s.timers <==> t in s.waiters)
    && (forall t :: t in s.returned ==> t in s.grants)
  }

  ghost predicate Inv(s: State) {
    Counted(s) && Ordered(s) && Tracked(s)
  }

  /** Granted, queued and rejected are three separate fates. */
  lemma Fates(s: State)
    requires Ordered(s)
    ensures Distinct(s.grants) && Distinct(s.waiters)
    ensures forall t :: t in s.arrivals <==> t in s.grants || t in s.waiters || t in s.expiries
    ensures forall t :: !(t in s.grants && t in s.waiters)
    ensures forall t :: t in s.expiries ==> t !in s.grants && t !in s.waiters
  {
    WithoutDistinct(s.arrivals, s.expiries);
    DistinctConcat(s.grants, s.waiters);
    forall t
      ensures t in s.grants || t in s.waiters <==> t in s.arrivals && t !in s.expiries
    {
      WithoutMembers(s.arrivals, s.expiries, t);
    }
  }

  lemma HeldAfterGrant(s: State, s': State, t: Ticket)
    requires s'.grants == s.grants + [t] && s'.returned == s.returned
    requires t !in s.grants && t !in s.returned
    ensures Held(s') == Held(s) + {t} && |Held(s')| == |Held(s)| + 1
  {
    assert Held(s') == Held(s) + {t};
  }

  lemma HeldAfterReturn(s: State, s': State, t: Ticket)
    requires s'.grants == s.grants && s'.returned == s.returned + [t]
    requires t in s.grants && t !in s.returned
    ensures Held(s') == Held(s) - {t} && |Held(s')| == |Held(s)| - 1
  {
    assert Held(s') == Held(s) - {t};
  }

  lemma AcquireKeepsInv(s: State, t: Ticket)
    requires Inv(s) && t !in s.arrivals
    ensures Inv(Acquire(s, t))
  {
    AcquireKeepsCounted(s, t);
    AcquireKeepsOrdered(s, t);
  }

  lemma AcquireKeepsCounted(s: State, t: Ticket)
    requires Inv(s) && t !in s.arrivals
    ensures Counted(Acquire(s, t)) && Tracked(Acquire(s, t))
  {
    var s' := Acquire(s, t);
    Fates(s);
    if HasFreePermit(s) {
      HeldAfterGrant(s, s', t);
    } else {
      assert Held(s') == Held(s);
    }
  }

  lemma AcquireKeepsOrdered(s: State, t: Ticket)
    requires Ordered(s) && t !in s.arrivals && (HasFreePermit(s) ==> s.waiters == [])
    ensures Ordered(Acquire(s, t))
  {
    var s' := Acquire(s, t);
    DistinctAppend(s.arrivals, t);
    WithoutAppend(s.arrivals, t, s.expiries);
    assert s'.grants + s'.waiters == s.grants + s.waiters + [t];
  }

  /** A timer that runs finds its own waiter in the queue and takes out that one only. */
  lemma FireKeepsInv(s: State, t: Ticket)
    requires Inv(s) && t in s.timers
    ensures Inv(Fire(s, t))
    ensures exists i ::
      0 <= i < |s.waiters| && s.waiters[i] == t &&
      Fire(s, t).waiters == s.waiters[..i] + s.waiters[i + 1..]
  {
    var s' := Fire(s, t);
    Fates(s);
    var i :| 0 <= i < |s.waiters| && s.waiters[i] == t;
    SpliceIsWithout(s.waiters, i);
    DistinctAppend(s.expiries, t);
    WithoutOneMore(s.arrivals, s.expiries, t);
    WithoutConcat(s.grants, s.waiters, [t]);
    WithoutNothing(s.grants, [t]);
    forall x ensures x in s'.waiters <==> x in s.waiters && x != t {
      WithoutMembers(s.waiters, [t], x);
    }
  }

  lemma WaiterIsQueued(s: State, t: Ticket)
    requires Tracked(s) && t in s.timers
    ensures exists i :: 0 <= i < |s.waiters| && s.waiters[i] == t
  {
  }

  lemma FireSplices(s: State, t: Ticket, i: nat)
    requires Ordered(s) && i < |s.waiters| && s.waiters[i] == t
    ensures Fire(s, t).waiters == s.waiters[..i] + s.waiters[i + 1..]
  {
    Fates(s);
    SpliceIsWithout(s.waiters, i);
  }

  lemma ReleaseKeepsCounted(s: State, t: Ticket)
    requires Inv(s) && t in s.grants
    ensures Counted(Release(s, t))
  {
    if t !in s.returned {
      var s1 := s.(returned := s.returned + [t], inUse := s.inUse - 1);
      HeldAfterReturn(s, s1, t);
      if s.waiters != [] {
        Fates(s);
        var s2 := s1.(waiters := s.waiters[1..], timers := s.timers - {s.waiters[0]});
        assert Held(s2) == Held(s1);
        assert s.waiters[0] in s.waiters;
        HeldAfterGrant(s2, Release(s, t), s.waiters[0]);
      }
    }
  }

  lemma ReleaseKeepsOrdered(s: State, t: Ticket)
    requires Ordered(s)
    ensures Ordered(Release(s, t))
  {
    var s' := Release(s, t);
    if t !in s.returned && s.waiters != [] {
      assert s.waiters == [s.waiters[0]] + s'.waiters;
      assert s'.grants + s'.waiters == s.grants + s.waiters;
    }
  }

  lemma ReleaseKeepsTracked(s: State, t: Ticket)
    requires Tracked(s) && Distinct(s.waiters) && t in s.grants
    ensures Tracked(Release(s, t))
  {
    DistinctAppend(s.returned, t);
    assert s.waiters != [] ==> s.waiters == [s.waiters[0]] + s.waiters[1..];
  }

  lemma ReleaseKeepsInv(s: State, t: Ticket)
    requires Inv(s) && t in s.grants
    ensures Inv(Release(s, t))
  {
    Fates(s);
    ReleaseKeepsCounted(s, t);
    ReleaseKeepsOrdered(s, t);
    ReleaseKeepsTracked(s, t);
  }

  /** The permit passes to the first waiter: the counter goes down and up again. */
  lemma ReleaseToFirstWaiter(s: State, t: Ticket)
    requires t !in s.returned && s.waiters != []
    ensures Release(s, t) == State(s.limit, s.inUse, s.waiters[1..], s.timers - {s.waiters[0]}, s.arrivals,
                                   s.grants + [s.waiters[0]], s.expiries, s.returned + [t])
  {
  }

  lemma StepKeepsInv(s: State, e: Event)
    requires Inv(s) && Enabled(s, e)
    ensures Inv(Step(s, e))
  {
    match e
    case Acquired(t) => AcquireKeepsInv(s, t);
    case TimerFired(t) => FireKeepsInv(s, t);
    case ReleaserCalled(t) => ReleaseKeepsInv(s, t);
  }

  /** Grants are never withdrawn, and only its own releaser gives a permit back. */
  lemma StepEffects(s: State, e: Event, t: Ticket)
    ensures t in s.grants ==> t in Step(s, e).grants
    ensures t in Step(s, e).returned <==> t in s.returned || e == ReleaserCalled(t)
  {
  }

  lemma {:induction false} RunKeepsInv(s: State, events: seq<Event>)
    requires Inv(s) && Legal(s, events)
    ensures Inv(Run(s, events))
    decreases events
  {
    if events != [] {
      StepKeepsInv(s, events[0]);
      RunKeepsInv(Step(s, events[0]), events[1..]);
    }
  }

  // ----- Results over whole runs -----

  lemma CreatedInv(limit: LimitArgument)
    ensures Inv(Created(ClampBudgetLimit(limit)))
  {
  }

  /** Every state a new budget can reach, with any interleaving of calls, timers and repeated releases. */
  lemma EveryRun(limit: LimitArgument, events: seq<Event>)
    requires Legal(Created(ClampBudgetLimit(limit)), events)
    ensures Inv(Run(Created(ClampBudgetLimit(limit)), events))
    ensures var s := Run(Created(ClampBudgetLimit(limit)), events);
      && (forall t :: t in s.arrivals <==> t in s.grants || t in s.waiters || t in s.expiries)
      && Distinct(s.grants) && Distinct(s.waiters) && Distinct(s.expiries)
      && (forall t :: t in s.grants ==> t !in s.waiters && t !in s.expiries)
      && (forall t :: t in s.waiters ==> t !in s.expiries)
  {
    RunKeepsInv(Created(ClampBudgetLimit(limit)), events);
    Fates(Run(Created(ClampBudgetLimit(limit)), events));
  }

  /** A later caller is never granted ahead of an earlier one that was not rejected. */
  lemma GrantedInArrivalOrder(limit: LimitArgument, events: seq<Event>, i: nat, j: nat)
    requires Legal(Created(ClampBudgetLimit(limit)), events)
    requires var s := Run(Created(ClampBudgetLimit(limit)), events);
      i < j < |s.arrivals| && s.arrivals[j] in s.grants && s.arrivals[i] !in s.expiries
    ensures var s := Run(Created(ClampBudgetLimit(limit)), events);
      exists a, b :: 0 <= a < b < |s.grants| && s.grants[a] == s.arrivals[i] && s.grants[b] == s.arrivals[j]
  {
    EveryRun(limit, events);
    var s := Run(Created(ClampBudgetLimit(limit)), events);
    var a, b := WithoutOrder(s.arrivals, s.expiries, i, j);
    var live := s.grants + s.waiters;
    InFirstPart(s.grants, s.waiters, b);
    assert s.grants[a] == live[a] && s.grants[b] == live[b];
  }

  /** What has happened to a call is never undone: the logs only grow. */
  lemma {:induction false} SettledForGood(s: State, events: seq<Event>)
    requires Legal(s, events)
    ensures s.arrivals <= Run(s, events).arrivals && s.grants <= Run(s, events).grants
    ensures s.expiries <= Run(s, events).expiries && s.returned <= Run(s, events).returned
    ensures Run(s, events).limit == s.limit
    decreases events
  {
    if events != [] {
      SettledForGood(Step(s, events[0]), events[1..]);
    }
  }

  /** `willQueueForPermit`: asked with the pool's gate flag and the ambient budget, if any. */
  predicate WillQueueForPermit(gated: bool, inScope: bool, s: State) {
    gated && inScope && !HasFreePermit(s)
  }

  /** The prediction is exact, and a call granted at once overtakes nobody. */
  lemma WillQueueForPermitPredicts(s: State, t: Ticket)
    requires Inv(s) && t !in s.arrivals
    ensures WillQueueForPermit(true, true, s) <==> t !in Acquire(s, t).grants
    ensures WillQueueForPermit(true, true, s) <==> t in Acquire(s, t).timers
    ensures !WillQueueForPermit(true, true, s) ==> s.waiters == []
  {
    Fates(s);
  }

  ghost predicate SameMembers(flags: set<Ticket>, log: seq<Ticket>) {
    forall t :: t in flags <==> t in log
  }

  lemma OneMoreMember(flags: set<Ticket>, log: seq<Ticket>, t: Ticket)
    requires SameMembers(flags, log)
    ensures SameMembers(flags + {t}, log + [t])
  {
  }

  /** The budget object, updated in place as the source updates it. */
  class DbAcquisitionBudget {
    const limit: nat
    var inUse: int
    var waiters: seq<Ticket>
    var timers: set<Ticket>
    /** The tickets whose releaser has its `released` flag set. */
    var released: set<Ticket>
    ghost var arrivals: seq<Ticket>
    ghost var grants: seq<Ticket>
    ghost var expiries: seq<Ticket>
    ghost var returned: seq<Ticket>

    ghost function Contents(): State
      reads this
    {
      State(limit, inUse, waiters, timers, arrivals, grants, expiries, returned)
    }

    ghost predicate Valid()
      reads this
    {
      Inv(Contents()) && SameMembers(released, returned)
    }

    constructor (limit: LimitArgument)
      ensures Valid() && Contents() == Created(ClampBudgetLimit(limit))
    {
      this.limit := ClampBudgetLimit(limit);
      inUse, waiters, timers, released := 0, [], {}, {};
      arrivals, grants, expiries, returned := [], [], [], [];
    }

    method AcquirePermit(t: Ticket) returns (granted: bool)
      requires Valid() && t !in arrivals
      modifies this
      ensures Valid() && Contents() == Acquire(old(Contents()), t)
      ensures granted <==> !WillQueueForPermit(true, true, old(Contents()))
    {
      ghost var before := Contents();
      arrivals := arrivals + [t];
      if inUse < limit {
        inUse := inUse + 1;
        grants := grants + [t];
        granted := true;
      } else {
        timers := timers + {t};
        waiters := waiters + [t];
        granted := false;
      }
      assert Contents() == Acquire(before, t);
      AcquireKeepsInv(before, t);
    }

    method TimerFires(t: Ticket)
      requires Valid() && t in timers
      modifies this
      ensures Valid() && Contents() == Fire(old(Contents()), t)
    {
      ghost var before := Contents();
      WaiterIsQueued(before, t);
      timers := timers - {t};
      var index := 0;
      while index < |waiters| && waiters[index] != t
        invariant 0 <= index <= |waiters|
        invariant forall k :: 0 <= k < index ==> waiters[k] != t
      {
        index := index + 1;
      }
      if index < |waiters| {
        FireSplices(before, t, index);
        waiters := waiters[..index] + waiters[index + 1..];
      }
      expiries := expiries + [t];
      assert Contents() == Fire(before, t);
      FireKeepsInv(before, t);
    }

    method CallReleaser(t: Ticket)
      requires Valid() && t in grants
      modifies this
      ensures Valid() && Contents() == Release(old(Contents()), t)
    {
      ghost var before := Contents();
      if t in released {
        return;
      }
      OneMoreMember(released, returned, t);
      released := released + {t};
      returned := returned + [t];
      inUse := inUse - 1;
      if |waiters| > 0 {
        ReleaseToFirstWaiter(before, t);
        var next := waiters[0];
        waiters := waiters[1..];
        timers := timers - {next};
        inUse := inUse + 1;
        grants := grants + [next];
        assert Contents() == Release(before, t);
      }
      assert Contents() == Release(before, t);
      ReleaseKeepsInv(before, t);
    }
  }
}
