/**
 * Permits bound to pool clients. One pool serves any number of budgets; each
 * checkout registers a `finish` closure under its client, and the same client
 * object is lent again and again.
 */
module PermitBinding {
  import opened Sequences
  import B = AcquisitionBudget

  type BudgetId = nat
  type Client = nat

  /** One gated connect: the budget it was charged to and its ticket there. */
  datatype Permit = Permit(budget: BudgetId, t: B.Ticket)

  /** The `finish` closure of a checkout: what it deletes and what it releases. */
  datatype Finish = Finish(c: Client, p: Permit)

  /** A client lent outside every scope, or under a permit. */
  datatype Lease = Ungated | Under(p: Permit)

  /**
   * `outstanding` is the source's map from a client to the `finish` registered
   * for it; `bound` has the client of every `finish` made so far. `lent` is the
   * pool's own ledger. `stale` is history: the lent clients for which the
   * `finish` of another checkout has run since they were lent.
   */
  datatype State = State(
    budgets: map<BudgetId, B.State>,
    outstanding: map<Client, Finish>,
    bound: map<Permit, Client>,
    failed: set<Permit>,
    lent: map<Client, Lease>,
    stale: set<Client>)

  const FRESH: State := State(map[], map[], map[], {}, map[], {})

  predicate Granted(s: State, p: Permit) {
    p.budget in s.budgets && p.t in s.budgets[p.budget].grants
  }

  predicate Returned(s: State, p: Permit) {
    p.budget in s.budgets && p.t in s.budgets[p.budget].returned
  }

  /** Granted, and `pool.connect` has not answered yet. */
  predicate Connecting(s: State, p: Permit) {
    Granted(s, p) && p !in s.bound && p !in s.failed
  }

  predicate LentUnder(s: State, c: Client, p: Permit) {
    c in s.lent && s.lent[c] == Under(p)
  }

  function BudgetStep(s: State, b: BudgetId, e: B.Event): State {
    if b in s.budgets then s.(budgets := s.budgets[b := B.Step(s.budgets[b], e)]) else s
  }

  function Release(s: State, p: Permit): State {
    BudgetStep(s, p.budget, B.ReleaserCalled(p.t))
  }

  function RunFinish(s: State, f: Finish): State {
    Release(s.(outstanding := s.outstanding - {f.c}), f.p)
  }

  /** `bindPermitToClient`, for a client the pool just lent. */
  function Bind(s: State, p: Permit, c: Client): State {
    s.(outstanding := s.outstanding[c := Finish(c, p)], bound := s.bound[p := c],
       lent := s.lent[c := Under(p)], stale := s.stale - {c})
  }

  /** The pool lends a client, gated or not. */
  function Lend(s: State, c: Client, lease: Lease): State {
    match lease
    case Ungated => s.(lent := s.lent[c := Ungated], stale := s.stale - {c})
    case Under(p) => Bind(s, p, c)
  }

  /** `client.release` or `done` of the checkout `f`: `finish`, then the pool takes the client back if `f` has it. */
  function GiveBack(s: State, f: Finish): State {
    var s' := RunFinish(s, f);
    if f.c !in s.lent then s'
    else if s.lent[f.c] == Under(f.p) then s'.(lent := s.lent - {f.c}, stale := s.stale - {f.c})
    else s'.(stale := s.stale + {f.c})
  }

  /** The pool's `remove` event: the client is destroyed, not given back. */
  function Remove(s: State, c: Client): State {
    var s' := if c in s.outstanding then RunFinish(s, s.outstanding[c]) else s;
    s'.(lent := s.lent - {c}, stale := s.stale - {c})
  }

  datatype Event =
    | ScopeOpened(b: BudgetId, limit: B.LimitArgument)
    | Called(p: Permit)
    | TimerFired(p: Permit)
    | Connected(p: Permit, c: Client)
    | ConnectFailed(p: Permit)
    | ConnectedUngated(c: Client)
    | GivenBack(p: Permit)
    | Removed(c: Client)

  predicate Enabled(s: State, e: Event) {
    match e
    case ScopeOpened(b, _) => b !in s.budgets
    case Called(p) => p.budget in s.budgets && B.Enabled(s.budgets[p.budget], B.Acquired(p.t))
    case TimerFired(p) => p.budget in s.budgets && B.Enabled(s.budgets[p.budget], B.TimerFired(p.t))
    case Connected(p, c) => Connecting(s, p) && c !in s.lent
    case ConnectFailed(p) => Connecting(s, p)
    case ConnectedUngated(c) => c !in s.lent
    case GivenBack(p) => p in s.bound
    case Removed(c) => true
  }

  function Step(s: State, e: Event): State
    requires Enabled(s, e)
  {
    match e
    case ScopeOpened(b, limit) => s.(budgets := s.budgets[b := B.Created(B.ClampBudgetLimit(limit))])
    case Called(p) => BudgetStep(s, p.budget, B.Acquired(p.t))
    case TimerFired(p) => BudgetStep(s, p.budget, B.TimerFired(p.t))
    case Connected(p, c) => Lend(s, c, Under(p))
    case ConnectFailed(p) => Release(s, p).(failed := s.failed + {p})
    case ConnectedUngated(c) => Lend(s, c, Ungated)
    case GivenBack(p) => GiveBack(s, Finish(s.bound[p], p))
    case Removed(c) => Remove(s, c)
  }

  predicate Legal(s: State, events: seq<Event>)
    decreases events
  {
    events == [] || (Enabled(s, events[0]) && Legal(Step(s, events[0]), events[1..]))
  }

  function Run(s: State, events: seq<Event>): State
    requires Legal(s, events)
    decreases events
  {
    if events == [] then s else Run(Step(s, events[0]), events[1..])
  }

  ghost predicate BudgetsOk(s: State) {
    forall b :: b in s.budgets ==> B.Inv(s.budgets[b])
  }

  /** A permit comes back only through a checkout or a failed connect, and a failed connect gives it back. */
  ghost predicate PermitsOk(s: State) {
    && (forall p :: p in s.bound ==> Granted(s, p) && p !in s.failed)
    && (forall p :: p in s.failed ==> Granted(s, p) && Returned(s, p))
    && (forall p :: Returned(s, p) ==> p in s.bound || p in s.failed)
  }

  /** Who holds a client; its registered `finish` is there exactly when no other checkout's has run since. */
  ghost predicate ClientsOk(s: State) {
    && (forall c, p :: LentUnder(s, c, p) ==>
          p in s.bound && s.bound[p] == c && !Returned(s, p) && (c in s.outstanding <==> c !in s.stale))
    && (forall c :: c in s.outstanding ==>
          s.outstanding[c].c == c && LentUnder(s, c, s.outstanding[c].p))
    && (forall c :: c in s.stale ==> c in s.lent)
  }

  ghost predicate Links(s: State) {
    PermitsOk(s) && ClientsOk(s)
  }

  ghost predicate Inv(s: State) {
    BudgetsOk(s) && Links(s)
  }

  lemma BudgetStepKeepsBudgets(s: State, b: BudgetId, e: B.Event)
    requires BudgetsOk(s) && b in s.budgets && B.Enabled(s.budgets[b], e)
    ensures BudgetsOk(BudgetStep(s, b, e))
  {
    B.StepKeepsInv(s.budgets[b], e);
    OneBudgetChanged(s, BudgetStep(s, b, e), b, B.Step(s.budgets[b], e));
  }

  lemma OneBudgetChanged(s: State, s': State, b: BudgetId, budget: B.State)
    requires BudgetsOk(s) && B.Inv(budget) && s'.budgets == s.budgets[b := budget]
    ensures BudgetsOk(s')
  {
    forall x | x in s'.budgets ensures B.Inv(s'.budgets[x]) {
      if x != b {
        assert B.Inv(s.budgets[x]);
      }
    }
  }

  lemma BudgetStepPermit(s: State, b: BudgetId, e: B.Event, p: Permit)
    requires b in s.budgets
    ensures Granted(s, p) ==> Granted(BudgetStep(s, b, e), p)
    ensures Returned(BudgetStep(s, b, e), p) <==> Returned(s, p) || (e.ReleaserCalled? && p == Permit(b, e.t))
  {
    if p.budget == b {
      B.StepEffects(s.budgets[b], e, p.t);
    }
  }

  /** `p` releases at most itself: the other permits stay as they were. */
  lemma ReleaseKeepsOthers(s: State, p: Permit)
    requires p.budget in s.budgets
    ensures forall q :: Granted(s, q) ==> Granted(Release(s, p), q)
    ensures forall q :: Returned(Release(s, p), q) <==> Returned(s, q) || q == p
  {
    forall q
      ensures Granted(s, q) ==> Granted(Release(s, p), q)
      ensures Returned(Release(s, p), q) <==> Returned(s, q) || q == p
    {
      BudgetStepPermit(s, p.budget, B.ReleaserCalled(p.t), q);
    }
  }

  lemma {:induction false} BudgetEventKeepsInv(s: State, p: Permit, e: B.Event)
    requires Inv(s) && p.budget in s.budgets && B.Enabled(s.budgets[p.budget], e) && !e.ReleaserCalled?
    ensures Inv(BudgetStep(s, p.budget, e))
  {
    BudgetStepKeepsBudgets(s, p.budget, e);
    forall q
      ensures Granted(s, q) ==> Granted(BudgetStep(s, p.budget, e), q)
      ensures Returned(BudgetStep(s, p.budget, e), q) <==> Returned(s, q)
    {
      BudgetStepPermit(s, p.budget, e, q);
    }
    PermitsCarryOver(s, BudgetStep(s, p.budget, e));
  }

  lemma PermitsCarryOver(s: State, s': State)
    requires Links(s)
    requires s' == s.(budgets := s'.budgets)
    requires forall q :: Granted(s, q) ==> Granted(s', q)
    requires forall q :: Returned(s', q) <==> Returned(s, q)
    ensures Links(s')
  {
  }

  lemma {:induction false} GiveBackKeepsInv(s: State, p: Permit)
    requires Inv(s) && p in s.bound
    ensures Inv(GiveBack(s, Finish(s.bound[p], p)))
  {
    var c := s.bound[p];
    assert Granted(s, p);
    var s1 := s.(outstanding := s.outstanding - {c});
    BudgetStepKeepsBudgets(s1, p.budget, B.ReleaserCalled(p.t));
    ReleaseKeepsOthers(s1, p);
    var s2 := RunFinish(s, Finish(c, p));
    var s' := GiveBack(s, Finish(c, p));
    GiveBackKeepsClients(s, s2, s', p);
  }

  /** What a `finish` of `p`, and the pool taking the client back or not, does to the links. */
  lemma GiveBackKeepsClients(s: State, s2: State, s': State, p: Permit)
    requires Links(s) && p in s.bound
    requires s2 == s.(outstanding := s.outstanding - {s.bound[p]}, budgets := s2.budgets)
    requires forall q :: Granted(s, q) ==> Granted(s2, q)
    requires forall q :: Returned(s2, q) <==> Returned(s, q) || q == p
    requires s' == (if s.bound[p] !in s.lent then s2
                    else if s.lent[s.bound[p]] == Under(p) then
                      s2.(lent := s.lent - {s.bound[p]}, stale := s.stale - {s.bound[p]})
                    else s2.(stale := s.stale + {s.bound[p]}))
    ensures Links(s')
  {
    assert forall q :: Returned(s', q) <==> Returned(s2, q);
    assert forall q :: Granted(s', q) <==> Granted(s2, q);
    forall c, q | LentUnder(s', c, q)
      ensures LentUnder(s, c, q) && q != p && (c in s'.outstanding <==> c !in s'.stale)
    {
      assert LentUnder(s, c, q);
    }
  }

  lemma SameBudgets(s: State, s': State)
    requires s'.budgets == s.budgets
    ensures BudgetsOk(s) ==> BudgetsOk(s')
    ensures forall q :: Returned(s', q) <==> Returned(s, q)
    ensures forall q :: Granted(s', q) <==> Granted(s, q)
  {
  }

  lemma {:induction false} RemoveKeepsInv(s: State, c: Client)
    requires Inv(s)
    ensures Inv(Remove(s, c))
  {
    var s' := Remove(s, c);
    if c in s.outstanding {
      RemoveIsFinish(s, c);
    } else {
      SameBudgets(s, s');
      RemoveKeepsClients(s, s', c);
    }
  }

  lemma {:induction false} RemoveIsFinish(s: State, c: Client)
    requires Inv(s) && c in s.outstanding
    ensures Inv(Remove(s, c)) && Remove(s, c) == GiveBack(s, s.outstanding[c])
  {
    var p := s.outstanding[c].p;
    assert LentUnder(s, c, p);
    GiveBackKeepsInv(s, p);
  }

  lemma RemoveKeepsClients(s: State, s': State, c: Client)
    requires Links(s) && c !in s.outstanding
    requires s' == s.(lent := s.lent - {c}, stale := s.stale - {c})
    requires forall q :: Returned(s', q) <==> Returned(s, q)
    requires forall q :: Granted(s', q) <==> Granted(s, q)
    ensures Links(s')
  {
    assert forall d, q :: LentUnder(s', d, q) ==> LentUnder(s, d, q);
  }

  lemma LendKeepsInv(s: State, c: Client, lease: Lease)
    requires Inv(s) && c !in s.lent && (lease.Under? ==> Connecting(s, lease.p))
    ensures Inv(Lend(s, c, lease))
  {
    var s' := Lend(s, c, lease);
    SameBudgets(s, s');
    LendKeepsClients(s, s', c, lease);
  }

  lemma LendKeepsClients(s: State, s': State, c: Client, lease: Lease)
    requires Links(s) && c !in s.lent && (lease.Under? ==> Connecting(s, lease.p))
    requires s' == Lend(s, c, lease)
    requires forall q :: Returned(s', q) <==> Returned(s, q)
    requires forall q :: Granted(s', q) <==> Granted(s, q)
    ensures Links(s')
  {
    forall d, q | LentUnder(s', d, q)
      ensures q in s'.bound && s'.bound[q] == d && !Returned(s', q) && (d in s'.outstanding <==> d !in s'.stale)
    {
      if d != c {
        assert LentUnder(s, d, q);
      }
    }
  }

  lemma {:induction false} ConnectFailedKeepsInv(s: State, p: Permit)
    requires Inv(s) && Connecting(s, p)
    ensures Inv(Release(s, p).(failed := s.failed + {p}))
  {
    BudgetStepKeepsBudgets(s, p.budget, B.ReleaserCalled(p.t));
    ReleaseKeepsOthers(s, p);
    var s' := Release(s, p).(failed := s.failed + {p});
    SameBudgets(Release(s, p), s');
    FailKeepsClients(s, s', p);
  }

  lemma FailKeepsClients(s: State, s': State, p: Permit)
    requires Links(s) && Connecting(s, p)
    requires s' == s.(failed := s.failed + {p}, budgets := s'.budgets)
    requires forall q :: Granted(s, q) ==> Granted(s', q)
    requires forall q :: Returned(s', q) <==> Returned(s, q) || q == p
    ensures Links(s')
  {
    assert forall d, q :: LentUnder(s', d, q) ==> LentUnder(s, d, q);
  }

  lemma ScopeKeepsInv(s: State, b: BudgetId, limit: B.LimitArgument)
    requires Inv(s) && b !in s.budgets
    ensures Inv(s.(budgets := s.budgets[b := B.Created(B.ClampBudgetLimit(limit))]))
  {
    B.CreatedInv(limit);
    NewBudgetIsOk(s, b, B.Created(B.ClampBudgetLimit(limit)));
    PermitsCarryOver(s, s.(budgets := s.budgets[b := B.Created(B.ClampBudgetLimit(limit))]));
  }

  lemma NewBudgetIsOk(s: State, b: BudgetId, made: B.State)
    requires BudgetsOk(s) && b !in s.budgets && B.Inv(made) && made.grants == [] && made.returned == []
    ensures var s' := s.(budgets := s.budgets[b := made]);
      && BudgetsOk(s')
      && (forall q :: Granted(s', q) <==> Granted(s, q))
      && (forall q :: Returned(s', q) <==> Returned(s, q))
  {
    OneBudgetChanged(s, s.(budgets := s.budgets[b := made]), b, made);
  }

  lemma StepKeepsInv(s: State, e: Event)
    requires Inv(s) && Enabled(s, e)
    ensures Inv(Step(s, e))
  {
    match e
    case ScopeOpened(b, limit) => ScopeKeepsInv(s, b, limit);
    case Called(p) => BudgetEventKeepsInv(s, p, B.Acquired(p.t));
    case TimerFired(p) => BudgetEventKeepsInv(s, p, B.TimerFired(p.t));
    case Connected(p, c) => LendKeepsInv(s, c, Under(p));
    case ConnectFailed(p) => ConnectFailedKeepsInv(s, p);
    case ConnectedUngated(c) => LendKeepsInv(s, c, Ungated);
    case GivenBack(p) => GiveBackKeepsInv(s, p);
    case Removed(c) => RemoveKeepsInv(s, c);
  }

  lemma {:induction false} RunKeepsInv(s: State, events: seq<Event>)
    requires Inv(s) && Legal(s, events)
    ensures Inv(Run(s, events))
    decreases events
  {
    if events != [] {
      StepKeepsInv(s, events[0]);
      RunKeepsInv(Step(s, events[0]), events[1..]);
    }
  }

  // ----- Results over whole runs -----

  /** The clients lent under permits of one budget. */
  function LentClients(s: State, b: BudgetId): set<Client> {
    set c | c in s.lent && s.lent[c].Under? && s.lent[c].p.budget == b
  }

  /** The client is given back through this checkout, or destroyed. */
  predicate Ends(e: Event, c: Client, p: Permit) {
    e == GivenBack(p) || e == Removed(c)
  }

  predicate StaysOut(events: seq<Event>, c: Client, p: Permit) {
    forall e :: e in events ==> !Ends(e, c, p)
  }

  /** By the events alone: the client was lent under the permit, and that checkout has not ended since. */
  predicate Out(events: seq<Event>, c: Client, p: Permit) {
    exists i :: 0 <= i < |events| && events[i] == Connected(p, c) && StaysOut(events[i + 1..], c, p)
  }

  lemma OutCons(e: Event, rest: seq<Event>, c: Client, p: Permit)
    ensures Out([e] + rest, c, p) <==> (e == Connected(p, c) && StaysOut(rest, c, p)) || Out(rest, c, p)
  {
    var events := [e] + rest;
    assert events[1..] == rest;
    if Out(events, c, p) {
      var i :| 0 <= i < |events| && events[i] == Connected(p, c) && StaysOut(events[i + 1..], c, p);
      if i > 0 {
        assert rest[i - 1] == events[i] && rest[i..] == events[i + 1..];
      }
    }
    if e == Connected(p, c) && StaysOut(rest, c, p) {
      assert events[0] == e && StaysOut(events[0 + 1..], c, p);
    }
    if Out(rest, c, p) {
      var i :| 0 <= i < |rest| && rest[i] == Connected(p, c) && StaysOut(rest[i + 1..], c, p);
      assert events[i + 1] == rest[i] && events[i + 1 + 1..] == rest[i + 1..];
    }
  }

  lemma LentByStep(s: State, e: Event, c: Client, p: Permit)
    requires Links(s) && Enabled(s, e)
    ensures LentUnder(Step(s, e), c, p) <==> e == Connected(p, c) || (LentUnder(s, c, p) && !Ends(e, c, p))
  {
    assert LentUnder(s, c, p) ==> p in s.bound && s.bound[p] == c;
  }

  lemma {:induction false} LentInRun(s: State, events: seq<Event>, c: Client, p: Permit)
    requires Inv(s) && Legal(s, events)
    ensures LentUnder(Run(s, events), c, p) <==> (LentUnder(s, c, p) && StaysOut(events, c, p)) || Out(events, c, p)
    decreases events
  {
    if events != [] {
      var e, rest := events[0], events[1..];
      assert events == [e] + rest;
      StepKeepsInv(s, e);
      LentByStep(s, e, c, p);
      LentInRun(Step(s, e), rest, c, p);
      OutCons(e, rest, c, p);
      assert StaysOut(events, c, p) <==> !Ends(e, c, p) && StaysOut(rest, c, p);
    }
  }

  /** The pool's ledger is what happened: a client is lent under a permit exactly when the events leave it out. */
  lemma LentExactly(events: seq<Event>, c: Client, p: Permit)
    requires Legal(FRESH, events)
    ensures LentUnder(Run(FRESH, events), c, p) <==> Out(events, c, p)
  {
    LentInRun(FRESH, events, c, p);
  }

  // ----- The limit a scope was opened with -----

  lemma LimitByStep(s: State, e: Event, b: BudgetId)
    requires Enabled(s, e)
    ensures b in Step(s, e).budgets <==> b in s.budgets || (e.ScopeOpened? && e.b == b)
    ensures b in s.budgets ==> Step(s, e).budgets[b].limit == s.budgets[b].limit
  {
  }

  lemma {:induction false} LimitStays(s: State, events: seq<Event>, b: BudgetId)
    requires Legal(s, events) && b in s.budgets
    ensures b in Run(s, events).budgets && Run(s, events).budgets[b].limit == s.budgets[b].limit
    ensures forall limit :: ScopeOpened(b, limit) !in events
    decreases events
  {
    if events != [] {
      LimitByStep(s, events[0], b);
      LimitStays(Step(s, events[0]), events[1..], b);
    }
  }

  lemma {:induction false} OpenedInRun(s: State, events: seq<Event>, b: BudgetId, limit: B.LimitArgument)
    requires Legal(s, events) && ScopeOpened(b, limit) in events
    ensures b in Run(s, events).budgets && Run(s, events).budgets[b].limit == B.ClampBudgetLimit(limit)
    decreases events
  {
    if events[0] == ScopeOpened(b, limit) {
      LimitStays(Step(s, events[0]), events[1..], b);
    } else {
      OpenedInRun(Step(s, events[0]), events[1..], b, limit);
    }
  }

  lemma {:induction false} BudgetWasOpened(s: State, events: seq<Event>, b: BudgetId)
    requires Legal(s, events) && b in Run(s, events).budgets
    ensures b in s.budgets || exists limit :: ScopeOpened(b, limit) in events
    decreases events
  {
    if events != [] {
      LimitByStep(s, events[0], b);
      BudgetWasOpened(Step(s, events[0]), events[1..], b);
      if b !in s.budgets && b in Step(s, events[0]).budgets {
        assert events[0] == ScopeOpened(b, events[0].limit);
      }
    }
  }

  /**
   * In every run a scope's budget has the limit it was opened with: its floor, at
   * least one; five if it is not finite.
   */
  lemma OpenedLimit(events: seq<Event>, b: BudgetId, limit: B.LimitArgument)
    requires Legal(FRESH, events) && ScopeOpened(b, limit) in events
    ensures b in Run(FRESH, events).budgets
    ensures var n := Run(FRESH, events).budgets[b].limit;
      && (limit.NotFinite? ==> n == 5)
      && (limit.Finite? && limit.value < 1.0 ==> n == 1)
      && (limit.Finite? && limit.value >= 1.0 ==> n as real <= limit.value < n as real + 1.0)
  {
    OpenedInRun(FRESH, events, b, limit);
  }

  /**
   * In every run, stale calls and double releases included, the clients that the
   * events leave out under permits of a scope's budget are no more than the limit
   * the scope was opened with, and no permit is given back twice.
   */
  lemma CheckoutsNeverExceedLimit(events: seq<Event>, b: BudgetId, limit: B.LimitArgument, out: set<Client>)
    requires Legal(FRESH, events) && ScopeOpened(b, limit) in events
    requires forall c :: c in out ==> exists p: Permit :: p.budget == b && Out(events, c, p)
    ensures limit.NotFinite? ==> |out| <= 5
    ensures limit.Finite? && limit.value < 1.0 ==> |out| <= 1
    ensures limit.Finite? && limit.value >= 1.0 ==> |out| as real <= limit.value
    ensures b in Run(FRESH, events).budgets && Distinct(Run(FRESH, events).budgets[b].returned)
  {
    RunKeepsInv(FRESH, events);
    OpenedLimit(events, b, limit);
    var s := Run(FRESH, events);
    LentWithinHeld(s, b);
    forall c | c in out ensures c in LentClients(s, b) {
      var p: Permit :| p.budget == b && Out(events, c, p);
      LentExactly(events, c, p);
    }
    SubsetIsNoLarger(out, LentClients(s, b));
  }

  lemma {:induction false} SubsetIsNoLarger<T>(a: set<T>, b: set<T>)
    requires a <= b
    ensures |a| <= |b|
  {
    OneToOneIsNoLarger(a, b, map x | x in a :: x);
  }

  lemma LentWithinHeld(s: State, b: BudgetId)
    requires Links(s) && b in s.budgets && B.Inv(s.budgets[b])
    ensures |LentClients(s, b)| <= s.budgets[b].inUse <= s.budgets[b].limit && Distinct(s.budgets[b].returned)
  {
    var ticket := map c | c in LentClients(s, b) :: s.lent[c].p.t;
    LentTicketsAreHeld(s, b, ticket);
    OneToOneIsNoLarger(LentClients(s, b), B.Held(s.budgets[b]), ticket);
  }

  lemma LentTicketsAreHeld(s: State, b: BudgetId, ticket: map<Client, B.Ticket>)
    requires Links(s) && b in s.budgets
    requires ticket == map c | c in LentClients(s, b) :: s.lent[c].p.t
    ensures forall c :: c in LentClients(s, b) ==> ticket[c] in B.Held(s.budgets[b])
    ensures forall c, d :: c in LentClients(s, b) && d in LentClients(s, b) && ticket[c] == ticket[d] ==> c == d
  {
    forall c | c in LentClients(s, b)
      ensures ticket[c] in B.Held(s.budgets[b]) && Permit(b, ticket[c]) in s.bound && s.bound[Permit(b, ticket[c])] == c
    {
      assert LentUnder(s, c, Permit(b, ticket[c]));
      assert Granted(s, Permit(b, ticket[c])) && !Returned(s, Permit(b, ticket[c]));
    }
  }

  predicate Arrived(s: State, p: Permit) {
    p.budget in s.budgets && p.t in s.budgets[p.budget].arrivals
  }

  lemma ArrivedByCall(s: State, e: Event, p: Permit)
    requires Enabled(s, e) && Arrived(Step(s, e), p)
    ensures Arrived(s, p) || e == Called(p)
  {
  }

  lemma {:induction false} ArrivedInRun(s: State, events: seq<Event>, p: Permit)
    requires Legal(s, events) && Arrived(Run(s, events), p)
    ensures Arrived(s, p) || Called(p) in events
    decreases events
  {
    if events != [] {
      ArrivedInRun(Step(s, events[0]), events[1..], p);
      if Arrived(Step(s, events[0]), p) {
        ArrivedByCall(s, events[0], p);
      }
    }
  }

  lemma GrantedHasArrived(s: State, p: Permit)
    requires BudgetsOk(s) && Granted(s, p)
    ensures Arrived(s, p)
  {
    var budget := s.budgets[p.budget];
    assert B.Inv(budget);
    assert p.t in budget.grants + budget.waiters;
    WithoutMembers(budget.arrivals, budget.expiries, p.t);
  }

  /** A client is out under a permit only if that permit was called for. */
  lemma LentWasCalled(events: seq<Event>, c: Client, p: Permit)
    requires Legal(FRESH, events) && LentUnder(Run(FRESH, events), c, p)
    ensures Called(p) in events && p.budget in Run(FRESH, events).budgets
  {
    RunKeepsInv(FRESH, events);
    var s := Run(FRESH, events);
    assert Granted(s, p);
    GrantedHasArrived(s, p);
    ArrivedInRun(FRESH, events, p);
  }

  lemma ReturnedStays(s: State, e: Event, p: Permit)
    requires Enabled(s, e) && Returned(s, p)
    ensures Returned(Step(s, e), p)
  {
  }

  lemma BoundStays(s: State, e: Event, p: Permit)
    requires Enabled(s, e) && p in s.bound
    ensures p in Step(s, e).bound && Step(s, e).bound[p] == s.bound[p]
  {
  }

  lemma {:induction false} ReturnedForGood(s: State, events: seq<Event>, p: Permit)
    requires Legal(s, events) && Returned(s, p) && p in s.bound
    ensures Returned(Run(s, events), p) && p in Run(s, events).bound
    decreases events
  {
    if events != [] {
      ReturnedStays(s, events[0], p);
      BoundStays(s, events[0], p);
      ReturnedForGood(Step(s, events[0]), events[1..], p);
    }
  }

  /** A `finish` whose permit is back moves no budget. */
  lemma ReleasedAgain(s: State, f: Finish)
    requires Returned(s, f.p)
    ensures GiveBack(s, f).budgets == s.budgets
  {
    assert B.Release(s.budgets[f.p.budget], f.p.t) == s.budgets[f.p.budget];
  }

  /**
   * `release` and `done` of one checkout, in any number and with anything in
   * between, other checkouts of its client included: the first returns the permit,
   * and whenever one is called again the budgets do not move.
   */
  lemma GivingBackAgainReleasesNothing(before: seq<Event>, p: Permit, between: seq<Event>)
    requires Legal(FRESH, before) && Enabled(Run(FRESH, before), GivenBack(p))
    requires Legal(Step(Run(FRESH, before), GivenBack(p)), between)
    ensures var first := Step(Run(FRESH, before), GivenBack(p));
      var later := Run(first, between);
      && Returned(first, p) && Enabled(later, GivenBack(p))
      && Step(later, GivenBack(p)).budgets == later.budgets
  {
    BoundIsGranted(before, p);
    GivingBackLater(Run(FRESH, before), p, between);
  }

  lemma GivingBackLater(s: State, p: Permit, between: seq<Event>)
    requires p in s.bound && p.budget in s.budgets
    requires Legal(Step(s, GivenBack(p)), between)
    ensures var first := Step(s, GivenBack(p));
      var later := Run(first, between);
      && Returned(first, p) && Enabled(later, GivenBack(p))
      && Step(later, GivenBack(p)).budgets == later.budgets
  {
    var first := Step(s, GivenBack(p));
    GiveBackReturns(s, Finish(s.bound[p], p));
    ReturnedForGood(first, between, p);
    var later := Run(first, between);
    ReleasedAgain(later, Finish(later.bound[p], p));
  }

  lemma BoundIsGranted(events: seq<Event>, p: Permit)
    requires Legal(FRESH, events) && p in Run(FRESH, events).bound
    ensures Granted(Run(FRESH, events), p)
  {
    RunKeepsInv(FRESH, events);
  }

  lemma GiveBackReturns(s: State, f: Finish)
    requires f.p.budget in s.budgets
    ensures Returned(GiveBack(s, f), f.p)
  {
    BudgetStepPermit(s, f.p.budget, B.ReleaserCalled(f.p.t), f.p);
  }

  /** Destroying a lent client frees its permit exactly when no other checkout's `finish` ran since it was lent. */
  lemma RemoveFreesPermitExactlyWhenNotStale(events: seq<Event>, c: Client, p: Permit)
    requires Legal(FRESH, events) && LentUnder(Run(FRESH, events), c, p)
    ensures Returned(Remove(Run(FRESH, events), c), p) <==> c !in Run(FRESH, events).stale
  {
    RunKeepsInv(FRESH, events);
    var s := Run(FRESH, events);
    if c in s.outstanding {
      var s1 := s.(outstanding := s.outstanding - {c});
      assert s.outstanding[c].p == p;
      assert Granted(s, p);
      BudgetStepPermit(s1, p.budget, B.ReleaserCalled(p.t), p);
      SameBudgets(RunFinish(s, Finish(c, p)), Remove(s, c));
    } else {
      SameBudgets(s, Remove(s, c));
    }
  }

  /** The step is not a checkout's `finish` running while another checkout has its client. */
  predicate NotStale(s: State, e: Event)
    requires Enabled(s, e)
  {
    e.GivenBack? && s.bound[e.p] in s.lent ==> s.lent[s.bound[e.p]] == Under(e.p)
  }

  predicate NoStaleCall(s: State, events: seq<Event>)
    requires Legal(s, events)
    decreases events
  {
    events == [] || (NotStale(s, events[0]) && NoStaleCall(Step(s, events[0]), events[1..]))
  }

  /** Every permit out is a connect in progress or a lent client, and vice versa. */
  ghost predicate Conserved(s: State) {
    && s.stale == {}
    && (forall p :: p in s.bound ==> (!Returned(s, p) <==> LentUnder(s, s.bound[p], p)))
  }

  lemma StepKeepsConserved(s: State, e: Event)
    requires Links(s) && Conserved(s) && Enabled(s, e) && NotStale(s, e)
    ensures Conserved(Step(s, e))
  {
    match e
    case ScopeOpened(_, _) => ConservedCarriesOver(s, Step(s, e));
    case Called(q) => BudgetEventKeepsConserved(s, q.budget, B.Acquired(q.t));
    case TimerFired(q) => BudgetEventKeepsConserved(s, q.budget, B.TimerFired(q.t));
    case Connected(q, c) => LendKeepsConserved(s, c, Under(q));
    case ConnectFailed(q) =>
      ReleaseKeepsOthers(s, q);
      FailKeepsConserved(s, Step(s, e), q);
    case ConnectedUngated(c) => LendKeepsConserved(s, c, Ungated);
    case GivenBack(q) => GiveBackKeepsConserved(s, q);
    case Removed(c) => RemoveKeepsConserved(s, c);
  }

  lemma RemoveKeepsConserved(s: State, c: Client)
    requires Links(s) && Conserved(s)
    ensures Conserved(Remove(s, c))
  {
    if c in s.outstanding {
      assert LentUnder(s, c, s.outstanding[c].p);
      assert Remove(s, c) == GiveBack(s, s.outstanding[c]);
      GiveBackKeepsConserved(s, s.outstanding[c].p);
    } else {
      SameBudgets(s, Remove(s, c));
      assert forall p :: !LentUnder(s, c, p);
      assert forall d, p :: LentUnder(Remove(s, c), d, p) <==> LentUnder(s, d, p);
    }
  }

  lemma ConservedCarriesOver(s: State, s': State)
    requires Links(s) && Conserved(s) && s' == s.(budgets := s'.budgets)
    requires forall p :: Granted(s, p) ==> (Returned(s', p) <==> Returned(s, p))
    ensures Conserved(s')
  {
    assert forall d, p :: LentUnder(s', d, p) <==> LentUnder(s, d, p);
  }

  lemma BudgetEventKeepsConserved(s: State, b: BudgetId, e: B.Event)
    requires Links(s) && Conserved(s) && b in s.budgets && !e.ReleaserCalled?
    ensures Conserved(BudgetStep(s, b, e))
  {
    forall p
      ensures Returned(BudgetStep(s, b, e), p) <==> Returned(s, p)
    {
      BudgetStepPermit(s, b, e, p);
    }
    ConservedCarriesOver(s, BudgetStep(s, b, e));
  }

  lemma LendKeepsConserved(s: State, c: Client, lease: Lease)
    requires Links(s) && Conserved(s) && c !in s.lent && (lease.Under? ==> Connecting(s, lease.p))
    ensures Conserved(Lend(s, c, lease))
  {
    var s' := Lend(s, c, lease);
    SameBudgets(s, s');
    LendConserves(s, s', c, lease);
  }

  lemma LendConserves(s: State, s': State, c: Client, lease: Lease)
    requires Links(s) && Conserved(s) && c !in s.lent && (lease.Under? ==> Connecting(s, lease.p))
    requires s'.lent == s.lent[c := lease] && s'.stale == {}
    requires s'.bound == if lease.Under? then s.bound[lease.p := c] else s.bound
    requires forall q :: Returned(s', q) <==> Returned(s, q)
    requires forall q :: Granted(s', q) <==> Granted(s, q)
    ensures Conserved(s')
  {
    assert forall d, p :: LentUnder(s', d, p) <==> LentUnder(s, d, p) || (d == c && lease == Under(p));
    forall p | p in s'.bound ensures !Returned(s', p) <==> LentUnder(s', s'.bound[p], p) {
      assert p in s.bound ==> (!Returned(s, p) <==> LentUnder(s, s.bound[p], p));
    }
  }

  lemma FailKeepsConserved(s: State, s': State, q: Permit)
    requires Links(s) && Conserved(s) && Connecting(s, q)
    requires s' == s.(failed := s.failed + {q}, budgets := s'.budgets)
    requires forall p :: Returned(s', p) <==> Returned(s, p) || p == q
    ensures Conserved(s')
  {
    assert forall d, p :: LentUnder(s', d, p) <==> LentUnder(s, d, p);
  }

  lemma GiveBackKeepsConserved(s: State, q: Permit)
    requires Links(s) && Conserved(s) && q in s.bound
    requires s.bound[q] in s.lent ==> s.lent[s.bound[q]] == Under(q)
    ensures Conserved(GiveBack(s, Finish(s.bound[q], q)))
  {
    assert Granted(s, q);
    var s1 := s.(outstanding := s.outstanding - {s.bound[q]});
    ReleaseKeepsOthers(s1, q);
    var s' := GiveBack(s, Finish(s.bound[q], q));
    SameBudgets(RunFinish(s, Finish(s.bound[q], q)), s');
    ConservedAfterFinish(s, s', q);
  }

  lemma ConservedAfterFinish(s: State, s': State, q: Permit)
    requires Conserved(s) && q in s.bound
    requires s'.bound == s.bound && s'.stale == {} && s'.lent == s.lent - {s.bound[q]}
    requires forall p :: Returned(s', p) <==> Returned(s, p) || p == q
    requires s.bound[q] in s.lent ==> s.lent[s.bound[q]] == Under(q)
    ensures Conserved(s')
  {
    forall p | p in s.bound ensures !Returned(s', p) <==> LentUnder(s', s.bound[p], p) {
      if p != q {
        assert !Returned(s, p) <==> LentUnder(s, s.bound[p], p);
      }
    }
  }

  lemma {:induction false} RunKeepsConserved(s: State, events: seq<Event>)
    requires Inv(s) && Conserved(s) && Legal(s, events) && NoStaleCall(s, events)
    ensures Conserved(Run(s, events))
    decreases events
  {
    if events != [] {
      StepKeepsConserved(s, events[0]);
      StepKeepsInv(s, events[0]);
      RunKeepsConserved(Step(s, events[0]), events[1..]);
    }
  }

  /**
   * Without stale calls every permit out is accounted for: it belongs to a
   * connect in progress or to a client out under it.
   */
  lemma PermitsOutAreCheckoutsOrConnects(events: seq<Event>, p: Permit)
    requires Legal(FRESH, events) && NoStaleCall(FRESH, events)
    requires p.budget in Run(FRESH, events).budgets
    ensures var s := Run(FRESH, events);
      p.t in B.Held(s.budgets[p.budget]) <==> Connecting(s, p) || exists c :: LentUnder(s, c, p)
  {
    RunKeepsInv(FRESH, events);
    RunKeepsConserved(FRESH, events);
    HeldIsConnectingOrLent(Run(FRESH, events), p);
  }

  lemma HeldIsConnectingOrLent(s: State, p: Permit)
    requires Links(s) && Conserved(s) && p.budget in s.budgets
    ensures p.t in B.Held(s.budgets[p.budget]) <==> Connecting(s, p) || exists c :: LentUnder(s, c, p)
  {
    assert p.t in B.Held(s.budgets[p.budget]) <==> Granted(s, p) && !Returned(s, p);
    if c :| LentUnder(s, c, p) {
      assert Granted(s, p);
    }
  }

  /** Without stale calls a destroyed client leaves none of the permits it ever carried held. */
  lemma RemovedClientHoldsNothing(events: seq<Event>, c: Client, p: Permit)
    requires Legal(FRESH, events) && NoStaleCall(FRESH, events)
    requires p in Run(FRESH, events).bound && Run(FRESH, events).bound[p] == c
    ensures Returned(Remove(Run(FRESH, events), c), p)
  {
    RunKeepsInv(FRESH, events);
    RunKeepsConserved(FRESH, events);
    RemoveLeavesNothing(Run(FRESH, events), c, p);
  }

  lemma RemoveLeavesNothing(s: State, c: Client, p: Permit)
    requires Links(s) && Conserved(s) && p in s.bound && s.bound[p] == c
    ensures Returned(Remove(s, c), p)
  {
    StepKeepsConserved(s, Removed(c));
    assert !LentUnder(Step(s, Removed(c)), c, p);
  }

  /** One stale call is enough: the client's permit is then out with no client, and no event of the pool returns it. */
  lemma StaleCallLeaksPermit(s: State, c: Client, p: Permit, earlier: Permit)
    requires Links(s) && LentUnder(s, c, p) && earlier != p && earlier in s.bound && s.bound[earlier] == c
    ensures var leaked := Remove(GiveBack(s, Finish(c, earlier)), c);
      !Returned(leaked, p) && c !in leaked.lent && c !in leaked.outstanding
  {
    StaleFacts(s, c, p, earlier);
    StaleGiveBack(s, c, p, earlier);
    RemoveWithoutFinish(GiveBack(s, Finish(c, earlier)), c, p);
  }

  lemma StaleFacts(s: State, c: Client, p: Permit, earlier: Permit)
    requires Links(s) && LentUnder(s, c, p) && earlier in s.bound
    ensures !Returned(s, p) && Granted(s, earlier)
  {
  }

  lemma StaleGiveBack(s: State, c: Client, p: Permit, earlier: Permit)
    requires LentUnder(s, c, p) && earlier != p && !Returned(s, p) && Granted(s, earlier)
    ensures var s' := GiveBack(s, Finish(c, earlier)); !Returned(s', p) && c !in s'.outstanding
  {
    var s1 := s.(outstanding := s.outstanding - {c});
    BudgetStepPermit(s1, earlier.budget, B.ReleaserCalled(earlier.t), p);
  }

  lemma RemoveWithoutFinish(s: State, c: Client, p: Permit)
    requires c !in s.outstanding && !Returned(s, p)
    ensures !Returned(Remove(s, c), p) && c !in Remove(s, c).lent && c !in Remove(s, c).outstanding
  {
  }

  /** And it can happen: client 7, lent twice, is given back again through its first checkout and then destroyed. */
  lemma StaleCallExample()
    ensures var first, second := Permit(0, 0), Permit(0, 1);
      var checkout := [ScopeOpened(0, B.Finite(1.0)), Called(first), Connected(first, 7), GivenBack(first)];
      var again := [Called(second), Connected(second, 7), GivenBack(first), Removed(7)];
      Legal(FRESH, checkout) && Legal(Run(FRESH, checkout), again) &&
      !Returned(Run(Run(FRESH, checkout), again), second)
  {
    FirstCheckout();
    SecondCheckout();
  }

  const AFTER_FIRST: State :=
    State(map[0 := B.State(1, 0, [], {}, [0], [0], [], [0])], map[], map[Permit(0, 0) := 7], {}, map[], {})

  const LENT_FIRST: State :=
    State(map[0 := B.State(1, 1, [], {}, [0], [0], [], [])], map[7 := Finish(7, Permit(0, 0))],
          map[Permit(0, 0) := 7], {}, map[7 := Under(Permit(0, 0))], {})

  lemma FirstGivenBack()
    ensures Legal(LENT_FIRST, [GivenBack(Permit(0, 0))]) && Run(LENT_FIRST, [GivenBack(Permit(0, 0))]) == AFTER_FIRST
  {
    assert B.Release(LENT_FIRST.budgets[0], 0) == AFTER_FIRST.budgets[0];
    assert Step(LENT_FIRST, GivenBack(Permit(0, 0))) == AFTER_FIRST;
    OneStep(LENT_FIRST, GivenBack(Permit(0, 0)), [], AFTER_FIRST);
  }

  lemma FirstCheckout()
    ensures var events :=
      [ScopeOpened(0, B.Finite(1.0)), Called(Permit(0, 0)), Connected(Permit(0, 0), 7), GivenBack(Permit(0, 0))];
      Legal(FRESH, events) && Run(FRESH, events) == AFTER_FIRST
  {
    var first := Permit(0, 0);
    var s1 := FRESH.(budgets := map[0 := B.Created(1)]);
    var s2 := FRESH.(budgets := map[0 := B.State(1, 1, [], {}, [0], [0], [], [])]);
    FirstGivenBack();
    OneStep(s2, Connected(first, 7), [GivenBack(first)], LENT_FIRST);
    OneStep(s1, Called(first), [Connected(first, 7), GivenBack(first)], s2);
    OneStep(FRESH, ScopeOpened(0, B.Finite(1.0)), [Called(first), Connected(first, 7), GivenBack(first)], s1);
  }

  lemma SecondCheckout()
    ensures var events := [Called(Permit(0, 1)), Connected(Permit(0, 1), 7), GivenBack(Permit(0, 0)), Removed(7)];
      Legal(AFTER_FIRST, events) && !Returned(Run(AFTER_FIRST, events), Permit(0, 1))
  {
    var first, second := Permit(0, 0), Permit(0, 1);
    var s5 := AFTER_FIRST.(budgets := map[0 := B.State(1, 1, [], {}, [0, 1], [0, 1], [], [0])]);
    var s6 :=
      State(s5.budgets, map[7 := Finish(7, second)], map[first := 7, second := 7], {}, map[7 := Under(second)], {});
    var s7 := s6.(outstanding := map[], stale := {7});
    var s8 := s7.(lent := map[], stale := {});
    OneStep(s7, Removed(7), [], s8);
    OneStep(s6, GivenBack(first), [Removed(7)], s7);
    OneStep(s5, Connected(second, 7), [GivenBack(first), Removed(7)], s6);
    assert B.Acquire(AFTER_FIRST.budgets[0], 1) == s5.budgets[0];
    assert Step(AFTER_FIRST, Called(second)) == s5;
    OneStep(AFTER_FIRST, Called(second), [Connected(second, 7), GivenBack(first), Removed(7)], s5);
  }

  lemma OneStep(s: State, e: Event, rest: seq<Event>, s': State)
    requires Enabled(s, e) && Step(s, e) == s' && Legal(s', rest)
    ensures Legal(s, [e] + rest) && Run(s, [e] + rest) == Run(s', rest)
  {
    assert ([e] + rest)[1..] == rest;
  }

  /** A gated pool: `outstanding` is changed in place by the three closures that share it. */
  class GatedPool {
    var budgets: map<BudgetId, B.State>
    var outstanding: map<Client, Finish>
    var bound: map<Permit, Client>
    ghost var failed: set<Permit>
    ghost var lent: map<Client, Lease>
    ghost var stale: set<Client>

    ghost function Contents(): State
      reads this
    {
      State(budgets, outstanding, bound, failed, lent, stale)
    }

    constructor ()
      ensures Contents() == FRESH
    {
      budgets, outstanding, bound := map[], map[], map[];
      failed, lent, stale := {}, map[], {};
    }

    /** The underlying connect answered with a client. */
    method BindPermitToClient(p: Permit, c: Client)
      requires Links(Contents()) && Enabled(Contents(), Connected(p, c))
      modifies this
      ensures Contents() == Step(old(Contents()), Connected(p, c))
    {
      outstanding := outstanding[c := Finish(c, p)];
      bound := bound[p := c];
      lent, stale := lent[c := Under(p)], stale - {c};
    }

    method RunFinishClosure(f: Finish)
      requires f.p.budget in budgets
      modifies this`outstanding, this`budgets
      ensures Contents() == RunFinish(old(Contents()), f)
    {
      outstanding := outstanding - {f.c};
      budgets := budgets[f.p.budget := B.Release(budgets[f.p.budget], f.p.t)];
    }

    /** The wrapped `client.release`, and equally the wrapped `done`. */
    method ReleaseClient(p: Permit)
      requires Links(Contents()) && Enabled(Contents(), GivenBack(p))
      modifies this
      ensures Contents() == Step(old(Contents()), GivenBack(p))
    {
      assert Granted(Contents(), p);
      var c := bound[p];
      RunFinishClosure(Finish(c, p));
      if c in lent {
        if lent[c] == Under(p) {
          lent, stale := lent - {c}, stale - {c};
        } else {
          stale := stale + {c};
        }
      }
    }

    /** The listener of the pool's `remove` event. */
    method OnRemove(c: Client)
      requires Links(Contents())
      modifies this
      ensures Contents() == Step(old(Contents()), Removed(c))
    {
      if c in outstanding {
        assert LentUnder(Contents(), c, outstanding[c].p) && Granted(Contents(), outstanding[c].p);
        RunFinishClosure(outstanding[c]);
      }
      lent, stale := lent - {c}, stale - {c};
    }
  }
}
