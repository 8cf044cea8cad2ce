/**
 * Which budget a connect is charged to. Work is a tree: connects, scopes opened
 * with `withDbAcquisitionBudget`, and detached work, which runs later but keeps
 * the async context it was created in.
 */
module BudgetScopes {
  import opened Optional
  import P = PermitBinding

  type BudgetId = P.BudgetId

  /** `budget` is the one a scope brings or would create. */
  datatype Work = Connect | Scope(budget: BudgetId, body: seq<Work>) | Detached(body: seq<Work>)

  /** The ambient budget each connect sees, in order; a scope joins the ambient one if there is one. */
  function Charges(work: seq<Work>, ambient: Option<BudgetId>): seq<Option<BudgetId>>
    decreases work
  {
    if work == [] then []
    else
      (match work[0]
       case Connect => [ambient]
       case Scope(b, body) => Charges(body, if ambient.Some? then ambient else Some(b))
       case Detached(body) => Charges(body, ambient))
      + Charges(work[1..], ambient)
  }

  /** The scopes around each connect, outermost first. */
  function Enclosing(work: seq<Work>, outer: seq<BudgetId>): seq<seq<BudgetId>>
    decreases work
  {
    if work == [] then []
    else
      (match work[0]
       case Connect => [outer]
       case Scope(b, body) => Enclosing(body, outer + [b])
       case Detached(body) => Enclosing(body, outer))
      + Enclosing(work[1..], outer)
  }

  function Outermost(scopes: seq<BudgetId>): Option<BudgetId> {
    if scopes == [] then None else Some(scopes[0])
  }

  /** Every connect is charged to its outermost scope, and to none outside all scopes. */
  lemma {:induction false} ChargedToOutermost(work: seq<Work>, outer: seq<BudgetId>)
    ensures |Charges(work, Outermost(outer))| == |Enclosing(work, outer)|
    ensures forall i :: 0 <= i < |Enclosing(work, outer)| ==>
      Charges(work, Outermost(outer))[i] == Outermost(Enclosing(work, outer)[i])
    decreases work
  {
    if work != [] {
      ChargedToOutermost(work[1..], outer);
      match work[0] {
        case Connect =>
        case Scope(b, body) =>
          assert Outermost(outer + [b]) == if Outermost(outer).Some? then Outermost(outer) else Some(b);
          ChargedToOutermost(body, outer + [b]);
        case Detached(body) => ChargedToOutermost(body, outer);
      }
    }
  }

  // ----- Gating a pool -----

  /** A pool's `connect`: its own, or a gate around another. */
  datatype Connector = Own | Gate(inner: Connector)

  /** A pool with its registered-symbol stamp. */
  datatype Pool = Pool(gated: bool, connect: Connector)

  const UNGATED: Pool := Pool(false, Own)

  /** `gateDbAcquisitions` */
  function Gated(pool: Pool): Pool {
    if pool.gated then pool else Pool(true, Gate(pool.connect))
  }

  function GatedTimes(pool: Pool, n: nat): Pool
    decreases n
  {
    if n == 0 then pool else GatedTimes(Gated(pool), n - 1)
  }

  /** The budgets on which one connect calls `acquirePermit`, in order; each gate asks for the ambient one. */
  function Calls(connect: Connector, ambient: Option<BudgetId>): seq<BudgetId> {
    match connect
    case Own => []
    case Gate(inner) => (if ambient.None? then [] else [ambient.value]) + Calls(inner, ambient)
  }

  /** The calls of all the connects of a tree, made through `connect`. */
  function TreeCalls(work: seq<Work>, connect: Connector, ambient: Option<BudgetId>): seq<BudgetId>
    decreases work
  {
    if work == [] then []
    else
      (match work[0]
       case Connect => Calls(connect, ambient)
       case Scope(b, body) => TreeCalls(body, connect, if ambient.Some? then ambient else Some(b))
       case Detached(body) => TreeCalls(body, connect, ambient))
      + TreeCalls(work[1..], connect, ambient)
  }

  /** The charges that there are. */
  function Charged(charges: seq<Option<BudgetId>>): seq<BudgetId> {
    if charges == [] then []
    else (if charges[0].None? then [] else [charges[0].value]) + Charged(charges[1..])
  }

  lemma {:induction false} ChargedConcat(a: seq<Option<BudgetId>>, b: seq<Option<BudgetId>>)
    ensures Charged(a + b) == Charged(a) + Charged(b)
  {
    if a == [] {
      assert a + b == b;
    } else {
      assert (a + b)[1..] == a[1..] + b;
      ChargedConcat(a[1..], b);
    }
  }

  lemma {:induction false} StampedStays(pool: Pool, n: nat)
    requires pool.gated
    ensures GatedTimes(pool, n) == pool
    decreases n
  {
    if n > 0 {
      StampedStays(pool, n - 1);
    }
  }

  lemma OneGateOneCall(ambient: Option<BudgetId>)
    ensures Calls(Gate(Own), ambient) == Charged([ambient])
  {
    assert [ambient][1..] == [];
    assert Calls(Own, ambient) == Charged([]);
  }

  lemma {:induction false} OneGateCalls(work: seq<Work>, ambient: Option<BudgetId>)
    ensures TreeCalls(work, Gate(Own), ambient) == Charged(Charges(work, ambient))
    decreases work
  {
    if work != [] {
      OneGateCalls(work[1..], ambient);
      var rest := Charges(work[1..], ambient);
      match work[0] {
        case Connect =>
          ChargedConcat([ambient], rest);
          OneGateOneCall(ambient);
        case Scope(b, body) =>
          var joined := if ambient.Some? then ambient else Some(b);
          OneGateCalls(body, joined);
          ChargedConcat(Charges(body, joined), rest);
        case Detached(body) =>
          OneGateCalls(body, ambient);
          ChargedConcat(Charges(body, ambient), rest);
      }
    }
  }

  /**
   * However often a pool is gated, each connect of a tree makes exactly one call,
   * at the budget it is charged to, and none outside all scopes.
   */
  lemma OneCallPerConnect(work: seq<Work>, n: nat)
    requires n >= 1
    ensures TreeCalls(work, GatedTimes(UNGATED, n).connect, None) == Charged(Charges(work, None))
  {
    StampedStays(Gated(UNGATED), n - 1);
    OneGateCalls(work, None);
  }

  // ----- One ceiling for a tree -----

  /** All work is in scopes, and the outermost ones bring `b`: one scope, or siblings that are given the same budget. */
  predicate AllUnder(work: seq<Work>, b: BudgetId)
    decreases work
  {
    work == [] ||
    (&& (match work[0]
         case Connect => false
         case Scope(c, _) => c == b
         case Detached(body) => AllUnder(body, b))
     && AllUnder(work[1..], b))
  }

  lemma {:induction false} AmbientIsKept(work: seq<Work>, b: BudgetId)
    ensures forall c :: c in Charges(work, Some(b)) ==> c == Some(b)
    decreases work
  {
    if work != [] {
      AmbientIsKept(work[1..], b);
      match work[0] {
        case Connect =>
        case Scope(_, body) => AmbientIsKept(body, b);
        case Detached(body) => AmbientIsKept(body, b);
      }
    }
  }

  /** Such work spends that one budget and no other. */
  lemma {:induction false} OneBudgetForTheTree(work: seq<Work>, b: BudgetId)
    requires AllUnder(work, b)
    ensures forall c :: c in Charges(work, None) ==> c == Some(b)
    decreases work
  {
    if work != [] {
      OneBudgetForTheTree(work[1..], b);
      match work[0] {
        case Connect =>
        case Scope(_, body) => AmbientIsKept(body, b);
        case Detached(body) => OneBudgetForTheTree(body, b);
      }
    }
  }

  lemma {:induction false} ChargedMember(charges: seq<Option<BudgetId>>, b: BudgetId)
    ensures b in Charged(charges) <==> Some(b) in charges
  {
    if charges != [] {
      ChargedMember(charges[1..], b);
      assert forall c :: c in charges <==> c == charges[0] || c in charges[1..];
    }
  }

  /** The budgets of the calls in a run of the pool. */
  function CalledBudgets(events: seq<P.Event>): seq<BudgetId> {
    if events == [] then []
    else (if events[0].Called? then [events[0].p.budget] else []) + CalledBudgets(events[1..])
  }

  lemma {:induction false} CalledMember(events: seq<P.Event>, p: P.Permit)
    requires P.Called(p) in events
    ensures p.budget in CalledBudgets(events)
  {
    if events[0] != P.Called(p) {
      CalledMember(events[1..], p);
    }
  }

  /** The run makes no call but those of the tree, each at most once; they may come in any order and overlap. */
  ghost predicate RunsTree(events: seq<P.Event>, calls: seq<BudgetId>) {
    multiset(CalledBudgets(events)) <= multiset(calls)
  }

  /**
   * The ceiling: in every run of a pool gated any number of times whose calls are
   * connects of the tree, the clients out under permits, of whatever budget, are no
   * more than the limit the outermost scope was opened with; there are none if it
   * never was.
   */
  lemma OneCeilingForTheTree(work: seq<Work>, b: BudgetId, n: nat, events: seq<P.Event>, out: set<P.Client>)
    requires AllUnder(work, b) && n >= 1 && P.Legal(P.FRESH, events)
    requires RunsTree(events, TreeCalls(work, GatedTimes(UNGATED, n).connect, None))
    requires forall c :: c in out ==> exists p :: P.Out(events, c, p)
    ensures forall limit :: P.ScopeOpened(b, limit) in events ==>
      && (limit.NotFinite? ==> |out| <= 5)
      && (limit.Finite? && limit.value < 1.0 ==> |out| <= 1)
      && (limit.Finite? && limit.value >= 1.0 ==> |out| as real <= limit.value)
    ensures (forall limit :: P.ScopeOpened(b, limit) !in events) ==> out == {}
  {
    forall c | c in out
      ensures exists p: P.Permit :: p.budget == b && P.Out(events, c, p)
      ensures exists limit :: P.ScopeOpened(b, limit) in events
    {
      var p :| P.Out(events, c, p);
      P.LentExactly(events, c, p);
      P.LentWasCalled(events, c, p);
      CalledMember(events, p);
      CallsAreCharged(work, b, n, events, p.budget);
      P.BudgetWasOpened(P.FRESH, events, b);
    }
    forall limit | P.ScopeOpened(b, limit) in events
      ensures limit.NotFinite? ==> |out| <= 5
      ensures limit.Finite? && limit.value < 1.0 ==> |out| <= 1
      ensures limit.Finite? && limit.value >= 1.0 ==> |out| as real <= limit.value
    {
      P.CheckoutsNeverExceedLimit(events, b, limit, out);
    }
  }

  lemma CallsAreCharged(work: seq<Work>, b: BudgetId, n: nat, events: seq<P.Event>, called: BudgetId)
    requires AllUnder(work, b) && n >= 1 && called in CalledBudgets(events)
    requires RunsTree(events, TreeCalls(work, GatedTimes(UNGATED, n).connect, None))
    ensures called == b
  {
    var calls := TreeCalls(work, GatedTimes(UNGATED, n).connect, None);
    assert called in multiset(CalledBudgets(events)) && called in multiset(calls);
    OneCallPerConnect(work, n);
    ChargedMember(Charges(work, None), called);
    OneBudgetForTheTree(work, b);
  }

  /** A pool as the source has it: an object whose `connect` is replaced in place. */
  class PoolObject {
    var gated: bool
    var connect: Connector

    function Contents(): Pool
      reads this
    {
      Pool(gated, connect)
    }

    /** The stamp tells whether there is a gate, and there is never a second one. */
    predicate Valid()
      reads this
    {
      connect == if gated then Gate(Own) else Own
    }

    constructor ()
      ensures Valid() && Contents() == UNGATED
    {
      gated, connect := false, Own;
    }

    /**
     * After any number of gatings a connect in a scope calls for one permit, on the
     * ambient budget, and one outside for none.
     */
    method GateDbAcquisitions()
      requires Valid()
      modifies this
      ensures Valid() && Contents() == Gated(old(Contents()))
      ensures forall ambient :: Calls(connect, ambient) == if ambient.None? then [] else [ambient.value]
    {
      if !gated {
        gated := true;
        connect := Gate(connect);
      }
      assert forall ambient :: Calls(Own, ambient) == [];
    }
  }
}
