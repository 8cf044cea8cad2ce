/**
 * The cutoff that keeps snapshots recorded before a sign-in flip from leaving
 * after it, for ids in any order, and the wait for batches already on the
 * network.
 */
module DesktopReplay {
  import opened Optional
  import opened Text

  /** A captured event; `serial` only tells captures apart, the code never sees it. */
  datatype Captured = Snapshot(uuid: string, serial: nat) | Other(serial: nat)

  datatype Data = One(event: Captured) | Many(events: seq<Captured>)

  datatype Request = Request(data: Data, beacon: bool, rateLimited: bool)

  function Codes(s: string): (r: seq<int>)
    ensures |r| == |s| && forall i :: 0 <= i < |s| ==> r[i] == s[i] as int
  {
    seq(|s|, i requires 0 <= i < |s| => s[i] as int)
  }

  /** `a < b` on strings. */
  predicate Before(a: string, b: string) {
    Less(Codes(a), Codes(b))
  }

  /** `a` ends at `i` or is smaller there, and is the same before it. */
  predicate SmallerAt(a: string, b: string, i: nat) {
    i <= |a| && i < |b| && a[..i] == b[..i] && (i == |a| || a[i] < b[i])
  }

  lemma BeforeStep(a: string, b: string)
    ensures Before(a, b) <==> b != [] && (a == [] || a[0] < b[0] || (a[0] == b[0] && Before(a[1..], b[1..])))
  {
    if a != [] && b != [] {
      assert Codes(a)[1..] == Codes(a[1..]) && Codes(b)[1..] == Codes(b[1..]);
    }
  }

  lemma {:induction false} SmallerIsBefore(a: string, b: string, i: nat)
    requires SmallerAt(a, b, i)
    ensures Before(a, b)
  {
    BeforeStep(a, b);
    if i > 0 {
      assert a[0] == a[..i][0] && b[0] == b[..i][0];
      assert a[1..][..i - 1] == a[..i][1..] && b[1..][..i - 1] == b[..i][1..];
      SmallerIsBefore(a[1..], b[1..], i - 1);
    }
  }

  lemma {:induction false} BeforeHasWitness(a: string, b: string) returns (i: nat)
    requires Before(a, b)
    ensures SmallerAt(a, b, i)
  {
    BeforeStep(a, b);
    i := 0;
    if a != [] && a[0] == b[0] {
      var j := BeforeHasWitness(a[1..], b[1..]);
      i := j + 1;
      assert a[..i] == [a[0]] + a[1..][..j] && b[..i] == [b[0]] + b[1..][..j];
    }
  }

  /** The order of strings: by the first code unit that differs, a proper prefix first. */
  lemma BeforeExactly(a: string, b: string)
    ensures Before(a, b) <==> exists i :: SmallerAt(a, b, i)
  {
    if Before(a, b) {
      var i := BeforeHasWitness(a, b);
    }
    if i :| SmallerAt(a, b, i) {
      SmallerIsBefore(a, b, i);
    }
  }

  // ----- The filter on send -----

  predicate IsDiscarded(e: Captured, cutoff: Option<string>) {
    e.Snapshot? && cutoff.Some? && !Before(cutoff.value, e.uuid)
  }

  function Kept(events: seq<Captured>, cutoff: Option<string>): seq<Captured> {
    if events == [] then []
    else (if IsDiscarded(events[0], cutoff) then [] else [events[0]]) + Kept(events[1..], cutoff)
  }

  function WithoutDiscardedSnapshots(request: Request, cutoff: Option<string>): Option<Request> {
    match request.data
    case One(e) => if IsDiscarded(e, cutoff) then None else Some(request)
    case Many(events) =>
      var kept := Kept(events, cutoff);
      if |kept| == |events| then Some(request)
      else if kept == [] then None
      else Some(request.(data := Many(kept)))
  }

  function EventsOf(data: Data): seq<Captured> {
    match data case One(e) => [e] case Many(events) => events
  }

  /** What leaves for a request: nothing, or its events without the discarded ones. */
  function Leaving(request: Request, cutoff: Option<string>): seq<Captured> {
    match WithoutDiscardedSnapshots(request, cutoff)
    case None => []
    case Some(r) => EventsOf(r.data)
  }

  lemma {:induction false} KeptConcat(a: seq<Captured>, b: seq<Captured>, cutoff: Option<string>)
    ensures Kept(a + b, cutoff) == Kept(a, cutoff) + Kept(b, cutoff)
  {
    if a == [] {
      assert a + b == b;
    } else {
      assert (a + b)[1..] == a[1..] + b;
      KeptConcat(a[1..], b, cutoff);
      var first := if IsDiscarded(a[0], cutoff) then [] else [a[0]];
      assert first + (Kept(a[1..], cutoff) + Kept(b, cutoff)) == (first + Kept(a[1..], cutoff)) + Kept(b, cutoff);
    }
  }

  lemma {:induction false} KeptMembers(events: seq<Captured>, cutoff: Option<string>)
    ensures forall e :: e in Kept(events, cutoff) <==> e in events && !IsDiscarded(e, cutoff)
    ensures |Kept(events, cutoff)| <= |events|
    ensures |Kept(events, cutoff)| == |events| ==> Kept(events, cutoff) == events
  {
    if events != [] {
      KeptMembers(events[1..], cutoff);
      assert events == [events[0]] + events[1..];
    }
  }

  /** Whatever the request's form, exactly its kept events leave, in their order. */
  lemma LeavingIsKept(request: Request, cutoff: Option<string>)
    ensures Leaving(request, cutoff) == Kept(EventsOf(request.data), cutoff)
  {
    KeptMembers(EventsOf(request.data), cutoff);
    match request.data
    case One(e) =>
      assert [e][1..] == [];
      assert Kept([e], cutoff) == if IsDiscarded(e, cutoff) then [] else [e];
    case Many(events) =>
  }

  /**
   * What is sent of a request: nothing exactly when it has events and all of them
   * are discarded; else the same request, its transport and the form of its data
   * as they were.
   */
  lemma SentExactly(request: Request, cutoff: Option<string>)
    ensures var sent := WithoutDiscardedSnapshots(request, cutoff);
      && (sent.None? <==>
          EventsOf(request.data) != [] &&
          forall e :: e in EventsOf(request.data) ==> e.Snapshot? && cutoff.Some? && !Before(cutoff.value, e.uuid))
      && (sent.Some? ==>
          && sent.value == request.(data := sent.value.data)
          && (sent.value.data.Many? <==> request.data.Many?))
  {
    KeptMembers(EventsOf(request.data), cutoff);
    if request.data.Many? {
      var kept := Kept(request.data.events, cutoff);
      if kept != [] {
        assert kept[0] in kept;
      }
    }
  }

  // ----- The state -----

  type BatchId = nat

  type WaitId = nat

  /**
   * The three variables of the module, the waits begun, each with the answers that
   * its `Promise.all` still lacks, and those resolved; and history: every capture
   * in order, how many there were at the latest discard, and the batches tracked
   * and answered.
   */
  datatype State = State(
    lastCaptured: Option<string>,
    discardedThrough: Option<string>,
    unanswered: set<BatchId>,
    waits: map<WaitId, set<BatchId>>,
    resolved: set<WaitId>,
    captures: seq<Captured>,
    flipped: nat,
    tracked: set<BatchId>,
    answered: set<BatchId>)

  const START: State := State(None, None, {}, map[], {}, [], 0, {}, {})

  function NoteCapture(last: Option<string>, e: Captured): Option<string> {
    if e.Snapshot? && (last.None? || Before(last.value, e.uuid)) then Some(e.uuid) else last
  }

  function Capture(s: State, e: Captured): State {
    s.(lastCaptured := NoteCapture(s.lastCaptured, e), captures := s.captures + [e])
  }

  function CaptureAll(s: State, events: seq<Captured>): State {
    if events == [] then s else Capture(CaptureAll(s, events[..|events| - 1]), events[|events| - 1])
  }

  /** `discardDesktopSessionReplay`: the stop flushes, that is captures, what it buffered; then the cutoff is set. */
  function Discard(s: State, flushed: seq<Captured>): State {
    var s' := CaptureAll(s, flushed);
    s'.(discardedThrough := s'.lastCaptured, flipped := |s'.captures|)
  }

  predicate WillBeAnswered(request: Request) {
    !request.beacon && !request.rateLimited
  }

  function Send(s: State, request: Request, id: BatchId): State {
    var kept := WithoutDiscardedSnapshots(request, s.discardedThrough);
    if kept.Some? && WillBeAnswered(kept.value) then
      s.(unanswered := s.unanswered + {id}, tracked := s.tracked + {id})
    else
      s
  }

  function Lacking(waits: map<WaitId, set<BatchId>>, id: BatchId): map<WaitId, set<BatchId>> {
    map w | w in waits :: waits[w] - {id}
  }

  function Answer(s: State, id: BatchId): State {
    s.(unanswered := s.unanswered - {id}, waits := Lacking(s.waits, id), answered := s.answered + {id})
  }

  /** `waitForSentDesktopReplayBatches`, which waits for the promises in the set when it is called. */
  function Wait(s: State, w: WaitId): State {
    s.(waits := s.waits[w := s.unanswered])
  }

  function Resolve(s: State, w: WaitId): State {
    s.(resolved := s.resolved + {w})
  }

  datatype Event =
    | Captures(e: Captured)
    | Discards(flushed: seq<Captured>)
    | Sends(request: Request, id: BatchId)
    | Answers(id: BatchId)
    | Waits(w: WaitId)
    | Resolves(w: WaitId)

  /**
   * Each tracked send makes a promise of its own; only a tracked batch's callback
   * can run; a wait resolves once, when it lacks no answer.
   */
  predicate Enabled(s: State, e: Event) {
    match e
    case Sends(_, id) => id !in s.tracked
    case Answers(id) => id in s.tracked
    case Waits(w) => w !in s.waits
    case Resolves(w) => w in s.waits && s.waits[w] == {} && w !in s.resolved
    case _ => true
  }

  function Step(s: State, e: Event): State {
    match e
    case Captures(c) => Capture(s, c)
    case Discards(flushed) => Discard(s, flushed)
    case Sends(request, id) => Send(s, request, id)
    case Answers(id) => Answer(s, id)
    case Waits(w) => Wait(s, w)
    case Resolves(w) => Resolve(s, w)
  }

  predicate Legal(s: State, events: seq<Event>)
    decreases events
  {
    events == [] || (Enabled(s, events[0]) && Legal(Step(s, events[0]), events[1..]))
  }

  function Run(s: State, events: seq<Event>): State
    decreases events
  {
    if events == [] then s else Run(Step(s, events[0]), events[1..])
  }

  /** No captured snapshot is above the running maximum. */
  ghost predicate LastIsLargest(s: State) {
    forall e :: e in s.captures && e.Snapshot? ==> s.lastCaptured.Some? && !Before(s.lastCaptured.value, e.uuid)
  }

  /** Everything captured up to the latest flip is at or below the cutoff. */
  ghost predicate CutoffCovers(s: State) {
    && s.flipped <= |s.captures|
    && forall e :: e in s.captures[..s.flipped] && e.Snapshot? ==> IsDiscarded(e, s.discardedThrough)
  }

  ghost predicate CutoffBelowLast(s: State) {
    s.discardedThrough.Some? ==> s.lastCaptured.Some? && !Before(s.lastCaptured.value, s.discardedThrough.value)
  }

  ghost predicate Inv(s: State) {
    && LastIsLargest(s) && CutoffCovers(s) && CutoffBelowLast(s)
    && s.unanswered == s.tracked - s.answered && s.answered <= s.tracked
  }

  /** The order on ids is total, so being not above is transitive. */
  lemma NotAboveTransitive(a: string, b: string, c: string)
    requires !Before(b, a) && !Before(c, b)
    ensures !Before(c, a)
  {
    LessTotal(Codes(a), Codes(b));
    LessTotal(Codes(b), Codes(c));
    LessTotal(Codes(c), Codes(a));
    if Before(c, a) {
      if Codes(a) != Codes(b) {
        LessTransitive(Codes(c), Codes(a), Codes(b));
      }
    }
  }

  lemma CaptureKeepsInv(s: State, e: Captured)
    requires Inv(s)
    ensures Inv(Capture(s, e))
    ensures s.lastCaptured.Some? ==>
      Capture(s, e).lastCaptured.Some? && !Before(Capture(s, e).lastCaptured.value, s.lastCaptured.value)
  {
    var s' := Capture(s, e);
    assert s'.captures[..s'.flipped] == s.captures[..s.flipped];
    if e.Snapshot? {
      LessTotal(Codes(e.uuid), Codes(e.uuid));
      if s.lastCaptured.Some? {
        LessTotal(Codes(s.lastCaptured.value), Codes(e.uuid));
      }
    }
    if s.lastCaptured.Some? {
      LessTotal(Codes(s.lastCaptured.value), Codes(s.lastCaptured.value));
      forall x | x in s.captures && x.Snapshot? ensures !Before(s'.lastCaptured.value, x.uuid) {
        NotAboveTransitive(x.uuid, s.lastCaptured.value, s'.lastCaptured.value);
      }
      if s.discardedThrough.Some? {
        NotAboveTransitive(s.discardedThrough.value, s.lastCaptured.value, s'.lastCaptured.value);
      }
    }
  }

  lemma {:induction false} CaptureAllKeepsInv(s: State, events: seq<Captured>)
    requires Inv(s)
    ensures Inv(CaptureAll(s, events))
    ensures CaptureAll(s, events).captures == s.captures + events
    ensures s == CaptureAll(s, events).(lastCaptured := s.lastCaptured, captures := s.captures)
    decreases |events|
  {
    if events != [] {
      var front := events[..|events| - 1];
      CaptureAllKeepsInv(s, front);
      CaptureKeepsInv(CaptureAll(s, front), events[|events| - 1]);
      assert events == front + [events[|events| - 1]];
    }
  }

  lemma DiscardKeepsInv(s: State, flushed: seq<Captured>)
    requires Inv(s)
    ensures Inv(Discard(s, flushed))
    ensures Discard(s, flushed).captures == s.captures + flushed
  {
    CaptureAllKeepsInv(s, flushed);
    var s1 := CaptureAll(s, flushed);
    assert s1.captures[..|s1.captures|] == s1.captures;
    if s1.lastCaptured.Some? {
      LessTotal(Codes(s1.lastCaptured.value), Codes(s1.lastCaptured.value));
    }
  }

  lemma {:induction false} RunKeepsInv(s: State, events: seq<Event>)
    requires Inv(s) && Legal(s, events)
    ensures Inv(Run(s, events))
    ensures s.captures <= Run(s, events).captures && s.flipped <= Run(s, events).flipped
    decreases events
  {
    if events != [] {
      match events[0] {
        case Captures(e) => CaptureKeepsInv(s, e);
        case Discards(flushed) => DiscardKeepsInv(s, flushed);
        case _ =>
      }
      RunKeepsInv(Step(s, events[0]), events[1..]);
    }
  }

  // ----- Results -----

  /**
   * For ids in any order: after a discard, whatever happens next, no request
   * carries out a snapshot captured up to it, the stop's own flush included.
   */
  lemma DiscardedNeverLeaves(before: seq<Event>, flushed: seq<Captured>,
      after: seq<Event>, request: Request, e: Captured)
    requires Legal(START, before)
    requires Legal(Discard(Run(START, before), flushed), after)
    requires e.Snapshot? && e in Run(START, before).captures + flushed
    ensures e !in Leaving(request, Run(Discard(Run(START, before), flushed), after).discardedThrough)
  {
    RunKeepsInv(START, before);
    var s := Discard(Run(START, before), flushed);
    DiscardKeepsInv(Run(START, before), flushed);
    RunKeepsInv(s, after);
    var s' := Run(s, after);
    LeavingIsKept(request, s'.discardedThrough);
    KeptMembers(EventsOf(request.data), s'.discardedThrough);
    var i :| 0 <= i < |s.captures| && s.captures[i] == e;
    assert s'.captures[..s'.flipped][i] == e;
  }

  /** The cutoff never goes down. */
  lemma {:induction false} CutoffNeverDecreases(s: State, events: seq<Event>)
    requires Inv(s) && Legal(s, events) && s.discardedThrough.Some?
    ensures Run(s, events).discardedThrough.Some?
    ensures !Before(Run(s, events).discardedThrough.value, s.discardedThrough.value)
    decreases events
  {
    var cutoff := s.discardedThrough.value;
    LessTotal(Codes(cutoff), Codes(cutoff));
    if events != [] {
      var s' := Step(s, events[0]);
      RunKeepsInv(s, [events[0]]);
      assert Run(s, [events[0]]) == s';
      match events[0] {
        case Discards(flushed) => DiscardRaisesCutoff(s, flushed);
        case _ =>
      }
      CutoffNeverDecreases(s', events[1..]);
      NotAboveTransitive(cutoff, s'.discardedThrough.value, Run(s', events[1..]).discardedThrough.value);
    }
  }

  lemma DiscardRaisesCutoff(s: State, flushed: seq<Captured>)
    requires Inv(s) && s.discardedThrough.Some?
    ensures Discard(s, flushed).discardedThrough.Some?
    ensures !Before(Discard(s, flushed).discardedThrough.value, s.discardedThrough.value)
  {
    CaptureAllKeepsInv(s, flushed);
    assert CutoffBelowLast(CaptureAll(s, flushed));
  }

  /** Snapshots above the cutoff and all other events leave, in order; nothing else does. */
  lemma OnlyDiscardedAreHeldBack(request: Request, cutoff: Option<string>,
      a: seq<Captured>, e: Captured, b: seq<Captured>)
    requires EventsOf(request.data) == a + [e] + b
    ensures Leaving(request, cutoff) ==
            Kept(a, cutoff)
            + (if e.Snapshot? && cutoff.Some? && !Before(cutoff.value, e.uuid) then [] else [e])
            + Kept(b, cutoff)
  {
    LeavingIsKept(request, cutoff);
    KeptAround(a, e, b, cutoff);
  }

  lemma KeptAround(a: seq<Captured>, e: Captured, b: seq<Captured>, cutoff: Option<string>)
    ensures Kept(a + [e] + b, cutoff) == Kept(a, cutoff) + Kept([e], cutoff) + Kept(b, cutoff)
    ensures Kept([e], cutoff) == if e.Snapshot? && cutoff.Some? && !Before(cutoff.value, e.uuid) then [] else [e]
  {
    KeptConcat(a + [e], b, cutoff);
    KeptConcat(a, [e], cutoff);
    assert [e][1..] == [];
  }

  /** Captured snapshots have ids in capture order: the clock was not set back. */
  ghost predicate InCaptureOrder(captures: seq<Captured>) {
    forall i, j :: 0 <= i < j < |captures| && captures[i].Snapshot? && captures[j].Snapshot? ==>
      Before(captures[i].uuid, captures[j].uuid)
  }

  /** The cutoff is itself the id of a snapshot captured up to the flip. */
  ghost predicate CutoffIsCaptured(s: State) {
    && s.flipped <= |s.captures|
    && (s.discardedThrough.Some? ==>
      exists i :: 0 <= i < s.flipped && s.captures[i].Snapshot? && s.captures[i].uuid == s.discardedThrough.value)
    && (s.lastCaptured.Some? ==>
      exists i :: 0 <= i < |s.captures| && s.captures[i].Snapshot? && s.captures[i].uuid == s.lastCaptured.value)
  }

  lemma CaptureKeepsCutoffCaptured(s: State, e: Captured)
    requires CutoffIsCaptured(s)
    ensures CutoffIsCaptured(Capture(s, e))
  {
    var s' := Capture(s, e);
    assert forall i :: 0 <= i < |s.captures| ==> s'.captures[i] == s.captures[i];
    assert s'.captures[|s.captures|] == e;
  }

  lemma {:induction false} CaptureAllKeepsCutoffCaptured(s: State, events: seq<Captured>)
    requires CutoffIsCaptured(s)
    ensures CutoffIsCaptured(CaptureAll(s, events))
    decreases |events|
  {
    if events != [] {
      CaptureAllKeepsCutoffCaptured(s, events[..|events| - 1]);
      CaptureKeepsCutoffCaptured(CaptureAll(s, events[..|events| - 1]), events[|events| - 1]);
    }
  }

  lemma {:induction false} RunKeepsCutoffCaptured(s: State, events: seq<Event>)
    requires CutoffIsCaptured(s)
    ensures CutoffIsCaptured(Run(s, events))
    decreases events
  {
    if events != [] {
      match events[0] {
        case Captures(e) => CaptureKeepsCutoffCaptured(s, e);
        case Discards(flushed) => CaptureAllKeepsCutoffCaptured(s, flushed);
        case _ =>
      }
      RunKeepsCutoffCaptured(Step(s, events[0]), events[1..]);
    }
  }

  /**
   * Without a clock rollback the cutoff is exact: a snapshot is held back if and only
   * if it was captured before the latest flip.
   */
  lemma HeldBackExactlyWhenCapturedBefore(events: seq<Event>, i: nat)
    requires Legal(START, events)
    requires i < |Run(START, events).captures| && Run(START, events).captures[i].Snapshot?
    requires InCaptureOrder(Run(START, events).captures)
    ensures IsDiscarded(Run(START, events).captures[i], Run(START, events).discardedThrough) <==>
      i < Run(START, events).flipped
  {
    RunKeepsInv(START, events);
    RunKeepsCutoffCaptured(START, events);
    var s := Run(START, events);
    if i < s.flipped {
      assert s.captures[..s.flipped][i] == s.captures[i];
    } else if s.discardedThrough.Some? {
      var j :| 0 <= j < s.flipped && s.captures[j].Snapshot? && s.captures[j].uuid == s.discardedThrough.value;
      assert Before(s.captures[j].uuid, s.captures[i].uuid);
    }
  }

  /**
   * The send put a batch on the network that will be answered: not all of it was
   * discarded, and neither a beacon nor a rate limit.
   */
  predicate PutsOnNetwork(s: State, e: Event, id: BatchId) {
    && e.Sends? && e.id == id && !e.request.beacon && !e.request.rateLimited
    && (EventsOf(e.request.data) == [] || Leaving(e.request, s.discardedThrough) != [])
  }

  /** Some send of the run, in the state it met, put this batch on the network. */
  predicate WasSent(s: State, events: seq<Event>, id: BatchId)
    decreases events
  {
    events != [] && (PutsOnNetwork(s, events[0], id) || WasSent(Step(s, events[0]), events[1..], id))
  }

  predicate WasAnswered(events: seq<Event>, id: BatchId) {
    Answers(id) in events
  }

  /** A batch is in flight exactly when some send put it on the network and no answer has come. */
  lemma InFlightExactly(events: seq<Event>, id: BatchId)
    requires Legal(START, events)
    ensures id in Run(START, events).unanswered <==> WasSent(START, events, id) && !WasAnswered(events, id)
  {
    RunKeepsInv(START, events);
    TrackedExactly(START, events, id);
  }

  lemma {:induction false} TrackedExactly(s: State, events: seq<Event>, id: BatchId)
    requires Legal(s, events)
    ensures id in Run(s, events).tracked <==> id in s.tracked || WasSent(s, events, id)
    ensures id in Run(s, events).answered <==> id in s.answered || WasAnswered(events, id)
    decreases events
  {
    if events != [] {
      var e := events[0];
      assert events == [e] + events[1..];
      TrackedStep(s, e, id);
      TrackedExactly(Step(s, e), events[1..], id);
    }
  }

  lemma TrackedStep(s: State, e: Event, id: BatchId)
    ensures id in Step(s, e).tracked <==> id in s.tracked || PutsOnNetwork(s, e, id)
    ensures id in Step(s, e).answered <==> id in s.answered || e == Answers(id)
  {
    match e {
      case Sends(request, _) => LeavingIsKept(request, s.discardedThrough);
      case Discards(flushed) => CaptureAllKeepsTracked(s, flushed);
      case _ =>
    }
  }

  lemma {:induction false} CaptureAllKeepsTracked(s: State, events: seq<Captured>)
    ensures CaptureAll(s, events).tracked == s.tracked && CaptureAll(s, events).answered == s.answered
    ensures CaptureAll(s, events).waits == s.waits && CaptureAll(s, events).resolved == s.resolved
    decreases |events|
  {
    if events != [] {
      CaptureAllKeepsTracked(s, events[..|events| - 1]);
    }
  }

  // ----- The wait -----

  /** A resolved wait lacks no answer. */
  predicate ResolvedOk(s: State) {
    forall w :: w in s.resolved ==> w in s.waits && s.waits[w] == {}
  }

  lemma WaitStep(s: State, e: Event, w: WaitId)
    requires Enabled(s, e) && w in s.waits
    ensures w in Step(s, e).waits
    ensures Step(s, e).waits[w] == if e.Answers? then s.waits[w] - {e.id} else s.waits[w]
  {
    if e.Discards? {
      CaptureAllKeepsTracked(s, e.flushed);
    }
  }

  lemma StepKeepsResolved(s: State, e: Event)
    requires Enabled(s, e) && ResolvedOk(s)
    ensures ResolvedOk(Step(s, e))
  {
    if e.Discards? {
      CaptureAllKeepsTracked(s, e.flushed);
    }
  }

  lemma {:induction false} RunKeepsResolved(s: State, events: seq<Event>)
    requires Legal(s, events) && ResolvedOk(s)
    ensures ResolvedOk(Run(s, events))
    decreases events
  {
    if events != [] {
      StepKeepsResolved(s, events[0]);
      RunKeepsResolved(Step(s, events[0]), events[1..]);
    }
  }

  /** A wait lacks what it lacked and has not been answered since. */
  lemma {:induction false} WaitLacks(s: State, events: seq<Event>, w: WaitId, id: BatchId)
    requires Legal(s, events) && w in s.waits
    ensures w in Run(s, events).waits
    ensures id in Run(s, events).waits[w] <==> id in s.waits[w] && !WasAnswered(events, id)
    decreases events
  {
    if events != [] {
      var e := events[0];
      assert events == [e] + events[1..];
      WaitStep(s, e, w);
      WaitLacks(Step(s, e), events[1..], w, id);
    }
  }

  /** The wait has resolved, or can now. */
  predicate Over(s: State, w: WaitId) {
    w in s.resolved || Enabled(s, Resolves(w))
  }

  /**
   * A wait begun after `before` is over exactly when every batch that a send had put
   * on the network by then, and that was not answered by then, has been answered
   * since; batches sent later do not hold it.
   */
  lemma WaitResolvesExactly(before: seq<Event>, w: WaitId, after: seq<Event>)
    requires Legal(START, before) && Enabled(Run(START, before), Waits(w))
    requires Legal(Step(Run(START, before), Waits(w)), after)
    ensures Over(Run(Step(Run(START, before), Waits(w)), after), w) <==>
      forall id :: WasSent(START, before, id) && !WasAnswered(before, id) ==> WasAnswered(after, id)
  {
    var s := Step(Run(START, before), Waits(w));
    RunKeepsResolved(START, before);
    RunKeepsResolved(s, after);
    forall id
      ensures w in Run(s, after).waits
      ensures id in Run(s, after).waits[w] <==>
        WasSent(START, before, id) && !WasAnswered(before, id) && !WasAnswered(after, id)
    {
      InFlightExactly(before, id);
      WaitLacks(s, after, w, id);
    }
    WaitLacks(s, after, w, 0);
    OverExactly(Run(s, after), w);
    var lacks := Run(s, after).waits[w];
    if lacks != {} {
      var id :| id in lacks;
      assert WasSent(START, before, id) && !WasAnswered(before, id) && !WasAnswered(after, id);
    }
  }

  /** A wait has resolved exactly when it took that step. */
  lemma {:induction false} ResolvedExactly(s: State, events: seq<Event>, w: WaitId)
    ensures w in Run(s, events).resolved <==> w in s.resolved || Resolves(w) in events
    decreases events
  {
    if events != [] {
      ResolvedExactly(Step(s, events[0]), events[1..], w);
      assert events == [events[0]] + events[1..];
      if events[0].Discards? {
        CaptureAllKeepsTracked(s, events[0].flushed);
      }
    }
  }

  lemma OverExactly(s: State, w: WaitId)
    requires ResolvedOk(s) && w in s.waits
    ensures Over(s, w) <==> s.waits[w] == {}
  {
  }

  // ----- The module's variables, updated in place -----

  class Replay {
    var lastCapturedSnapshotUuid: Option<string>
    var discardedThroughUuid: Option<string>
    var unansweredBatches: set<BatchId>
    /** What each `Promise.all` still lacks. */
    var waits: map<WaitId, set<BatchId>>
    ghost var resolved: set<WaitId>
    ghost var captures: seq<Captured>
    ghost var flipped: nat
    ghost var tracked: set<BatchId>
    ghost var answered: set<BatchId>

    ghost function Contents(): State
      reads this
    {
      State(lastCapturedSnapshotUuid, discardedThroughUuid, unansweredBatches, waits, resolved, captures, flipped,
            tracked, answered)
    }

    constructor ()
      ensures Contents() == START
    {
      lastCapturedSnapshotUuid, discardedThroughUuid, unansweredBatches := None, None, {};
      waits, resolved := map[], {};
      captures, flipped, tracked, answered := [], 0, {}, {};
    }

    /** The `eventCaptured` listener. */
    method OnEventCaptured(e: Captured)
      modifies this
      ensures Contents() == Capture(old(Contents()), e)
    {
      if e.Snapshot? && (lastCapturedSnapshotUuid.None? || Before(lastCapturedSnapshotUuid.value, e.uuid)) {
        lastCapturedSnapshotUuid := Some(e.uuid);
      }
      captures := captures + [e];
    }

    /** `discardDesktopSessionReplay`; stopping captures `flushed` through the listener. */
    method DiscardReplay(loaded: bool, flushed: seq<Captured>)
      modifies this
      ensures Contents() == if loaded then Discard(old(Contents()), flushed) else old(Contents())
    {
      if !loaded {
        return;
      }
      for i := 0 to |flushed|
        invariant Contents() == CaptureAll(old(Contents()), flushed[..i])
      {
        assert flushed[..i + 1][..i] == flushed[..i];
        OnEventCaptured(flushed[i]);
      }
      assert flushed[..|flushed|] == flushed;
      discardedThroughUuid := lastCapturedSnapshotUuid;
      flipped := |captures|;
    }

    /** The wrapped `_send_request`. */
    method SendRequest(request: Request, id: BatchId) returns (sent: Option<Request>)
      modifies this
      ensures Contents() == Send(old(Contents()), request, id)
      ensures sent == WithoutDiscardedSnapshots(request, old(discardedThroughUuid))
    {
      sent := WithoutDiscardedSnapshots(request, discardedThroughUuid);
      if sent.Some? && WillBeAnswered(sent.value) {
        unansweredBatches := unansweredBatches + {id};
        tracked := tracked + {id};
      }
    }

    method OnAnswer(id: BatchId)
      modifies this
      ensures Contents() == Answer(old(Contents()), id)
    {
      unansweredBatches := unansweredBatches - {id};
      waits := Lacking(waits, id);
      answered := answered + {id};
    }

    /** `waitForSentDesktopReplayBatches` */
    method WaitForSentBatches(w: WaitId)
      modifies this`waits
      ensures Contents() == Wait(old(Contents()), w)
    {
      waits := waits[w := unansweredBatches];
    }
  }
}
