/**
 * Copy-append of a transcript object: a multipart upload whose part 1 is a
 * server-side copy of the current object under its ETag and whose other parts
 * are the new bytes, completed under the same ETag or, since `ifMatchEtag` is
 * optional, under another or none. Any number of uploads and plain writes
 * interleave; S3 is one versioned object and its open uploads.
 */
module TranscriptAppend {
  import opened Optional
  import opened Sequences

  type Etag = string
  type Bytes = seq<int>
  type UploadId = nat

  datatype Part = Part(etag: Etag, bytes: Bytes)

  /** A part named in a completion request. */
  datatype CompletedPart = CompletedPart(partNumber: nat, etag: Etag)

  /** What an upload is for: appending to the object seen under `planned`, or writing it afresh. */
  datatype Kind = Append(planned: Etag) | Rewrite

  datatype Upload = Upload(kind: Kind, parts: map<nat, Part>, open: bool)

  datatype Object = Object(etag: Etag, bytes: Bytes)

  /** One change of the object that took effect. */
  datatype Commit = Replaced(bytes: Bytes) | Appended(u: UploadId, delta: Bytes) | Deleted

  /** `seen` is history: every ETag S3 has given the object, with the bytes it stood for. */
  datatype State = State(
    current: Option<Object>,
    seen: map<Etag, Bytes>,
    uploads: map<UploadId, Upload>,
    log: seq<Commit>)

  datatype Reply = Done | PreconditionFailed | NoSuchUpload | InvalidPart | InvalidPartOrder

  // ----- Ordering the parts -----

  /** Where a stable sort puts `p` in front of already sorted parts. */
  function Insert(p: CompletedPart, sorted: seq<CompletedPart>): seq<CompletedPart> {
    if sorted == [] || p.partNumber <= sorted[0].partNumber then [p] + sorted
    else [sorted[0]] + Insert(p, sorted[1..])
  }

  /** `[...parts].sort((a, b) => a.partNumber - b.partNumber)` */
  function Sorted(parts: seq<CompletedPart>): seq<CompletedPart> {
    if parts == [] then [] else Insert(parts[0], Sorted(parts[1..]))
  }

  predicate Ascending(parts: seq<CompletedPart>) {
    parts == [] || ((forall q :: q in parts[1..] ==> parts[0].partNumber < q.partNumber) && Ascending(parts[1..]))
  }

  predicate NumbersDiffer(parts: seq<CompletedPart>) {
    parts == [] || ((forall q :: q in parts[1..] ==> parts[0].partNumber != q.partNumber) && NumbersDiffer(parts[1..]))
  }

  lemma {:induction false} InsertMembers(p: CompletedPart, sorted: seq<CompletedPart>)
    ensures forall q :: q in Insert(p, sorted) <==> q == p || q in sorted
  {
    if sorted != [] && p.partNumber > sorted[0].partNumber {
      InsertMembers(p, sorted[1..]);
    }
  }

  lemma {:induction false} InsertAscending(p: CompletedPart, sorted: seq<CompletedPart>)
    ensures Ascending(Insert(p, sorted)) <==>
      Ascending(sorted) && forall q :: q in sorted ==> q.partNumber != p.partNumber
  {
    if sorted == [] {
    } else if p.partNumber <= sorted[0].partNumber {
      assert ([p] + sorted)[1..] == sorted;
      assert sorted[0] in sorted;
    } else {
      InsertAscending(p, sorted[1..]);
      InsertMembers(p, sorted[1..]);
      assert Insert(p, sorted)[1..] == Insert(p, sorted[1..]);
      assert forall q :: q in sorted <==> q == sorted[0] || q in sorted[1..];
    }
  }

  /** Sorting keeps the parts; the result is strictly ascending exactly when no number repeats. */
  lemma {:induction false} SortedKeeps(parts: seq<CompletedPart>)
    ensures forall q :: q in Sorted(parts) <==> q in parts
    ensures Ascending(Sorted(parts)) <==> NumbersDiffer(parts)
  {
    if parts != [] {
      SortedKeeps(parts[1..]);
      InsertMembers(parts[0], Sorted(parts[1..]));
      InsertAscending(parts[0], Sorted(parts[1..]));
      assert forall q :: q in parts <==> q == parts[0] || q in parts[1..];
    }
  }

  lemma {:induction false} AscendingIsUnique(a: seq<CompletedPart>, b: seq<CompletedPart>)
    requires Ascending(a) && Ascending(b) && forall q :: q in a <==> q in b
    ensures a == b
  {
    assert a != [] ==> a[0] in a;
    assert b != [] ==> b[0] in b;
    if a != [] {
      assert a[0] == b[0];
      assert a == [a[0]] + a[1..] && b == [b[0]] + b[1..];
      assert forall q :: q in a[1..] <==> q in a && q != a[0];
      assert forall q :: q in b[1..] <==> q in b && q != b[0];
      AscendingIsUnique(a[1..], b[1..]);
    }
  }

  // ----- What S3 does -----

  /** Every named part is there with the ETag named for it. */
  predicate PartsPresent(parts: map<nat, Part>, named: seq<CompletedPart>) {
    forall p :: p in named ==> p.partNumber in parts && parts[p.partNumber].etag == p.etag
  }

  function Assembled(parts: map<nat, Part>, named: seq<CompletedPart>): Bytes
    requires PartsPresent(parts, named)
  {
    if named == [] then [] else
      assert named[0] in named;
      parts[named[0].partNumber].bytes + Assembled(parts, named[1..])
  }

  /** `x-amz-copy-source-if-match` and `If-Match`: the current object has this ETag. */
  predicate Matches(s: State, etag: Etag) {
    s.current.Some? && s.current.value.etag == etag
  }

  /** A conditional header is sent only for a truthy ETag. */
  predicate GuardHolds(s: State, ifMatch: Option<Etag>) {
    ifMatch.Some? && ifMatch.value != "" ==> Matches(s, ifMatch.value)
  }

  function WithPart(s: State, u: UploadId, n: nat, part: Part): State
    requires u in s.uploads
  {
    s.(uploads := s.uploads[u := s.uploads[u].(parts := s.uploads[u].parts[n := part])])
  }

  predicate Open(s: State, u: UploadId) {
    u in s.uploads && s.uploads[u].open
  }

  /** `copyTranscriptPart`: a server-side copy of the object, if it still has the ETag. */
  function CopyTranscriptPart(s: State, u: UploadId, n: nat, ifMatchEtag: Etag, partEtag: Etag): (State, Reply) {
    if !Open(s, u) then (s, NoSuchUpload)
    else if !Matches(s, ifMatchEtag) then (s, PreconditionFailed)
    else (WithPart(s, u, n, Part(partEtag, s.current.value.bytes)), Done)
  }

  function UploadPart(s: State, u: UploadId, n: nat, part: Part): (State, Reply) {
    if !Open(s, u) then (s, NoSuchUpload) else (WithPart(s, u, n, part), Done)
  }

  /** The refusals of a completion, and the bytes it would make the object. */
  function CompletionReply(s: State, u: UploadId, supplied: seq<CompletedPart>, ifMatch: Option<Etag>): Reply {
    if !Open(s, u) then NoSuchUpload
    else if supplied == [] || !PartsPresent(s.uploads[u].parts, Sorted(supplied)) then InvalidPart
    else if !Ascending(Sorted(supplied)) then InvalidPartOrder
    else if !GuardHolds(s, ifMatch) then PreconditionFailed
    else Done
  }

  function CompletedBytes(s: State, u: UploadId, supplied: seq<CompletedPart>): Bytes
    requires u in s.uploads && PartsPresent(s.uploads[u].parts, Sorted(supplied))
  {
    Assembled(s.uploads[u].parts, Sorted(supplied))
  }

  /** The appender's own bytes among the supplied parts: all but the copied part 1. */
  function Delta(s: State, u: UploadId, supplied: seq<CompletedPart>): Bytes
    requires u in s.uploads && PartsPresent(s.uploads[u].parts, Sorted(supplied)) && supplied != []
  {
    Assembled(s.uploads[u].parts, Sorted(supplied)[1..])
  }

  /** `completeTranscriptMultipartUpload` */
  function CompleteUpload(s: State, u: UploadId, supplied: seq<CompletedPart>, ifMatch: Option<Etag>, etag: Etag)
    : (State, Reply)
  {
    var reply := CompletionReply(s, u, supplied, ifMatch);
    if reply != Done then (s, reply)
    else
      var bytes := CompletedBytes(s, u, supplied);
      var commit := if s.uploads[u].kind.Append? then Appended(u, Delta(s, u, supplied)) else Replaced(bytes);
      (Written(s.(uploads := s.uploads[u := s.uploads[u].(open := false)]), Object(etag, bytes), commit), Done)
  }

  /** The object written, and the change logged. */
  function Written(s: State, object0: Object, commit: Commit): State {
    s.(current := Some(object0), seen := s.seen[object0.etag := object0.bytes], log := s.log + [commit])
  }

  // ----- Interleaved programs -----

  datatype Event =
    | Create(u: UploadId, kind: Kind)
    | CopyPart(u: UploadId, partEtag: Etag)
    | PutPart(u: UploadId, n: nat, part: Part)
    | Complete(u: UploadId, supplied: seq<CompletedPart>, ifMatch: Option<Etag>, etag: Etag)
    | Abort(u: UploadId)
    | PutObject(bytes: Bytes, etag: Etag)
    | DeleteObject

  /** S3 names an object with a non-empty ETag, and never gives one ETag to two different contents. */
  predicate EtagOk(s: State, etag: Etag, bytes: Bytes) {
    etag != "" && (etag in s.seen ==> s.seen[etag] == bytes)
  }

  /** Part numbers start at one, and part 1, the copy, is among those named. */
  predicate NamesCopy(supplied: seq<CompletedPart>) {
    (forall p :: p in supplied ==> p.partNumber >= 1) && exists p :: p in supplied && p.partNumber == 1
  }

  /**
   * The steps an upload's own program takes: an appender copies into part 1 and
   * only there, uploads its new bytes as later parts, and names part 1 when it
   * completes.
   */
  predicate Enabled(s: State, e: Event) {
    match e
    case Create(u, _) => u !in s.uploads
    case CopyPart(u, _) => u in s.uploads && s.uploads[u].kind.Append?
    case PutPart(u, n, _) => u in s.uploads && n >= 1 && (s.uploads[u].kind.Append? ==> n >= 2)
    case Complete(u, supplied, ifMatch, etag) =>
      && u in s.uploads
      && (s.uploads[u].kind.Append? ==> NamesCopy(supplied))
      && (CompletionReply(s, u, supplied, ifMatch) == Done ==> EtagOk(s, etag, CompletedBytes(s, u, supplied)))
    case Abort(u) => u in s.uploads
    case PutObject(bytes, etag) => EtagOk(s, etag, bytes)
    case DeleteObject => true
  }

  function Step(s: State, e: Event): State
    requires Enabled(s, e)
  {
    match e
    case Create(u, kind) => s.(uploads := s.uploads[u := Upload(kind, map[], true)])
    case CopyPart(u, partEtag) => CopyTranscriptPart(s, u, 1, s.uploads[u].kind.planned, partEtag).0
    case PutPart(u, n, part) => UploadPart(s, u, n, part).0
    case Complete(u, supplied, ifMatch, etag) => CompleteUpload(s, u, supplied, ifMatch, etag).0
    case Abort(u) => s.(uploads := s.uploads[u := s.uploads[u].(open := false)])
    case PutObject(bytes, etag) => Written(s, Object(etag, bytes), Replaced(bytes))
    case DeleteObject => s.(current := None, log := s.log + [Deleted])
  }

  predicate Legal(s: State, events: seq<Event>)
    decreases events
  {
    events == [] || (Enabled(s, events[0]) && Legal(Step(s, events[0]), events[1..]))
  }

  function Run(s: State, events: seq<Event>): State
    requires Legal(s, events)
    decreases events
  {
    if events == [] then s else Run(Step(s, events[0]), events[1..])
  }

  /** The object as the log of committed changes says it should be. */
  function Replay(log: seq<Commit>): Option<Bytes> {
    if log == [] then None
    else
      match log[|log| - 1]
      case Replaced(bytes) => Some(bytes)
      case Deleted => None
      case Appended(_, delta) =>
        var before := Replay(log[..|log| - 1]);
        if before.None? then None else Some(before.value + delta)
  }

  /** `etag` was given to an object of these bytes. */
  predicate Stands(s: State, etag: Etag, bytes: Bytes) {
    etag != "" && etag in s.seen && s.seen[etag] == bytes
  }

  /** Held by every run, guarded or not: an appender's part 1 is what its planned ETag stands for. */
  ghost predicate Inv(s: State) {
    && (s.current.Some? ==> Stands(s, s.current.value.etag, s.current.value.bytes))
    && (forall u :: u in s.uploads && s.uploads[u].kind.Append? && 1 in s.uploads[u].parts ==>
          Stands(s, s.uploads[u].kind.planned, s.uploads[u].parts[1].bytes))
  }

  /** The object is the one that the logged changes, in their order, describe. */
  predicate Logged(s: State) {
    Replay(s.log) == if s.current.Some? then Some(s.current.value.bytes) else None
  }

  lemma ReplayAppend(log: seq<Commit>, c: Commit)
    ensures Replay(log + [c]) ==
            if c.Replaced? then Some(c.bytes)
            else if c.Deleted? || Replay(log).None? then None
            else Some(Replay(log).value + c.delta)
  {
    assert (log + [c])[..|log|] == log;
  }

  /** Part 1 sorts to the front, so a completed append is the copied bytes followed by the delta. */
  lemma AppendIsCopyThenDelta(s: State, u: UploadId, supplied: seq<CompletedPart>, ifMatch: Option<Etag>)
    requires CompletionReply(s, u, supplied, ifMatch) == Done
    requires NamesCopy(supplied)
    ensures 1 in s.uploads[u].parts
    ensures CompletedBytes(s, u, supplied) == s.uploads[u].parts[1].bytes + Delta(s, u, supplied)
  {
    SortedKeeps(supplied);
    var sorted := Sorted(supplied);
    var p :| p in supplied && p.partNumber == 1;
    assert p in sorted && sorted[0] in sorted;
    assert sorted == [sorted[0]] + sorted[1..];
    assert sorted[0].partNumber == 1;
  }

  /** A write under an ETag that is new or stood for the same bytes keeps what every ETag stands for. */
  lemma WrittenKeepsInv(s: State, s1: State, object0: Object, commit: Commit)
    requires Inv(s) && s1.seen == s.seen && EtagOk(s, object0.etag, object0.bytes)
    requires forall u :: u in s1.uploads ==>
      u in s.uploads && s1.uploads[u].kind == s.uploads[u].kind && s1.uploads[u].parts == s.uploads[u].parts
    ensures Inv(Written(s1, object0, commit))
  {
  }

  lemma CompleteKeepsInv(s: State, u: UploadId, supplied: seq<CompletedPart>, ifMatch: Option<Etag>, etag: Etag)
    requires Inv(s) && Enabled(s, Complete(u, supplied, ifMatch, etag))
    ensures Inv(Step(s, Complete(u, supplied, ifMatch, etag)))
  {
    if CompletionReply(s, u, supplied, ifMatch) == Done {
      var bytes := CompletedBytes(s, u, supplied);
      var commit := if s.uploads[u].kind.Append? then Appended(u, Delta(s, u, supplied)) else Replaced(bytes);
      WrittenKeepsInv(s, s.(uploads := s.uploads[u := s.uploads[u].(open := false)]), Object(etag, bytes), commit);
    }
  }

  lemma StepKeepsInv(s: State, e: Event)
    requires Inv(s) && Enabled(s, e)
    ensures Inv(Step(s, e))
  {
    match e
    case Complete(u, supplied, ifMatch, etag) => CompleteKeepsInv(s, u, supplied, ifMatch, etag);
    case PutObject(bytes, etag) => WrittenKeepsInv(s, s, Object(etag, bytes), Replaced(bytes));
    case CopyPart(u, partEtag) => CopyKeepsInv(s, u, partEtag);
    case PutPart(u, n, part) => PutPartKeepsInv(s, u, n, part);
    case _ =>
  }

  lemma CopyKeepsInv(s: State, u: UploadId, partEtag: Etag)
    requires Inv(s) && Enabled(s, CopyPart(u, partEtag))
    ensures Inv(Step(s, CopyPart(u, partEtag)))
  {
  }

  lemma PutPartKeepsInv(s: State, u: UploadId, n: nat, part: Part)
    requires Inv(s) && Enabled(s, PutPart(u, n, part))
    ensures Inv(Step(s, PutPart(u, n, part)))
  {
  }

  lemma {:induction false} RunKeepsInv(s: State, events: seq<Event>)
    requires Inv(s) && Legal(s, events)
    ensures Inv(Run(s, events))
    decreases events
  {
    if events != [] {
      StepKeepsInv(s, events[0]);
      RunKeepsInv(Step(s, events[0]), events[1..]);
    }
  }

  // ----- When an append extends the object -----

  /** The event is an append that S3 accepts. */
  predicate AcceptsAppend(s: State, e: Event)
    requires Enabled(s, e)
  {
    e.Complete? && s.uploads[e.u].kind.Append? && CompletionReply(s, e.u, e.supplied, e.ifMatch) == Done
  }

  /** An accepted append finds the object still under the ETag it was planned on. */
  predicate Timely(s: State, e: Event)
    requires Enabled(s, e)
  {
    AcceptsAppend(s, e) ==> Matches(s, s.uploads[e.u].kind.planned)
  }

  /** No two ETags stand for the same bytes. */
  ghost predicate Telling(seen: map<Etag, Bytes>) {
    forall e, f :: e in seen && f in seen && seen[e] == seen[f] ==> e == f
  }

  lemma SameTail(a: Bytes, b: Bytes, tail: Bytes)
    requires a + tail == b + tail
    ensures a == b
  {
    assert |a| == |b|;
    assert a == (a + tail)[..|a|] && b == (b + tail)[..|b|];
  }

  /**
   * An accepted append, whatever its `If-Match`, makes the object its own bytes
   * after the current ones if the object still has the planned ETag; and only then
   * when ETags tell contents apart. An `If-Match` under the planned ETag sees to it.
   */
  lemma AppendExtendsTheObject(s: State, e: Event)
    requires Inv(s) && Enabled(s, e) && AcceptsAppend(s, e)
    ensures
      var planned, made := s.uploads[e.u].kind.planned, CompletedBytes(s, e.u, e.supplied);
      var extends0 := s.current.Some? && made == s.current.value.bytes + Delta(s, e.u, e.supplied);
      && (Matches(s, planned) ==> extends0)
      && (Telling(s.seen) && extends0 ==> Matches(s, planned))
      && (e.ifMatch == Some(planned) ==> Matches(s, planned))
  {
    AppendIsCopyThenDelta(s, e.u, e.supplied, e.ifMatch);
    var copy, delta := s.uploads[e.u].parts[1].bytes, Delta(s, e.u, e.supplied);
    if s.current.Some? && copy + delta == s.current.value.bytes + delta {
      SameTail(copy, s.current.value.bytes, delta);
    }
  }

  lemma AppendIsLogged(s: State, e: Event)
    requires Inv(s) && Logged(s) && Enabled(s, e) && AcceptsAppend(s, e)
    ensures Timely(s, e) ==> Logged(Step(s, e))
    ensures Telling(s.seen) && Logged(Step(s, e)) ==> Timely(s, e)
  {
    AppendExtendsTheObject(s, e);
    ReplayAppend(s.log, Appended(e.u, Delta(s, e.u, e.supplied)));
  }

  lemma OtherStepIsLogged(s: State, e: Event)
    requires Logged(s) && Enabled(s, e) && !AcceptsAppend(s, e)
    ensures Logged(Step(s, e))
  {
    match e
    case Complete(u, supplied, ifMatch, etag) =>
      if CompletionReply(s, u, supplied, ifMatch) == Done {
        ReplayAppend(s.log, Replaced(CompletedBytes(s, u, supplied)));
      }
    case PutObject(bytes, etag) => ReplayAppend(s.log, Replaced(bytes));
    case DeleteObject => ReplayAppend(s.log, Deleted);
    case _ =>
  }

  /** A step keeps object and log together if it is timely, and only then when ETags tell contents apart. */
  lemma StepIsLogged(s: State, e: Event)
    requires Inv(s) && Logged(s) && Enabled(s, e)
    ensures Timely(s, e) ==> Logged(Step(s, e))
    ensures Telling(s.seen) && Logged(Step(s, e)) ==> Timely(s, e)
  {
    if AcceptsAppend(s, e) {
      AppendIsLogged(s, e);
    } else {
      OtherStepIsLogged(s, e);
    }
  }

  predicate TimelyRun(s: State, events: seq<Event>)
    requires Legal(s, events)
    decreases events
  {
    events == [] || (Timely(s, events[0]) && TimelyRun(Step(s, events[0]), events[1..]))
  }

  /** At no point of the run is a logged change missing from the object. */
  predicate LoggedThroughout(s: State, events: seq<Event>)
    requires Legal(s, events)
    decreases events
  {
    Logged(s) && (events == [] || LoggedThroughout(Step(s, events[0]), events[1..]))
  }

  /** Every append of the run completes under the ETag it was planned on. */
  predicate GuardedRun(s: State, events: seq<Event>)
    requires Legal(s, events)
    decreases events
  {
    events == [] ||
    (&& (events[0].Complete? && s.uploads[events[0].u].kind.Append? ==>
           events[0].ifMatch == Some(s.uploads[events[0].u].kind.planned))
     && GuardedRun(Step(s, events[0]), events[1..]))
  }

  lemma {:induction false} GuardedIsTimely(s: State, events: seq<Event>)
    requires Inv(s) && Legal(s, events) && GuardedRun(s, events)
    ensures TimelyRun(s, events)
    decreases events
  {
    if events != [] {
      if AcceptsAppend(s, events[0]) {
        AppendExtendsTheObject(s, events[0]);
      }
      StepKeepsInv(s, events[0]);
      GuardedIsTimely(Step(s, events[0]), events[1..]);
    }
  }

  lemma SeenGrows(s: State, e: Event)
    requires Enabled(s, e)
    ensures forall x :: x in s.seen ==> x in Step(s, e).seen && Step(s, e).seen[x] == s.seen[x]
  {
  }

  lemma {:induction false} TellingBefore(s: State, events: seq<Event>)
    requires Legal(s, events) && Telling(Run(s, events).seen)
    ensures Telling(s.seen)
    decreases events
  {
    if events != [] {
      TellingBefore(Step(s, events[0]), events[1..]);
      SeenGrows(s, events[0]);
    }
  }

  lemma {:induction false} TimelyIsLogged(s: State, events: seq<Event>)
    requires Inv(s) && Logged(s) && Legal(s, events)
    ensures TimelyRun(s, events) ==> LoggedThroughout(s, events)
    ensures Telling(Run(s, events).seen) && LoggedThroughout(s, events) ==> TimelyRun(s, events)
    decreases events
  {
    if events != [] {
      var s', rest := Step(s, events[0]), events[1..];
      StepKeepsInv(s, events[0]);
      StepIsLogged(s, events[0]);
      assert LoggedThroughout(s', rest) ==> Logged(s');
      if Telling(Run(s, events).seen) {
        TellingBefore(s, events);
      }
      if Logged(s') {
        TimelyIsLogged(s', rest);
      }
    }
  }

  lemma {:induction false} LoggedAtTheEnd(s: State, events: seq<Event>)
    requires Legal(s, events) && LoggedThroughout(s, events)
    ensures Logged(Run(s, events))
    decreases events
  {
    if events != [] {
      LoggedAtTheEnd(Step(s, events[0]), events[1..]);
    }
  }

  // ----- Results -----

  function Start(initial: Object): State {
    State(Some(initial), map[initial.etag := initial.bytes], map[], [Replaced(initial.bytes)])
  }

  lemma StartIsLogged(initial: Object)
    ensures Logged(Start(initial))
  {
    ReplayAppend([], Replaced(initial.bytes));
    assert [] + [Replaced(initial.bytes)] == [Replaced(initial.bytes)];
  }

  /**
   * Over every interleaving of appenders, writers and deletes: no accepted change
   * is ever lost if each accepted append found the ETag it was planned on, and
   * only then when ETags tell contents apart.
   */
  lemma NothingLostExactlyWhenTimely(initial: Object, events: seq<Event>)
    requires initial.etag != "" && Legal(Start(initial), events)
    ensures TimelyRun(Start(initial), events) ==> LoggedThroughout(Start(initial), events)
    ensures Telling(Run(Start(initial), events).seen) ==>
      (LoggedThroughout(Start(initial), events) <==> TimelyRun(Start(initial), events))
  {
    StartIsLogged(initial);
    TimelyIsLogged(Start(initial), events);
  }

  /**
   * With every append completed under its planned ETag, the object is what the accepted
   * changes describe, in their order.
   */
  lemma NoLostUpdate(initial: Object, events: seq<Event>)
    requires initial.etag != "" && Legal(Start(initial), events) && GuardedRun(Start(initial), events)
    ensures Logged(Run(Start(initial), events))
  {
    GuardedIsTimely(Start(initial), events);
    NothingLostExactlyWhenTimely(initial, events);
    LoggedAtTheEnd(Start(initial), events);
  }

  function Deltas(log: seq<Commit>): Bytes {
    if log == [] then []
    else Deltas(log[..|log| - 1]) + if log[|log| - 1].Appended? then log[|log| - 1].delta else []
  }

  /** With appenders only: the initial bytes, then the deltas of those that succeeded, in completion order. */
  lemma AppendersOnly(initial: Object, events: seq<Event>)
    requires initial.etag != "" && Legal(Start(initial), events) && GuardedRun(Start(initial), events)
    requires var log := Run(Start(initial), events).log; forall i :: 1 <= i < |log| ==> log[i].Appended?
    ensures var s := Run(Start(initial), events);
      s.current.Some? && s.current.value.bytes == initial.bytes + Deltas(s.log)
  {
    NoLostUpdate(initial, events);
    LogGrows(Start(initial), events);
    ReplayAppends(initial.bytes, Run(Start(initial), events).log);
  }

  lemma {:induction false} ReplayAppends(bytes: Bytes, log: seq<Commit>)
    requires log != [] && log[0] == Replaced(bytes) && forall i :: 1 <= i < |log| ==> log[i].Appended?
    ensures Replay(log) == Some(bytes + Deltas(log))
    decreases |log|
  {
    var front, last := log[..|log| - 1], log[|log| - 1];
    if front == [] {
      assert Deltas(log) == [] + [];
      assert bytes + [] == bytes;
    } else {
      ReplayAppends(bytes, front);
      assert bytes + Deltas(front) + last.delta == bytes + (Deltas(front) + last.delta);
    }
  }

  lemma {:induction false} LogGrows(s: State, events: seq<Event>)
    requires Legal(s, events)
    ensures s.log <= Run(s, events).log
    decreases events
  {
    if events != [] {
      LogGrows(Step(s, events[0]), events[1..]);
    }
  }

  /** The uploads that have committed, in order. */
  function Committed(log: seq<Commit>): seq<UploadId> {
    if log == [] then []
    else Committed(log[..|log| - 1]) + if log[|log| - 1].Appended? then [log[|log| - 1].u] else []
  }

  /** A committed append is closed for good, so it commits once. */
  ghost predicate CommitsOnce(s: State) {
    Distinct(Committed(s.log)) && forall u :: u in Committed(s.log) ==> u in s.uploads && !s.uploads[u].open
  }

  lemma {:induction false} EachAppendCommitsOnce(s: State, events: seq<Event>)
    requires CommitsOnce(s) && Legal(s, events)
    ensures CommitsOnce(Run(s, events))
    decreases events
  {
    if events != [] {
      CommittedOneMore(s, events[0]);
      EachAppendCommitsOnce(Step(s, events[0]), events[1..]);
    }
  }

  lemma CommittedOneMore(s: State, e: Event)
    requires CommitsOnce(s) && Enabled(s, e)
    ensures CommitsOnce(Step(s, e))
  {
    ClosedStaysClosed(s, e);
    CommittedByStep(s, e);
    if AcceptsAppend(s, e) {
      DistinctAppend(Committed(s.log), e.u);
    } else {
      assert Committed(s.log) + [] == Committed(s.log);
    }
  }

  lemma ClosedStaysClosed(s: State, e: Event)
    requires Enabled(s, e)
    ensures forall u :: u in s.uploads && !s.uploads[u].open ==> u in Step(s, e).uploads && !Step(s, e).uploads[u].open
    ensures AcceptsAppend(s, e) ==> Open(s, e.u) && e.u in Step(s, e).uploads && !Step(s, e).uploads[e.u].open
  {
  }

  lemma CommittedByStep(s: State, e: Event)
    requires Enabled(s, e)
    ensures Committed(Step(s, e).log) == Committed(s.log) + if AcceptsAppend(s, e) then [e.u] else []
  {
    match e
    case Complete(u, supplied, ifMatch, etag) =>
      if CompletionReply(s, u, supplied, ifMatch) == Done {
        CommittedAppend(s.log, Step(s, e).log[|s.log|]);
      }
    case PutObject(bytes, etag) => CommittedAppend(s.log, Replaced(bytes));
    case DeleteObject => CommittedAppend(s.log, Deleted);
    case _ =>
  }

  lemma CommittedAppend(log: seq<Commit>, c: Commit)
    ensures Committed(log + [c]) == Committed(log) + if c.Appended? then [c.u] else []
  {
    assert (log + [c])[..|log|] == log;
  }

  /** A completion takes effect exactly when S3 accepts it, and an accepted append is logged with its own delta. */
  lemma CompletionCommits(s: State, u: UploadId, supplied: seq<CompletedPart>, ifMatch: Option<Etag>, etag: Etag)
    requires Enabled(s, Complete(u, supplied, ifMatch, etag)) && s.uploads[u].kind.Append?
    ensures var done := CompletionReply(s, u, supplied, ifMatch) == Done;
      Step(s, Complete(u, supplied, ifMatch, etag)).log
      == s.log + (if done then [Appended(u, Delta(s, u, supplied))] else [])
  {
  }

  lemma SortedAlike(a: seq<CompletedPart>, b: seq<CompletedPart>)
    requires multiset(a) == multiset(b)
    ensures forall q :: q in Sorted(a) <==> q in Sorted(b)
    ensures Ascending(Sorted(a)) <==> Ascending(Sorted(b))
    ensures Ascending(Sorted(a)) ==> Sorted(a) == Sorted(b)
    ensures |a| == |b|
  {
    SameMembers(a, b);
    SortedKeeps(a);
    SortedKeeps(b);
    assert |a| == |multiset(a)| && |b| == |multiset(b)|;
    DifferAlike(a, b);
    if Ascending(Sorted(a)) {
      AscendingIsUnique(Sorted(a), Sorted(b));
    }
  }

  /** The order in which parts are supplied does not matter, repeated numbers included. */
  lemma SupplyOrderIsIrrelevant(s: State, u: UploadId, a: seq<CompletedPart>,
      b: seq<CompletedPart>, ifMatch: Option<Etag>, etag: Etag)
    requires multiset(a) == multiset(b)
    ensures CompleteUpload(s, u, a, ifMatch, etag) == CompleteUpload(s, u, b, ifMatch, etag)
  {
    SortedAlike(a, b);
    if Open(s, u) {
      assert PartsPresent(s.uploads[u].parts, Sorted(a)) <==> PartsPresent(s.uploads[u].parts, Sorted(b));
    }
  }

  // ----- What a completion does -----

  /** The supplied parts are those S3 holds, each under a number of its own. */
  predicate HeldAndDistinct(parts: map<nat, Part>, supplied: seq<CompletedPart>) {
    && (forall p :: p in supplied ==> p.partNumber in parts && parts[p.partNumber].etag == p.etag)
    && forall i, j :: 0 <= i < j < |supplied| ==> supplied[i].partNumber != supplied[j].partNumber
  }

  /** No condition, or one that the current object meets; an empty ETag is no condition. */
  predicate MayReplace(current: Option<Object>, ifMatch: Option<Etag>) {
    ifMatch == None || ifMatch == Some("") || (current.Some? && ifMatch == Some(current.value.etag))
  }

  lemma {:induction false} DifferExactly(parts: seq<CompletedPart>)
    ensures NumbersDiffer(parts) <==>
      forall i, j :: 0 <= i < j < |parts| ==> parts[i].partNumber != parts[j].partNumber
  {
    if parts != [] {
      var rest := parts[1..];
      DifferExactly(rest);
      if NumbersDiffer(parts) {
        forall i, j | 0 <= i < j < |parts| ensures parts[i].partNumber != parts[j].partNumber {
          assert parts[j] == rest[j - 1] && rest[j - 1] in rest;
          assert i > 0 ==> parts[i] == rest[i - 1];
        }
      }
      if forall i, j :: 0 <= i < j < |parts| ==> parts[i].partNumber != parts[j].partNumber {
        forall q | q in rest ensures parts[0].partNumber != q.partNumber {
          var k :| 0 <= k < |rest| && rest[k] == q;
          assert parts[k + 1] == q;
        }
        assert forall i, j :: 0 <= i < j < |rest| ==> rest[i] == parts[i + 1] && rest[j] == parts[j + 1];
      }
    }
  }

  /**
   * A completion is accepted exactly when its upload is open, every part it names is
   * held and named once, and the object meets the condition; a refused one
   * changes nothing.
   */
  lemma AcceptedExactly(s: State, u: UploadId, supplied: seq<CompletedPart>, ifMatch: Option<Etag>, etag: Etag)
    ensures var (s', reply) := CompleteUpload(s, u, supplied, ifMatch, etag);
      && (reply == Done <==>
          && u in s.uploads && s.uploads[u].open
          && supplied != [] && HeldAndDistinct(s.uploads[u].parts, supplied)
          && MayReplace(s.current, ifMatch))
      && (reply != Done ==> s' == s)
  {
    SortedKeeps(supplied);
    DifferExactly(supplied);
    assert GuardHolds(s, ifMatch) <==> MayReplace(s.current, ifMatch);
    if Open(s, u) {
      assert PartsPresent(s.uploads[u].parts, Sorted(supplied)) <==>
        forall p :: p in supplied ==>
          p.partNumber in s.uploads[u].parts && s.uploads[u].parts[p.partNumber].etag == p.etag;
    }
  }

  /** The new bytes of an append, in their order. */
  function Joined(deltas: seq<Part>): Bytes {
    if deltas == [] then [] else Joined(deltas[..|deltas| - 1]) + deltas[|deltas| - 1].bytes
  }

  function Numbered(deltas: seq<Part>): (r: seq<CompletedPart>)
    ensures |r| == |deltas| && forall k :: 0 <= k < |deltas| ==> r[k] == CompletedPart(k + 2, deltas[k].etag)
  {
    if deltas == [] then []
    else Numbered(deltas[..|deltas| - 1]) + [CompletedPart(|deltas| + 1, deltas[|deltas| - 1].etag)]
  }

  /** The upload holds these parts behind its part 1. */
  predicate HoldsDeltas(parts: map<nat, Part>, deltas: seq<Part>) {
    1 in parts && forall k :: 0 <= k < |deltas| ==> k + 2 in parts && parts[k + 2] == deltas[k]
  }

  lemma AssembledStep(parts: map<nat, Part>, named: seq<CompletedPart>, last: CompletedPart)
    requires PartsPresent(parts, named + [last])
    ensures PartsPresent(parts, named) && last.partNumber in parts
    ensures Assembled(parts, named + [last]) == Assembled(parts, named) + parts[last.partNumber].bytes
    decreases |named|
  {
    assert last in named + [last];
    assert forall p :: p in named ==> p in named + [last];
    if named == [] {
      assert ([] + [last])[1..] == [];
    } else {
      assert (named + [last])[1..] == named[1..] + [last];
      AssembledStep(parts, named[1..], last);
    }
  }

  lemma {:induction false} AssembledDeltas(parts: map<nat, Part>, deltas: seq<Part>)
    requires HoldsDeltas(parts, deltas)
    ensures PartsPresent(parts, Numbered(deltas)) && Assembled(parts, Numbered(deltas)) == Joined(deltas)
    decreases |deltas|
  {
    if deltas != [] {
      var front, n := deltas[..|deltas| - 1], |deltas|;
      forall k | 0 <= k < |front| ensures k + 2 in parts && parts[k + 2] == front[k] {
        assert front[k] == deltas[k];
      }
      AssembledDeltas(parts, front);
      AssembledStep(parts, Numbered(front), CompletedPart(n + 1, deltas[n - 1].etag));
    }
  }

  lemma {:induction false} AscendingStays(parts: seq<CompletedPart>)
    requires Ascending(parts)
    ensures Sorted(parts) == parts
  {
    if parts != [] {
      AscendingStays(parts[1..]);
      assert parts == [parts[0]] + parts[1..];
      if |parts| > 1 {
        assert parts[1] in parts[1..];
      }
    }
  }

  lemma {:induction false} NumberedAscends(deltas: seq<Part>, k: nat)
    requires k <= |deltas|
    ensures Ascending(Numbered(deltas)[k..])
    decreases |deltas| - k
  {
    if k < |deltas| {
      NumberedAscends(deltas, k + 1);
      assert Numbered(deltas)[k..][1..] == Numbered(deltas)[k + 1..];
    }
  }

  /**
   * A completion that names part 1 and the parts behind it, in any order, under no
   * condition or one that is met, is accepted: the object becomes their bytes in part
   * order, the upload is closed, and of an append exactly the new bytes are logged.
   */
  lemma AppendMakes(s: State, u: UploadId, supplied: seq<CompletedPart>, ifMatch: Option<Etag>, etag: Etag,
      deltas: seq<Part>)
    requires u in s.uploads && s.uploads[u].open
    requires HoldsDeltas(s.uploads[u].parts, deltas) && MayReplace(s.current, ifMatch)
    requires multiset(supplied) == multiset([CompletedPart(1, s.uploads[u].parts[1].etag)] + Numbered(deltas))
    ensures var (s', reply) := CompleteUpload(s, u, supplied, ifMatch, etag);
      && reply == Done
      && s'.current == Some(Object(etag, s.uploads[u].parts[1].bytes + Joined(deltas)))
      && s'.log == s.log + [if s.uploads[u].kind.Append? then Appended(u, Joined(deltas))
                            else Replaced(s.uploads[u].parts[1].bytes + Joined(deltas))]
      && s'.uploads == s.uploads[u := s.uploads[u].(open := false)]
  {
    var named := [CompletedPart(1, s.uploads[u].parts[1].etag)] + Numbered(deltas);
    SupplyOrderIsIrrelevant(s, u, supplied, named, ifMatch, etag);
    NamedInOrder(s.uploads[u].parts, deltas, named);
  }

  /** What the other steps do to the object: a write replaces it, a delete removes it, and the rest leave it. */
  lemma OtherStepsOnObject(s: State, e: Event)
    requires Enabled(s, e) && !e.Complete?
    ensures e.PutObject? ==>
      Step(s, e).current == Some(Object(e.etag, e.bytes)) && Step(s, e).log == s.log + [Replaced(e.bytes)]
    ensures e.DeleteObject? ==> Step(s, e).current == None && Step(s, e).log == s.log + [Deleted]
    ensures !e.PutObject? && !e.DeleteObject? ==> Step(s, e).current == s.current && Step(s, e).log == s.log
    ensures e.PutObject? || e.DeleteObject? ==> Step(s, e).uploads == s.uploads
    ensures e.Create? ==> Step(s, e).uploads == s.uploads[e.u := Upload(e.kind, map[], true)]
  {
  }

  /** What the steps before completion do to an upload, and no step to another one. */
  lemma StepsOnUpload(s: State, e: Event, u: UploadId)
    requires Enabled(s, e) && u in s.uploads
    ensures var was := s.uploads[u];
      && u in Step(s, e).uploads
      && var now := Step(s, e).uploads[u];
      && (e == Abort(u) ==> now == was.(open := false))
      && (e.PutPart? && e.u == u && was.open ==> now == was.(parts := was.parts[e.n := e.part]))
      && (e.CopyPart? && e.u == u && was.open ==>
            now == if s.current.Some? && s.current.value.etag == was.kind.planned
                   then was.(parts := was.parts[1 := Part(e.partEtag, s.current.value.bytes)]) else was)
      && (e.Create? || e.PutObject? || e.DeleteObject? || e.u != u || !was.open ==> now == was)
  {
  }

  lemma {:induction false} ClosedNeverCommits(s: State, events: seq<Event>, u: UploadId)
    requires Legal(s, events) && u in s.uploads && !s.uploads[u].open
    ensures u in Committed(Run(s, events).log) <==> u in Committed(s.log)
    decreases events
  {
    if events != [] {
      CommittedByStep(s, events[0]);
      StepsOnUpload(s, events[0], u);
      ClosedNeverCommits(Step(s, events[0]), events[1..], u);
    }
  }

  /** An aborted append never takes effect afterwards, whatever follows. */
  lemma AbortedNeverCommits(s: State, events: seq<Event>, u: UploadId)
    requires Enabled(s, Abort(u)) && Legal(Step(s, Abort(u)), events) && u !in Committed(s.log)
    ensures u !in Committed(Run(Step(s, Abort(u)), events).log)
  {
    OtherStepsOnObject(s, Abort(u));
    StepsOnUpload(s, Abort(u), u);
    ClosedNeverCommits(Step(s, Abort(u)), events, u);
  }

  lemma NamedInOrder(parts: map<nat, Part>, deltas: seq<Part>, named: seq<CompletedPart>)
    requires HoldsDeltas(parts, deltas) && named == [CompletedPart(1, parts[1].etag)] + Numbered(deltas)
    ensures Sorted(named) == named && Ascending(named) && PartsPresent(parts, named)
    ensures PartsPresent(parts, named[1..])
    ensures Assembled(parts, named) == parts[1].bytes + Joined(deltas) && Assembled(parts, named[1..]) == Joined(deltas)
  {
    AssembledDeltas(parts, deltas);
    NumberedAscends(deltas, 0);
    assert named[1..] == Numbered(deltas) && Numbered(deltas)[0..] == Numbered(deltas);
    AscendingStays(named);
    assert named[0] in named;
  }

  lemma SameMembers(a: seq<CompletedPart>, b: seq<CompletedPart>)
    requires multiset(a) == multiset(b)
    ensures forall q :: q in a <==> q in b
  {
    forall q ensures q in a <==> q in b {
      assert q in a <==> q in multiset(a);
      assert q in b <==> q in multiset(b);
    }
  }

  lemma DifferAlike(a: seq<CompletedPart>, b: seq<CompletedPart>)
    requires |a| == |b| && forall q :: q in a <==> q in b
    ensures NumbersDiffer(a) <==> NumbersDiffer(b)
  {
    DiffersByCount(a);
    DiffersByCount(b);
    assert Numbers(a) == Numbers(b);
  }

  function Numbers(parts: seq<CompletedPart>): set<nat> {
    set p | p in parts :: p.partNumber
  }

  /** No number repeats exactly when there are as many numbers as parts. */
  lemma {:induction false} DiffersByCount(a: seq<CompletedPart>)
    ensures |Numbers(a)| <= |a| && (NumbersDiffer(a) <==> |Numbers(a)| == |a|)
  {
    if a != [] {
      DiffersByCount(a[1..]);
      assert a == [a[0]] + a[1..];
      assert Numbers(a) == {a[0].partNumber} + Numbers(a[1..]);
      assert a[0].partNumber in Numbers(a[1..]) <==> exists q :: q in a[1..] && q.partNumber == a[0].partNumber;
    }
  }

  // ----- Without the guard -----

  const COPIED: map<nat, Part> := map[1 := Part("c", [1])]
  const FIRST_PARTS: map<nat, Part> := map[1 := Part("c", [1]), 2 := Part("d", [2])]
  const SECOND_PARTS: map<nat, Part> := map[1 := Part("c", [1]), 2 := Part("e", [3])]
  const ORIGINAL: Object := Object("v1", [1])

  /** Two appenders each copy the original object and upload a byte. */
  const PREPARE: seq<Event> := [
    Create(0, Append("v1")), Create(1, Append("v1")), CopyPart(0, "c"), CopyPart(1, "c"),
    PutPart(0, 2, Part("d", [2])), PutPart(1, 2, Part("e", [3]))]

  /** The first completes under the planned ETag, the second under none. */
  const FINISH: seq<Event> := [
    Complete(0, [CompletedPart(2, "d"), CompletedPart(1, "c")], Some("v1"), "v2"),
    Complete(1, [CompletedPart(1, "c"), CompletedPart(2, "e")], None, "v3")]

  const BOTH_READY: State := WithTwo(FIRST_PARTS, SECOND_PARTS)

  /** From a fresh object, both appends are accepted and logged, and the first one's byte is gone. */
  lemma UnguardedAppendLosesUpdate()
    ensures Legal(Start(ORIGINAL), PREPARE) && Legal(Run(Start(ORIGINAL), PREPARE), FINISH)
    ensures var s := Run(Run(Start(ORIGINAL), PREPARE), FINISH);
      && s.log == [Replaced([1]), Appended(0, [2]), Appended(1, [3])]
      && s.current == Some(Object("v3", [1, 3]))
      && !Logged(s)
  {
    BothGetReady();
    BothFinish();
    LostByte();
  }

  lemma OneStep(s: State, e: Event, rest: seq<Event>, s': State)
    requires Enabled(s, e) && Step(s, e) == s' && Legal(s', rest)
    ensures Legal(s, [e] + rest) && Run(s, [e] + rest) == Run(s', rest)
  {
    assert ([e] + rest)[1..] == rest;
  }

  /** The state with the two uploads in it. */
  function WithTwo(first: map<nat, Part>, second: map<nat, Part>): State {
    Start(ORIGINAL).(uploads := map[0 := Upload(Append("v1"), first, true), 1 := Upload(Append("v1"), second, true)])
  }

  lemma BothUpload()
    ensures Legal(WithTwo(COPIED, COPIED), PREPARE[4..])
    ensures Run(WithTwo(COPIED, COPIED), PREPARE[4..]) == WithTwo(FIRST_PARTS, SECOND_PARTS)
  {
    OneStep(WithTwo(FIRST_PARTS, COPIED), PREPARE[5], [], WithTwo(FIRST_PARTS, SECOND_PARTS));
    OneStep(WithTwo(COPIED, COPIED), PREPARE[4], [PREPARE[5]], WithTwo(FIRST_PARTS, COPIED));
    assert PREPARE[4..] == [PREPARE[4]] + [PREPARE[5]];
  }

  lemma BothCopy()
    ensures Legal(WithTwo(map[], map[]), PREPARE[2..])
    ensures Run(WithTwo(map[], map[]), PREPARE[2..]) == WithTwo(FIRST_PARTS, SECOND_PARTS)
  {
    BothUpload();
    OneStep(WithTwo(COPIED, map[]), PREPARE[3], PREPARE[4..], WithTwo(COPIED, COPIED));
    assert PREPARE[3..] == [PREPARE[3]] + PREPARE[4..];
    OneStep(WithTwo(map[], map[]), PREPARE[2], PREPARE[3..], WithTwo(COPIED, map[]));
    assert PREPARE[2..] == [PREPARE[2]] + PREPARE[3..];
  }

  lemma BothGetReady()
    ensures Legal(Start(ORIGINAL), PREPARE) && Run(Start(ORIGINAL), PREPARE) == WithTwo(FIRST_PARTS, SECOND_PARTS)
  {
    BothCopy();
    var s1 := Start(ORIGINAL).(uploads := map[0 := Upload(Append("v1"), map[], true)]);
    OneStep(s1, PREPARE[1], PREPARE[2..], WithTwo(map[], map[]));
    assert PREPARE[1..] == [PREPARE[1]] + PREPARE[2..];
    OneStep(Start(ORIGINAL), PREPARE[0], PREPARE[1..], s1);
    assert PREPARE == [PREPARE[0]] + PREPARE[1..];
  }

  lemma BothFinish()
    ensures Legal(BOTH_READY, FINISH)
    ensures var s := Run(BOTH_READY, FINISH);
      s.log == [Replaced([1]), Appended(0, [2]), Appended(1, [3])] && s.current == Some(Object("v3", [1, 3]))
  {
    FirstCompletes();
    var s1 := Step(BOTH_READY, FINISH[0]);
    SecondCompletes(s1);
    OneStep(s1, FINISH[1], [], Step(s1, FINISH[1]));
    OneStep(BOTH_READY, FINISH[0], FINISH[1..], s1);
  }

  lemma FirstCompletes()
    ensures Enabled(BOTH_READY, FINISH[0])
    ensures var s1 := Step(BOTH_READY, FINISH[0]);
      && s1.log == [Replaced([1]), Appended(0, [2])] && s1.seen == map["v1" := [1], "v2" := [1, 2]]
      && 1 in s1.uploads && s1.uploads[1] == BOTH_READY.uploads[1]
  {
    var copy, delta := CompletedPart(1, "c"), CompletedPart(2, "d");
    SortTwo(delta, copy);
    AssembleTwo(FIRST_PARTS, copy, delta);
    assert copy in [delta, copy];
    assert [1] + [2] == [1, 2];
  }

  lemma SecondCompletes(s: State)
    requires s.log == [Replaced([1]), Appended(0, [2])] && s.seen == map["v1" := [1], "v2" := [1, 2]]
    requires 1 in s.uploads && s.uploads[1] == BOTH_READY.uploads[1]
    ensures Enabled(s, FINISH[1])
    ensures var s' := Step(s, FINISH[1]);
      s'.log == [Replaced([1]), Appended(0, [2]), Appended(1, [3])] && s'.current == Some(Object("v3", [1, 3]))
  {
    SortTwo(CompletedPart(1, "c"), CompletedPart(2, "e"));
    AssembleTwo(SECOND_PARTS, CompletedPart(1, "c"), CompletedPart(2, "e"));
    assert FINISH[1].supplied[0] in FINISH[1].supplied;
    assert [1] + [3] == [1, 3];
  }

  lemma LostByte()
    ensures Replay([Replaced([1]), Appended(0, [2]), Appended(1, [3])]) == Some([1, 2, 3])
  {
    var first, second: seq<Commit> := [Replaced([1])], [Replaced([1]), Appended(0, [2])];
    ReplayAppend([], Replaced([1]));
    assert [] + [Replaced([1])] == first && first + [Appended(0, [2])] == second;
    ReplayAppend(first, Appended(0, [2]));
    ReplayAppend(second, Appended(1, [3]));
    assert second + [Appended(1, [3])] == [Replaced([1]), Appended(0, [2]), Appended(1, [3])];
    assert [1] + [2] + [3] == [1, 2, 3];
  }

  lemma SortTwo(p: CompletedPart, q: CompletedPart)
    ensures Sorted([p, q]) == if p.partNumber <= q.partNumber then [p, q] else [q, p]
  {
    assert [p, q][1..] == [q] && [q][1..] == [];
    assert Sorted([q]) == [q];
    if p.partNumber > q.partNumber {
      assert Insert(p, [q][1..]) == [p];
    }
  }

  lemma AssembleTwo(parts: map<nat, Part>, p: CompletedPart, q: CompletedPart)
    requires PartsPresent(parts, [p, q]) && p.partNumber < q.partNumber
    ensures Assembled(parts, [p, q]) == parts[p.partNumber].bytes + parts[q.partNumber].bytes
    ensures Assembled(parts, [p, q][1..]) == parts[q.partNumber].bytes
    ensures Ascending([p, q])
  {
    assert [p, q][1..] == [q] && [q][1..] == [];
    assert q in [p, q];
    assert Assembled(parts, [q]) == parts[q.partNumber].bytes + Assembled(parts, []);
  }
}
