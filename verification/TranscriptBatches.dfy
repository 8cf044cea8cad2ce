/**
 * The two loops of the transcript store: listing an upload's parts page by page
 * and deleting objects in bounded batches.
 */
module TranscriptBatches {
  import opened Optional
  import opened Sequences

  // ----- Listing parts -----

  /** A part as S3 reports it; the code skips one without a number or with an empty ETag. */
  datatype ReportedPart = ReportedPart(partNumber: Option<nat>, etag: string, size: Option<nat>)

  datatype UploadedPart = UploadedPart(partNumber: nat, etag: string, size: Option<nat>)

  datatype Page = Page(parts: seq<ReportedPart>, truncated: bool, next: Option<nat>)

  function Kept(parts: seq<ReportedPart>): seq<UploadedPart> {
    if parts == [] then []
    else
      var p := parts[0];
      (if p.partNumber.Some? && p.etag != "" then [UploadedPart(p.partNumber.value, p.etag, p.size)] else [])
      + Kept(parts[1..])
  }

  lemma {:induction false} KeptConcat(a: seq<ReportedPart>, b: seq<ReportedPart>)
    ensures Kept(a + b) == Kept(a) + Kept(b)
  {
    if a == [] {
      assert a + b == b;
    } else {
      assert (a + b)[1..] == a[1..] + b;
      KeptConcat(a[1..], b);
    }
  }

  /**
   * S3's side of one listing: the upload's parts, how many it puts on the page
   * that starts after a marker, and whether that page, if truncated, names the
   * next one. A marker is the position it resumes from, and a truncated page is
   * never empty.
   */
  datatype Server = Server(parts: seq<ReportedPart>, pageSize: nat -> nat, names: nat -> bool) {
    ghost predicate Valid() {
      forall i :: pageSize(i) >= 1
    }

    function ListParts(marker: Option<nat>): Page {
      var from := marker.GetOr(0);
      if from >= |parts| then Page([], false, None)
      else if |parts| - from <= pageSize(from) then Page(parts[from..], false, None)
      else
        var end := from + pageSize(from);
        Page(parts[from..end], true, if names(from) then Some(end) else None)
    }

    /** How far the pages from a position lead: to the end, or to the first truncated page that names no marker. */
    ghost function Reach(from: nat): (r: nat)
      requires Valid() && from <= |parts|
      ensures from <= r <= |parts|
      decreases |parts| - from
    {
      if from == |parts| || |parts| - from <= pageSize(from) then |parts|
      else if names(from) then Reach(from + pageSize(from))
      else from + pageSize(from)
    }

    /** Every truncated page from a position on names the next marker. */
    ghost predicate MarkersNamed(from: nat)
      requires Valid() && from <= |parts|
      decreases |parts| - from
    {
      from == |parts| || |parts| - from <= pageSize(from) || (names(from) && MarkersNamed(from + pageSize(from)))
    }
  }

  lemma KeptOneMore(parts: seq<ReportedPart>, i: nat)
    requires i < |parts|
    ensures var part := parts[i];
      Kept(parts[..i + 1]) == Kept(parts[..i])
        + if part.partNumber.Some? && part.etag != "" then [UploadedPart(part.partNumber.value, part.etag, part.size)]
          else []
  {
    assert parts[..i + 1] == parts[..i] + [parts[i]];
    KeptConcat(parts[..i], [parts[i]]);
  }

  lemma PageFollows(s3: Server, marker: Option<nat>)
    requires s3.Valid() && marker.GetOr(0) <= |s3.parts|
    ensures var page, m := s3.ListParts(marker), marker.GetOr(0);
      var end := if page.next.Some? then page.next.value else s3.Reach(m);
      end <= |s3.parts| && s3.parts[..m] + page.parts == s3.parts[..end]
  {
  }

  /** A page is what comes next; without a further marker it is the last one reached. */
  lemma PageExtends(s3: Server, marker: Option<nat>)
    requires s3.Valid() && marker.GetOr(0) <= |s3.parts|
    ensures var page, m := s3.ListParts(marker), marker.GetOr(0);
      var end := if page.next.Some? then page.next.value else s3.Reach(m);
      && (page.next.Some? ==> page.truncated && m < end <= |s3.parts| && s3.Reach(end) == s3.Reach(m))
      && Kept(s3.parts[..end]) == Kept(s3.parts[..m]) + Kept(page.parts)
  {
    PageFollows(s3, marker);
    KeptConcat(s3.parts[..marker.GetOr(0)], s3.ListParts(marker).parts);
  }

  /** The listing reaches the end exactly when every truncated page on its way names the next marker. */
  lemma {:induction false} WholeExactly(s3: Server, from: nat)
    requires s3.Valid() && from <= |s3.parts|
    ensures s3.Reach(from) == |s3.parts| <==> s3.MarkersNamed(from)
    decreases |s3.parts| - from
  {
    if from < |s3.parts| && |s3.parts| - from > s3.pageSize(from) && s3.names(from) {
      WholeExactly(s3, from + s3.pageSize(from));
    }
  }

  /**
   * `listTranscriptParts`: however S3 cuts the pages, the usable parts of the
   * unpaged listing, up to the first truncated page that names no marker.
   */
  method ListTranscriptParts(s3: Server) returns (listed: seq<UploadedPart>)
    requires s3.Valid()
    ensures listed == Kept(s3.parts[..s3.Reach(0)])
    ensures s3.MarkersNamed(0) ==> listed == Kept(s3.parts)
  {
    WholeExactly(s3, 0);
    assert s3.parts[..|s3.parts|] == s3.parts;
    listed := [];
    var marker: Option<nat> := None;
    var done := false;
    while !done
      invariant marker.GetOr(0) <= |s3.parts| && s3.Reach(marker.GetOr(0)) == s3.Reach(0)
      invariant listed == Kept(s3.parts[..if done then s3.Reach(0) else marker.GetOr(0)])
      decreases !done, |s3.parts| - marker.GetOr(0)
    {
      var page := s3.ListParts(marker);
      PageExtends(s3, marker);
      ghost var before := listed;
      for i := 0 to |page.parts|
        invariant listed == before + Kept(page.parts[..i])
      {
        var part := page.parts[i];
        KeptOneMore(page.parts, i);
        if part.partNumber.Some? && part.etag != "" {
          listed := listed + [UploadedPart(part.partNumber.value, part.etag, part.size)];
        }
      }
      assert page.parts[..|page.parts|] == page.parts;
      var next := if page.truncated then page.next else None;
      if next.Some? {
        marker := next;
      } else {
        done := true;
      }
    }
  }

  // ----- Deleting in batches -----

  /**
   * What S3 does with one batch: the request fails, perhaps after deleting some keys,
   * or it answers and keeps some keys.
   */
  datatype Outcome = Failed(deletedFirst: set<string>) | Answered(kept: set<string>, errors: seq<Option<string>>)

  function Left(stored: set<string>, chunk: seq<string>, o: Outcome): set<string> {
    match o
    case Failed(deletedFirst) => set k | k in stored && !(k in chunk && k in deletedFirst)
    case Answered(kept, _) => set k | k in stored && (k in chunk ==> k in kept)
  }

  function NamedKeys(errors: seq<Option<string>>): seq<string> {
    if errors == [] then []
    else (if errors[0].Some? && errors[0].value != "" then [errors[0].value] else []) + NamedKeys(errors[1..])
  }

  lemma {:induction false} NamedKeysConcat(a: seq<Option<string>>, b: seq<Option<string>>)
    ensures NamedKeys(a + b) == NamedKeys(a) + NamedKeys(b)
  {
    if a == [] {
      assert a + b == b;
    } else {
      assert (a + b)[1..] == a[1..] + b;
      NamedKeysConcat(a[1..], b);
    }
  }

  /** The keys one batch adds to the failed list. */
  function Reported(chunk: seq<string>, o: Outcome): seq<string> {
    match o
    case Failed(_) => chunk
    case Answered(_, errors) => NamedKeys(errors)
  }

  /** What is stored, and what has been reported, after the batches asked so far; `s3` says what becomes of each. */
  function LeftAfter(stored: set<string>, asked: seq<seq<string>>, s3: nat -> Outcome): set<string> {
    if asked == [] then stored
    else Left(LeftAfter(stored, asked[..|asked| - 1], s3), asked[|asked| - 1], s3(|asked| - 1))
  }

  function ReportedAfter(asked: seq<seq<string>>, s3: nat -> Outcome): seq<string> {
    if asked == [] then []
    else ReportedAfter(asked[..|asked| - 1], s3) + Reported(asked[|asked| - 1], s3(|asked| - 1))
  }

  function Flat(chunks: seq<seq<string>>): seq<string> {
    if chunks == [] then [] else Flat(chunks[..|chunks| - 1]) + chunks[|chunks| - 1]
  }

  predicate NoneEmpty(asked: seq<seq<string>>) {
    forall i :: 0 <= i < |asked| ==> asked[i] != []
  }

  predicate WithinCap(asked: seq<seq<string>>, cap: nat) {
    forall i :: 0 <= i < |asked| ==> 1 <= |asked[i]| <= cap
  }

  lemma OneMoreBatch(stored: set<string>, asked: seq<seq<string>>, chunk: seq<string>, s3: nat -> Outcome)
    ensures LeftAfter(stored, asked + [chunk], s3) == Left(LeftAfter(stored, asked, s3), chunk, s3(|asked|))
    ensures ReportedAfter(asked + [chunk], s3) == ReportedAfter(asked, s3) + Reported(chunk, s3(|asked|))
  {
    assert (asked + [chunk])[..|asked|] == asked;
  }

  /** `keys.slice(i, end)`, which JavaScript clamps at the last key. */
  function Slice(keys: seq<string>, i: nat, end: nat): (r: seq<string>)
    ensures i <= end ==> |r| <= end - i
    ensures i < |keys| && i < end ==> r != []
    decreases |keys| - i
  {
    if i >= |keys| || i >= end then [] else [keys[i]] + Slice(keys, i + 1, end)
  }

  /** The keys from a position on. */
  function Rest(keys: seq<string>, i: nat): seq<string>
    decreases |keys| - i
  {
    if i >= |keys| then [] else [keys[i]] + Rest(keys, i + 1)
  }

  lemma {:induction false} RestFollows(keys: seq<string>, i: nat)
    requires i <= |keys|
    ensures keys[..i] + Rest(keys, i) == keys
    decreases |keys| - i
  {
    if i < |keys| {
      RestFollows(keys, i + 1);
      assert keys[..i + 1] == keys[..i] + [keys[i]];
      Regroup(keys[..i], keys[i], [], Rest(keys, i + 1));
    }
  }

  lemma {:induction false} SliceThenRest(keys: seq<string>, i: nat, end: nat)
    requires i <= end
    ensures Slice(keys, i, end) + Rest(keys, end) == Rest(keys, i)
    decreases |keys| - i
  {
    if i < |keys| && i < end {
      SliceThenRest(keys, i + 1, end);
      Regroup([], keys[i], Slice(keys, i + 1, end), Rest(keys, end));
    }
  }

  lemma Regroup<T>(a: seq<T>, x: T, b: seq<T>, c: seq<T>)
    ensures [x] + b + c == [x] + (b + c)
    ensures a + ([x] + c) == a + [x] + c
  {
  }

  /** The batches from a position on. */
  function Batches(keys: seq<string>, i: nat, cap: nat): seq<seq<string>>
    requires cap >= 1
    decreases |keys| - i
  {
    if i >= |keys| then [] else [Slice(keys, i, i + cap)] + Batches(keys, i + cap, cap)
  }

  lemma {:induction false} FlatCons(chunk: seq<string>, rest: seq<seq<string>>)
    ensures Flat([chunk] + rest) == chunk + Flat(rest)
  {
    if rest == [] {
      assert ([chunk] + rest)[..0] == [] && Flat([]) + chunk == chunk + Flat([]);
    } else {
      var front, last := rest[..|rest| - 1], rest[|rest| - 1];
      FlatCons(chunk, front);
      assert ([chunk] + rest)[..|rest|] == [chunk] + front;
      assert chunk + Flat(front) + last == chunk + (Flat(front) + last);
    }
  }

  lemma {:induction false} BatchesCover(keys: seq<string>, i: nat, cap: nat)
    requires cap >= 1
    ensures Flat(Batches(keys, i, cap)) == Rest(keys, i)
    decreases |keys| - i
  {
    if i < |keys| {
      BatchesCover(keys, i + cap, cap);
      FlatCons(Slice(keys, i, i + cap), Batches(keys, i + cap, cap));
      SliceThenRest(keys, i, i + cap);
    }
  }

  lemma {:induction false} BatchesCapped(keys: seq<string>, i: nat, cap: nat)
    requires cap >= 1
    ensures WithinCap(Batches(keys, i, cap), cap)
    decreases |keys| - i
  {
    if i < |keys| {
      BatchesCapped(keys, i + cap, cap);
    }
  }

  lemma {:induction false} SliceLength(keys: seq<string>, i: nat, end: nat)
    requires i <= end <= |keys|
    ensures |Slice(keys, i, end)| == end - i
    decreases end - i
  {
    if i < end {
      SliceLength(keys, i + 1, end);
    }
  }

  predicate FullButLast(asked: seq<seq<string>>, cap: nat) {
    forall i :: 0 <= i < |asked| - 1 ==> |asked[i]| == cap
  }

  lemma {:induction false} BatchesFull(keys: seq<string>, i: nat, cap: nat)
    requires cap >= 1
    ensures FullButLast(Batches(keys, i, cap), cap)
    decreases |keys| - i
  {
    if i < |keys| {
      var chunk, rest := Slice(keys, i, i + cap), Batches(keys, i + cap, cap);
      BatchesFull(keys, i + cap, cap);
      var asked := Batches(keys, i, cap);
      assert asked == [chunk] + rest;
      forall j | 0 <= j < |asked| - 1 ensures |asked[j]| == cap {
        if j == 0 {
          SliceLength(keys, i, i + cap);
          assert asked[0] == chunk && |chunk| == i + cap - i;
        } else {
          assert asked[j] == rest[j - 1] && |rest[j - 1]| == cap;
        }
      }
    }
  }

  /** Every key is asked for, in order, in batches of `cap` keys but for a shorter last one. */
  lemma AllBatches(keys: seq<string>, cap: nat)
    requires cap >= 1
    ensures Flat(Batches(keys, 0, cap)) == keys && WithinCap(Batches(keys, 0, cap), cap)
    ensures FullButLast(Batches(keys, 0, cap), cap)
  {
    BatchesCover(keys, 0, cap);
    BatchesFull(keys, 0, cap);
    RestFollows(keys, 0);
    assert keys[..0] + Rest(keys, 0) == Rest(keys, 0);
    BatchesCapped(keys, 0, cap);
  }

  /** How many of the errors name a key. */
  function NamedErrors(errors: seq<Option<string>>): nat {
    if errors == [] then 0
    else NamedErrors(errors[1..]) + match errors[0] case Some(key) => (if key == "" then 0 else 1) case None => 0
  }

  /** The keys that could not be deleted: those of the failed batches, and one for each named error. */
  function Undeleted(asked: seq<seq<string>>, s3: nat -> Outcome): nat {
    if asked == [] then 0
    else
      Undeleted(asked[..|asked| - 1], s3)
      + match s3(|asked| - 1) case Failed(_) => |asked[|asked| - 1]| case Answered(_, errors) => NamedErrors(errors)
  }

  lemma {:induction false} NamedKeysCount(errors: seq<Option<string>>)
    ensures |NamedKeys(errors)| == NamedErrors(errors)
  {
    if errors != [] {
      NamedKeysCount(errors[1..]);
    }
  }

  lemma {:induction false} ReportedCount(asked: seq<seq<string>>, s3: nat -> Outcome)
    ensures |ReportedAfter(asked, s3)| == Undeleted(asked, s3)
  {
    if asked != [] {
      ReportedCount(asked[..|asked| - 1], s3);
      match s3(|asked| - 1) {
        case Failed(_) =>
        case Answered(_, errors) => NamedKeysCount(errors);
      }
    }
  }

  datatype Verdict = Returned | NotConfigured | Threw(failed: nat, total: nat)

  /** How a call ends: it throws exactly when a batch failed or an error named a key, and says how many. */
  function VerdictOf(doomed: seq<string>, configured: bool, cap: nat, s3: nat -> Outcome): Verdict
    requires cap >= 1
  {
    if doomed == [] then Returned
    else if !configured then NotConfigured
    else
      var failed := ReportedAfter(Batches(doomed, 0, cap), s3);
      if failed == [] then Returned else Threw(|failed|, |doomed|)
  }

  /** What a call leaves in the bucket. */
  function LeftBy(stored: set<string>, doomed: seq<string>, configured: bool, cap: nat, s3: nat -> Outcome): set<string>
    requires cap >= 1
  {
    if configured then LeftAfter(stored, Batches(doomed, 0, cap), s3) else stored
  }

  /** A batch leaves the key: it did not ask for it, kept it, or failed without deleting it. */
  predicate Spares(chunk: seq<string>, o: Outcome, k: string) {
    k !in chunk || if o.Failed? then k !in o.deletedFirst else k in o.kept
  }

  /** Which keys are left, whatever becomes of the batches: those stored that every batch spared. */
  lemma {:induction false} LeftExactly(stored: set<string>, asked: seq<seq<string>>, s3: nat -> Outcome, k: string)
    ensures k in LeftAfter(stored, asked, s3) <==>
            k in stored && forall i :: 0 <= i < |asked| ==> Spares(asked[i], s3(i), k)
  {
    if asked != [] {
      LeftExactly(stored, asked[..|asked| - 1], s3, k);
    }
  }

  predicate Nameless(error: Option<string>) {
    error.None? || error.value == ""
  }

  /** The batch was answered, and no error names a key. */
  predicate Quiet(o: Outcome) {
    o.Answered? && forall e :: e in o.errors ==> Nameless(e)
  }

  predicate AllQuiet(n: nat, s3: nat -> Outcome) {
    forall i: nat :: i < n ==> Quiet(s3(i))
  }

  lemma {:induction false} QuietErrors(errors: seq<Option<string>>)
    ensures NamedKeys(errors) == [] <==> forall e :: e in errors ==> Nameless(e)
  {
    if errors != [] {
      var named := if errors[0].Some? && errors[0].value != "" then [errors[0].value] else [];
      QuietErrors(errors[1..]);
      assert NamedKeys(errors) == named + NamedKeys(errors[1..]);
      assert forall e :: e in errors <==> e == errors[0] || e in errors[1..];
      assert named == [] <==> Nameless(errors[0]);
    }
  }

  lemma QuietReport(chunk: seq<string>, o: Outcome)
    requires chunk != []
    ensures Reported(chunk, o) == [] <==> Quiet(o)
  {
    if o.Answered? {
      QuietErrors(o.errors);
    }
  }

  lemma {:induction false} QuietExactly(asked: seq<seq<string>>, s3: nat -> Outcome)
    requires NoneEmpty(asked)
    ensures ReportedAfter(asked, s3) == [] <==> AllQuiet(|asked|, s3)
  {
    if asked != [] {
      var n := |asked| - 1;
      QuietExactly(asked[..n], s3);
      QuietReport(asked[n], s3(n));
      assert ReportedAfter(asked, s3) == ReportedAfter(asked[..n], s3) + Reported(asked[n], s3(n));
      assert AllQuiet(n + 1, s3) <==> AllQuiet(n, s3) && Quiet(s3(n));
    }
  }

  /**
   * How a call ends: normally exactly when no key was given or every batch was
   * answered without a named error; otherwise unconfigured, or by throwing the
   * number of keys that could not be deleted out of those given.
   */
  lemma EndsAs(doomed: seq<string>, configured: bool, cap: nat, s3: nat -> Outcome)
    requires cap >= 1
    ensures var verdict, asked := VerdictOf(doomed, configured, cap, s3), Batches(doomed, 0, cap);
      && (verdict == Returned <==> doomed == [] || (configured && AllQuiet(|asked|, s3)))
      && (verdict == NotConfigured <==> doomed != [] && !configured)
      && (verdict.Threw? ==> verdict == Threw(Undeleted(asked, s3), |doomed|))
  {
    BatchesCapped(doomed, 0, cap);
    QuietExactly(Batches(doomed, 0, cap), s3);
    ReportedCount(Batches(doomed, 0, cap), s3);
  }

  lemma LeftByExactly(stored: set<string>, doomed: seq<string>, configured: bool, cap: nat, s3: nat -> Outcome)
    requires cap >= 1
    ensures var asked := if configured then Batches(doomed, 0, cap) else [];
      forall k :: k in LeftBy(stored, doomed, configured, cap, s3) <==>
        k in stored && forall i :: 0 <= i < |asked| ==> Spares(asked[i], s3(i), k)
  {
    var asked := if configured then Batches(doomed, 0, cap) else [];
    forall k
      ensures k in LeftBy(stored, doomed, configured, cap, s3) <==>
        k in stored && forall i :: 0 <= i < |asked| ==> Spares(asked[i], s3(i), k)
    {
      LeftExactly(stored, asked, s3, k);
    }
  }

  /** The transcripts bucket: its keys and the batches it was asked to delete. */
  class TranscriptsBucket {
    var keys: set<string>
    ghost var asked: seq<seq<string>>

    constructor (keys: set<string>)
      ensures this.keys == keys && asked == []
    {
      this.keys := keys;
      asked := [];
    }

    /** One `DeleteObjects` request. */
    method DeleteObjects(chunk: seq<string>, o: Outcome)
      modifies this
      ensures keys == Left(old(keys), chunk, o) && asked == old(asked) + [chunk]
    {
      keys := Left(keys, chunk, o);
      asked := asked + [chunk];
    }

    /** The `try` and `catch` around one batch. */
    method TryBatch(chunk: seq<string>, o: Outcome, failed: seq<string>) returns (failed': seq<string>)
      modifies this
      ensures keys == Left(old(keys), chunk, o) && asked == old(asked) + [chunk]
      ensures failed' == failed + Reported(chunk, o)
    {
      DeleteObjects(chunk, o);
      match o
      case Failed(_) => return failed + chunk;
      case Answered(_, errors) =>
        failed' := failed;
        for j := 0 to |errors|
          invariant keys == Left(old(keys), chunk, o) && asked == old(asked) + [chunk]
          invariant failed' == failed + NamedKeys(errors[..j])
        {
          assert errors[..j + 1] == errors[..j] + [errors[j]];
          NamedKeysConcat(errors[..j], [errors[j]]);
          if errors[j].Some? && errors[j].value != "" {
            failed' := failed' + [errors[j].value];
          }
        }
        assert errors[..|errors|] == errors;
    }

    /**
     * `deleteTranscriptObjects`. Whatever becomes of each batch, all of them are
     * asked, in order; the verdict and what is left are theirs.
     */
    method DeleteTranscriptObjects(doomed: seq<string>, configured: bool, cap: nat, s3: nat -> Outcome)
      returns (verdict: Verdict)
      requires cap >= 1 && asked == []
      modifies this
      ensures verdict == VerdictOf(doomed, configured, cap, s3)
      ensures keys == LeftBy(old(keys), doomed, configured, cap, s3)
      ensures asked == if configured then Batches(doomed, 0, cap) else []
      ensures verdict == Returned <==> doomed == [] || (configured && AllQuiet(|asked|, s3))
      ensures verdict == NotConfigured <==> doomed != [] && !configured
      ensures verdict.Threw? ==> verdict == Threw(Undeleted(asked, s3), |doomed|)
      ensures forall k :: k in keys <==>
        k in old(keys) && forall i :: 0 <= i < |asked| ==> Spares(asked[i], s3(i), k)
    {
      EndsAs(doomed, configured, cap, s3);
      LeftByExactly(old(keys), doomed, configured, cap, s3);
      if |doomed| == 0 {
        return Returned;
      }
      if !configured {
        return NotConfigured;
      }
      var failed := TryBatches(doomed, cap, s3);
      verdict := if |failed| > 0 then Threw(|failed|, |doomed|) else Returned;
    }

    /** The loop over the batches. */
    method TryBatches(doomed: seq<string>, cap: nat, s3: nat -> Outcome) returns (failed: seq<string>)
      requires cap >= 1 && asked == []
      modifies this
      ensures asked == Batches(doomed, 0, cap)
      ensures keys == LeftAfter(old(keys), asked, s3) && failed == ReportedAfter(asked, s3)
    {
      failed := [];
      var i: nat, batch: nat := 0, 0;
      ghost var all, rest := Batches(doomed, 0, cap), Batches(doomed, 0, cap);
      while i < |doomed|
        invariant batch == |asked|
        invariant all == asked + rest && rest == Batches(doomed, i, cap)
        invariant keys == LeftAfter(old(keys), asked, s3)
        invariant failed == ReportedAfter(asked, s3)
        decreases |doomed| - i
      {
        var chunk := Slice(doomed, i, i + cap);
        OneMoreBatch(old(keys), asked, chunk, s3);
        Regroup(asked, chunk, [], Batches(doomed, i + cap, cap));
        failed := TryBatch(chunk, s3(batch), failed);
        i, batch, rest := i + cap, batch + 1, Batches(doomed, i + cap, cap);
      }
      assert asked + [] == asked;
    }
  }

  // ----- When a normal return means the keys are gone -----

  /** An answer reports an error exactly when it keeps a key it was asked for, and names only such keys. */
  ghost predicate Honest(chunk: seq<string>, o: Outcome) {
    o.Answered? ==>
      && (o.errors != [] <==> exists k :: k in chunk && k in o.kept)
      && (forall e :: e in o.errors && e.Some? ==> e.value in chunk && e.value in o.kept)
      && (forall e :: e in o.errors && e.Some? ==> e.value != "")
  }

  /** Without a reported key a batch was answered, and named no key in an error. */
  lemma {:induction false} NormalReturnAnswer(asked: seq<seq<string>>, s3: nat -> Outcome, i: nat)
    requires i < |asked| && asked[i] != [] && ReportedAfter(asked, s3) == []
    ensures s3(i).Answered? && NamedKeys(s3(i).errors) == []
    decreases |asked|
  {
    var front := asked[..|asked| - 1];
    if i < |front| {
      NormalReturnAnswer(front, s3, i);
    }
  }

  lemma NormalReturnAnswers(asked: seq<seq<string>>, s3: nat -> Outcome)
    requires ReportedAfter(asked, s3) == [] && NoneEmpty(asked)
    ensures forall i :: 0 <= i < |asked| ==> s3(i).Answered? && NamedKeys(s3(i).errors) == []
  {
    forall i | 0 <= i < |asked| ensures s3(i).Answered? && NamedKeys(s3(i).errors) == [] {
      NormalReturnAnswer(asked, s3, i);
    }
  }

  lemma {:induction false} InFlat(asked: seq<seq<string>>, k: string)
    ensures k in Flat(asked) <==> exists i :: 0 <= i < |asked| && k in asked[i]
  {
    if asked != [] {
      var front := asked[..|asked| - 1];
      InFlat(front, k);
      assert forall i :: 0 <= i < |front| ==> front[i] == asked[i];
    }
  }

  /** Some batch asked for the key was answered and did not keep it. */
  predicate Dropped(asked: seq<seq<string>>, s3: nat -> Outcome, k: string) {
    exists i :: 0 <= i < |asked| && k in asked[i] && s3(i).Answered? && k !in s3(i).kept
  }

  lemma NotDroppedIsLeft(stored: set<string>, asked: seq<seq<string>>, s3: nat -> Outcome, k: string)
    requires ReportedAfter(asked, s3) == [] && NoneEmpty(asked)
    ensures k in LeftAfter(stored, asked, s3) <==> k in stored && !Dropped(asked, s3, k)
  {
    NormalReturnAnswers(asked, s3);
    LeftExactly(stored, asked, s3, k);
  }

  /** A call that returned normally asked for batches that were not empty, and had nothing to report. */
  lemma ReturnedQuietly(stored: set<string>, doomed: seq<string>, configured: bool, cap: nat, s3: nat -> Outcome)
    requires cap >= 1 && VerdictOf(doomed, configured, cap, s3) == Returned
    ensures var asked := Batches(doomed, 0, cap);
      && ReportedAfter(asked, s3) == [] && NoneEmpty(asked)
      && Flat(asked) == doomed && LeftBy(stored, doomed, configured, cap, s3) == LeftAfter(stored, asked, s3)
  {
    AllBatches(doomed, cap);
  }

  /**
   * What a normal return means, for any keys, repeated or not stored: they are all
   * gone exactly when each one that was stored is dropped by some batch asked for
   * it.
   */
  lemma NormalReturnExactly(stored: set<string>, doomed: seq<string>, configured: bool, cap: nat, s3: nat -> Outcome)
    requires cap >= 1 && VerdictOf(doomed, configured, cap, s3) == Returned
    ensures (forall k :: k in doomed ==> k !in LeftBy(stored, doomed, configured, cap, s3)) <==>
            forall k :: k in doomed && k in stored ==> Dropped(Batches(doomed, 0, cap), s3, k)
  {
    ReturnedQuietly(stored, doomed, configured, cap, s3);
    forall k
      ensures k in LeftBy(stored, doomed, configured, cap, s3) <==>
              k in stored && !Dropped(Batches(doomed, 0, cap), s3, k)
    {
      NotDroppedIsLeft(stored, Batches(doomed, 0, cap), s3, k);
    }
  }

  lemma NamedErrorsCount(errors: seq<Option<string>>)
    requires forall e :: e in errors ==> e.Some? && e.value != ""
    ensures errors != [] ==> NamedKeys(errors) != []
  {
    if errors != [] {
      assert errors[0] in errors;
    }
  }

  ghost predicate AllHonest(asked: seq<seq<string>>, s3: nat -> Outcome) {
    forall i :: 0 <= i < |asked| ==> Honest(asked[i], s3(i))
  }

  ghost predicate AnsweredWithErrors(o: Outcome) {
    o.Answered? && o.errors != []
  }

  /** With every error named, a normal return leaves none of the given keys. */
  lemma NormalReturnWithNamedErrors(stored: set<string>, doomed: seq<string>, configured: bool, cap: nat,
      s3: nat -> Outcome)
    requires cap >= 1 && VerdictOf(doomed, configured, cap, s3) == Returned
    requires AllHonest(Batches(doomed, 0, cap), s3)
    requires forall i: nat, e :: s3(i).Answered? && e in s3(i).errors ==> e.Some?
    ensures forall k :: k in doomed ==> k !in LeftBy(stored, doomed, configured, cap, s3)
  {
    var asked := Batches(doomed, 0, cap);
    ReturnedQuietly(stored, doomed, configured, cap, s3);
    NormalReturnAnswers(asked, s3);
    forall i | 0 <= i < |asked| ensures !AnsweredWithErrors(s3(i)) {
      assert Honest(asked[i], s3(i));
      NamedErrorsCount(s3(i).errors);
    }
    NoErrorsNoKeys(stored, asked, s3);
  }

  lemma NoErrorsNoKeys(stored: set<string>, asked: seq<seq<string>>, s3: nat -> Outcome)
    requires AllHonest(asked, s3) && forall i :: 0 <= i < |asked| ==> !AnsweredWithErrors(s3(i))
    requires ReportedAfter(asked, s3) == [] && NoneEmpty(asked)
    ensures forall k :: k in Flat(asked) ==> k !in LeftAfter(stored, asked, s3)
  {
    NormalReturnAnswers(asked, s3);
    forall k | k in Flat(asked) ensures k !in LeftAfter(stored, asked, s3) {
      InFlat(asked, k);
      var i :| 0 <= i < |asked| && k in asked[i];
      assert Honest(asked[i], s3(i));
      LeftExactly(stored, asked, s3, k);
      assert !Spares(asked[i], s3(i), k);
    }
  }

  lemma {:induction false} AskedOnce(asked: seq<seq<string>>, i: nat, j: nat, k: string)
    requires Distinct(Flat(asked)) && i < j < |asked| && k in asked[i]
    ensures k !in asked[j]
    decreases |asked|
  {
    var front, last := asked[..|asked| - 1], asked[|asked| - 1];
    DistinctConcat(Flat(front), last);
    if j < |front| {
      AskedOnce(front, i, j, k);
    } else {
      InFlat(front, k);
      assert front[i] == asked[i];
    }
  }

  /**
   * The gap in the batches' own terms: errors without a key are skipped. With keys
   * given once and all stored, after a normal return they are all gone exactly
   * when no batch answered an error.
   */
  lemma DistinctKeysGoneExactly(stored: set<string>, doomed: seq<string>, configured: bool, cap: nat,
      s3: nat -> Outcome)
    requires cap >= 1 && VerdictOf(doomed, configured, cap, s3) == Returned
    requires AllHonest(Batches(doomed, 0, cap), s3)
    requires Distinct(doomed) && forall k :: k in doomed ==> k in stored
    ensures (forall k :: k in doomed ==> k !in LeftBy(stored, doomed, configured, cap, s3)) <==>
            forall i :: 0 <= i < |Batches(doomed, 0, cap)| ==> !AnsweredWithErrors(s3(i))
  {
    var asked := Batches(doomed, 0, cap);
    ReturnedQuietly(stored, doomed, configured, cap, s3);
    if forall i :: 0 <= i < |asked| ==> !AnsweredWithErrors(s3(i)) {
      NoErrorsNoKeys(stored, asked, s3);
    } else {
      var i :| 0 <= i < |asked| && AnsweredWithErrors(s3(i));
      assert Honest(asked[i], s3(i));
      var k :| k in asked[i] && k in s3(i).kept;
      InFlat(asked, k);
      KeptIsLeft(stored, asked, s3, i, k);
    }
  }

  lemma KeptIsLeft(stored: set<string>, asked: seq<seq<string>>, s3: nat -> Outcome, i: nat, k: string)
    requires Distinct(Flat(asked)) && k in stored
    requires i < |asked| && k in asked[i] && s3(i).Answered? && k in s3(i).kept
    ensures k in LeftAfter(stored, asked, s3)
  {
    forall j | 0 <= j < |asked| ensures Spares(asked[j], s3(j), k) {
      if i < j {
        AskedOnce(asked, i, j, k);
      } else if j < i && k in asked[j] {
        AskedOnce(asked, j, i, k);
      }
    }
    LeftExactly(stored, asked, s3, k);
  }

  // ----- Where the promises fail -----

  /** S3 keeps the one key it is asked for and reports that without naming it. */
  function SilentError(i: nat): Outcome {
    Answered({"a"}, [None])
  }

  /** The call returns normally and the key is still there. */
  lemma SilentErrorExample()
    ensures AllHonest(Batches(["a"], 0, 1000), SilentError)
    ensures VerdictOf(["a"], true, 1000, SilentError) == Returned
    ensures "a" in LeftBy({"a"}, ["a"], true, 1000, SilentError)
  {
    var asked := Batches(["a"], 0, 1000);
    assert Slice(["a"], 0, 1000) == ["a"] + Slice(["a"], 1, 1000) == ["a"];
    assert asked == [["a"]] + Batches(["a"], 1000, 1000) == [["a"]];
    assert asked[..0] == [];
    assert NamedKeys([None]) == NamedKeys([None][1..]) == [];
    assert "a" in asked[0];
    assert LeftAfter({"a"}, asked, SilentError) == Left(LeftAfter({"a"}, [], SilentError), ["a"], SilentError(0));
  }

  /** Two parts on two pages, the first of which is truncated and names no marker. */
  const CUT_SHORT: Server :=
    Server([ReportedPart(Some(1), "a", None), ReportedPart(Some(2), "b", None)], i => 1, i => false)

  /** The listing ends after the first page. */
  lemma CutShortExample()
    ensures CUT_SHORT.Valid() && CUT_SHORT.Reach(0) == 1 && !CUT_SHORT.MarkersNamed(0)
    ensures |Kept(CUT_SHORT.parts[..CUT_SHORT.Reach(0)])| == 1 && |Kept(CUT_SHORT.parts)| == 2
  {
    var parts := CUT_SHORT.parts;
    assert parts == parts[..1] + parts[1..];
    KeptConcat(parts[..1], parts[1..]);
    assert parts[..1][1..] == [] && parts[1..][1..] == [];
  }
}
