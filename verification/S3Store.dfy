/**
 * An abstract S3: buckets of objects and open multipart uploads, and what each
 * command does to one.
 */
module S3Store {
  import opened Optional
  import opened Text
  import opened CopySource

  // ----- The store -----

  /** An open upload is named by its key and its id together. */
  datatype UploadName = UploadName(key: Bytes, id: Bytes)

  /** `locked` keys cannot be deleted (S3 answers AccessDenied for them). */
  datatype Bucket = Bucket(
    objects: map<Bytes, Bytes>,
    locked: set<Bytes>,
    uploads: map<UploadName, map<nat, Bytes>>)

  type Store = map<Bytes, Bucket>

  datatype Name =
    | PutObject | GetObject | HeadObject | DeleteObject | DeleteObjects | CopyObject
    | CreateMultipartUpload | UploadPart | UploadPartCopy | ListParts
    | CompleteMultipartUpload | AbortMultipartUpload
    | ListObjectsV2 | ListObjects

  /** A part as a completion names it. */
  datatype NamedPart = NamedPart(partNumber: nat, etag: Bytes)

  /**
   * A command's input. `ifMatch` is the condition a part copy puts on its source
   * and a completion on the object; for a new upload `uploadId` is the id that S3
   * makes up.
   */
  datatype Input = Input(
    bucket: Bytes,
    key: Option<Bytes>,
    prefix: Option<Bytes>,
    startAfter: Option<Bytes>,
    copySource: Option<Bytes>,
    delete: Option<seq<Bytes>>,
    marker: Option<Bytes>,
    delimiter: Option<Byte>,
    maxKeys: nat,
    quiet: bool,
    body: Bytes,
    uploadId: Bytes,
    partNumber: nat,
    parts: seq<NamedPart>,
    ifMatch: Option<Bytes>)

  datatype Entry = Entry(key: Bytes, size: nat)

  datatype Output = Output(
    key: Option<Bytes>,
    prefix: Option<Bytes>,
    startAfter: Option<Bytes>,
    contents: Option<seq<Entry>>,
    commonPrefixes: Option<seq<Bytes>>,
    deleted: Option<seq<Bytes>>,
    errors: Option<seq<Bytes>>,
    marker: Option<Bytes>,
    truncated: bool,
    body: Option<Bytes>,
    size: Option<nat>,
    uploadId: Option<Bytes>,
    etag: Option<Bytes>,
    parts: Option<map<nat, Bytes>>)

  const EMPTY: Output :=
    Output(None, None, None, None, None, None, None, None, false, None, None, None, None, None)

  datatype Error =
    | NoSuchBucket | NoSuchKey | InvalidKey | MissingKey | AccessDenied | InvalidCopySource | NoSuchVersion
    | NoSuchUpload | InvalidPart | PreconditionFailed
    | ResolverFailed | MalformedPrefix | CopySourceNamesNoKey

  type Answer = Result<Output, Error>

  /** S3 refuses an empty key and one over 1024 bytes. */
  predicate ValidKey(k: Bytes) {
    1 <= |k| <= 1024
  }

  /** An ETag stands for the bytes it was given to, and is taken to be them. */
  function EtagOf(data: Bytes): Bytes {
    data
  }

  // ----- Listing -----

  ghost predicate Least(m: Bytes, ks: set<Bytes>) {
    m in ks && forall k :: k in ks && k != m ==> Less(m, k)
  }

  lemma {:induction false} LeastExists(ks: set<Bytes>)
    requires ks != {}
    ensures exists m :: Least(m, ks)
  {
    var m :| m in ks;
    if ks == {m} {
      assert Least(m, ks);
    } else {
      LeastExists(ks - {m});
      var n: Bytes :| Least(n, ks - {m});
      LessTotal(m, n);
      if Less(n, m) {
        assert Least(n, ks);
      } else {
        forall k | k in ks && k != m ensures Less(m, k) {
          if k != n {
            LessTransitive(m, n, k);
          }
        }
        assert Least(m, ks);
      }
    }
  }

  /** The keys in S3's order, that of their bytes. */
  ghost function InOrder(ks: set<Bytes>): seq<Bytes>
    decreases |ks|
  {
    if ks == {} then []
    else
      LeastExists(ks);
      var m :| Least(m, ks);
      [m] + InOrder(ks - {m})
  }

  ghost predicate Increasing(ks: seq<Bytes>) {
    ks == [] || ((forall k :: k in ks[1..] ==> Less(ks[0], k)) && Increasing(ks[1..]))
  }

  lemma {:induction false} InOrderIsIncreasing(ks: set<Bytes>)
    ensures Increasing(InOrder(ks)) && forall k :: k in InOrder(ks) <==> k in ks
    decreases |ks|
  {
    if ks != {} {
      LeastExists(ks);
      var m := InOrder(ks)[0];
      assert InOrder(ks)[1..] == InOrder(ks - {m});
      InOrderIsIncreasing(ks - {m});
    }
  }

  lemma {:induction false} IncreasingIsUnique(a: seq<Bytes>, b: seq<Bytes>)
    requires Increasing(a) && Increasing(b) && forall k :: k in a <==> k in b
    ensures a == b
  {
    assert a != [] ==> a[0] in a;
    assert b != [] ==> b[0] in b;
    if a != [] {
      LessTotal(a[0], b[0]);
      assert a[0] == b[0];
      LessTotal(a[0], a[0]);
      assert a == [a[0]] + a[1..] && b == [b[0]] + b[1..];
      assert forall k :: k in a[1..] <==> k in a && k != a[0];
      IncreasingIsUnique(a[1..], b[1..]);
    }
  }

  datatype Item = Content(entry: Entry) | Common(prefix: Bytes)

  /** A key that has the delimiter after the first `n` bytes stands for all keys up to there. */
  function ItemOf(objects: map<Bytes, Bytes>, k: Bytes, n: nat, delimiter: Option<Byte>): Item {
    if n > |k| || delimiter.None? || delimiter.value !in k[n..] then
      Content(Entry(k, if k in objects then |objects[k]| else 0))
    else
      Common(k[..n] + Cut(k[n..], delimiter.value).0 + [delimiter.value])
  }

  /** The items of a listing: a common prefix is listed once. */
  function AddItem(before: seq<Item>, item: Item): seq<Item> {
    if before != [] && before[|before| - 1] == item then before else before + [item]
  }

  function Roll(objects: map<Bytes, Bytes>, ks: seq<Bytes>, n: nat, delimiter: Option<Byte>): seq<Item> {
    if ks == [] then []
    else AddItem(Roll(objects, ks[..|ks| - 1], n, delimiter), ItemOf(objects, ks[|ks| - 1], n, delimiter))
  }

  function Contents(items: seq<Item>): seq<Entry> {
    if items == [] then []
    else (if items[0].Content? then [items[0].entry] else []) + Contents(items[1..])
  }

  function CommonPrefixes(items: seq<Item>): seq<Bytes> {
    if items == [] then []
    else (if items[0].Common? then [items[0].prefix] else []) + CommonPrefixes(items[1..])
  }

  predicate ComesAfter(after: Option<Bytes>, k: Bytes) {
    after.Some? ==> Less(after.value, k)
  }

  /** The keys with the prefix that come after `after`. */
  ghost function Selected(objects: map<Bytes, Bytes>, prefix: Bytes, after: Option<Bytes>): set<Bytes> {
    set k | k in objects && prefix <= k && ComesAfter(after, k)
  }

  ghost function ListItems(objects: map<Bytes, Bytes>, prefix: Bytes, after: Option<Bytes>, delimiter: Option<Byte>)
    : seq<Item>
  {
    Roll(objects, InOrder(Selected(objects, prefix, after)), |prefix|, delimiter)
  }

  function First<T>(s: seq<T>, n: nat): seq<T> {
    if |s| <= n then s else s[..n]
  }

  /** One page; S3 answers an empty page that is not truncated when asked for no keys. */
  ghost function List(b: Bucket, input: Input, after: Option<Bytes>): Output {
    var items := ListItems(b.objects, input.prefix.GetOr([]), after, input.delimiter);
    var page := First(items, input.maxKeys);
    EMPTY.(prefix := Some(input.prefix.GetOr([])), contents := Some(Contents(page)),
           commonPrefixes := Some(CommonPrefixes(page)), truncated := 0 < input.maxKeys < |items|)
  }

  // ----- Commands -----

  /** Deletes the keys one by one; a locked key is reported instead. */
  function DeleteEach(b: Bucket, ks: seq<Bytes>): (Bucket, seq<Bytes>, seq<Bytes>)
    decreases ks
  {
    if ks == [] then (b, [], [])
    else if ks[0] in b.locked then
      var (b', deleted, errors) := DeleteEach(b, ks[1..]);
      (b', deleted, [ks[0]] + errors)
    else
      var (b', deleted, errors) := DeleteEach(b.(objects := b.objects - {ks[0]}), ks[1..]);
      (b', [ks[0]] + deleted, errors)
  }

  function CopyFrom(store: Store, header: Bytes): Result<Bytes, Error> {
    match ReadCopySource(header)
    case None => Err(InvalidCopySource)
    case Some(source) =>
      if source.query.Some? then Err(NoSuchVersion)
      else if source.bucket !in store then Err(NoSuchBucket)
      else if !ValidKey(source.key) then Err(InvalidKey)
      else if source.key !in store[source.bucket].objects then Err(NoSuchKey)
      else Ok(store[source.bucket].objects[source.key])
  }

  /** What a copy reads, wherever it goes. */
  function Copied(store: Store, input: Input): Result<Bytes, Error> {
    if input.copySource.None? then Err(InvalidCopySource) else CopyFrom(store, input.copySource.value)
  }

  predicate IsCopy(name: Name) {
    name.CopyObject? || name.UploadPartCopy?
  }

  /** Parts are named in ascending order, each with the ETag it was stored under. */
  predicate PartsAgree(parts: map<nat, Bytes>, named: seq<NamedPart>) {
    named == [] ||
    (&& named[0].partNumber in parts && named[0].etag == EtagOf(parts[named[0].partNumber])
     && (|named| > 1 ==> named[0].partNumber < named[1].partNumber)
     && PartsAgree(parts, named[1..]))
  }

  function Assembled(parts: map<nat, Bytes>, named: seq<NamedPart>): Bytes
    requires PartsAgree(parts, named)
  {
    if named == [] then [] else parts[named[0].partNumber] + Assembled(parts, named[1..])
  }

  predicate Matches(object0: Option<Bytes>, ifMatch: Option<Bytes>) {
    ifMatch.Some? ==> object0.Some? && EtagOf(object0.value) == ifMatch.value
  }

  function Lookup(objects: map<Bytes, Bytes>, k: Bytes): Option<Bytes> {
    if k in objects then Some(objects[k]) else None
  }

  /** The bytes a completion writes. */
  function Completion(parts: map<nat, Bytes>, named: seq<NamedPart>, current: Option<Bytes>, ifMatch: Option<Bytes>)
    : Result<Bytes, Error>
  {
    if named == [] || !PartsAgree(parts, named) then Err(InvalidPart)
    else if !Matches(current, ifMatch) then Err(PreconditionFailed)
    else Ok(Assembled(parts, named))
  }

  /** An upload closed with its object written. */
  function Completed(b: Bucket, u: UploadName, data: Bytes): Bucket {
    b.(objects := b.objects[u.key := data], uploads := b.uploads - {u})
  }

  function CompletionAnswer(k: Bytes, data: Bytes): Answer {
    Ok(EMPTY.(key := Some(k), etag := Some(EtagOf(data))))
  }

  /** What a completion does once the bytes it writes are known. */
  function Outcome(b: Bucket, u: UploadName, data: Result<Bytes, Error>): (Bucket, Answer) {
    if data.Err? then (b, Err(data.error)) else (Completed(b, u, data.value), CompletionAnswer(u.key, data.value))
  }

  /** The commands on an open upload. */
  function OnUpload(b: Bucket, name: Name, input: Input, u: UploadName, copied: Result<Bytes, Error>): (Bucket, Answer)
    requires u in b.uploads
  {
    var parts := b.uploads[u];
    match name
    case UploadPart =>
      (b.(uploads := b.uploads[u := parts[input.partNumber := input.body]]),
       Ok(EMPTY.(etag := Some(EtagOf(input.body)))))
    case UploadPartCopy =>
      if copied.Err? then (b, Err(copied.error))
      else if !Matches(Some(copied.value), input.ifMatch) then (b, Err(PreconditionFailed))
      else
        (b.(uploads := b.uploads[u := parts[input.partNumber := copied.value]]),
         Ok(EMPTY.(etag := Some(EtagOf(copied.value)))))
    case CompleteMultipartUpload =>
      Outcome(b, u, Completion(parts, input.parts, Lookup(b.objects, u.key), input.ifMatch))
    case AbortMultipartUpload => (b.(uploads := b.uploads - {u}), Ok(EMPTY))
    case _ => (b, Ok(EMPTY.(key := Some(u.key), uploadId := Some(u.id), parts := Some(parts))))
  }

  function Fetched(found: Option<Bytes>, whole: bool): Answer {
    if found.None? then Err(NoSuchKey)
    else if whole then Ok(EMPTY.(body := found))
    else Ok(EMPTY.(size := Some(|found.value|)))
  }

  /** The commands that name one key. */
  function OnKey(b: Bucket, name: Name, input: Input, k: Bytes, copied: Result<Bytes, Error>): (Bucket, Answer) {
    match name
    case PutObject => (b.(objects := b.objects[k := input.body]), Ok(EMPTY))
    case GetObject => (b, Fetched(Lookup(b.objects, k), true))
    case HeadObject => (b, Fetched(Lookup(b.objects, k), false))
    case DeleteObject =>
      if k in b.locked then (b, Err(AccessDenied)) else (b.(objects := b.objects - {k}), Ok(EMPTY))
    case CopyObject =>
      if copied.Err? then (b, Err(copied.error)) else (b.(objects := b.objects[k := copied.value]), Ok(EMPTY))
    case CreateMultipartUpload =>
      (b.(uploads := b.uploads[UploadName(k, input.uploadId) := map[]]),
       Ok(EMPTY.(key := Some(k), uploadId := Some(input.uploadId))))
    case _ =>
      var u := UploadName(k, input.uploadId);
      if u !in b.uploads then (b, Err(NoSuchUpload)) else OnUpload(b, name, input, u, copied)
  }

  ghost predicate AnyInvalid(ks: seq<Bytes>) {
    exists k :: k in ks && !ValidKey(k)
  }

  predicate IsListing(name: Name) {
    name.ListObjectsV2? || name.ListObjects?
  }

  predicate NamesOneKey(name: Name) {
    !IsListing(name) && !name.DeleteObjects?
  }

  /** What a command does to its bucket; `copied` is what its copy source reads. */
  ghost function OnBucket(b: Bucket, name: Name, input: Input, copied: Result<Bytes, Error>): (Bucket, Answer) {
    match name
    case ListObjectsV2 => (b, Ok(List(b, input, input.startAfter).(startAfter := input.startAfter)))
    case ListObjects => (b, Ok(List(b, input, input.marker).(marker := input.marker)))
    case DeleteObjects =>
      if input.delete.None? || AnyInvalid(input.delete.value) then (b, Err(InvalidKey))
      else
        var (b', deleted, errors) := DeleteEach(b, input.delete.value);
        (b', Ok(EMPTY.(deleted := if input.quiet then None else Some(deleted), errors := Some(errors))))
    case _ =>
      if input.key.None? then (b, Err(MissingKey))
      else if !ValidKey(input.key.value) then (b, Err(InvalidKey))
      else OnKey(b, name, input, input.key.value, copied)
  }

  // ----- What the store promises -----

  /** What is put, or copied, under a key is fetched from it, and the other keys are as they were. */
  lemma StoredIsFetched(b: Bucket, name: Name, input: Input, copied: Result<Bytes, Error>, fetch: Input)
    requires input.key.Some? && ValidKey(input.key.value) && fetch.key == input.key
    requires name.PutObject? || (name.CopyObject? && copied.Ok?)
    ensures var (after, answer) := OnBucket(b, name, input, copied);
      var data := if name.PutObject? then input.body else copied.value;
      && answer.Ok?
      && OnBucket(after, GetObject, fetch, copied) == (after, Ok(EMPTY.(body := Some(data))))
      && OnBucket(after, HeadObject, fetch, copied) == (after, Ok(EMPTY.(size := Some(|data|))))
      && forall k :: k != input.key.value ==> Lookup(after.objects, k) == Lookup(b.objects, k)
  {
  }

  /** A deleted key is gone, unless it is locked; the other keys are as they were. */
  lemma DeletedIsGone(b: Bucket, input: Input, copied: Result<Bytes, Error>, fetch: Input)
    requires input.key.Some? && ValidKey(input.key.value) && fetch.key == input.key
    ensures var (after, answer) := OnBucket(b, DeleteObject, input, copied);
      && (input.key.value in b.locked ==> after == b && answer == Err(AccessDenied))
      && (input.key.value !in b.locked ==>
            answer == Ok(EMPTY) && OnBucket(after, GetObject, fetch, copied) == (after, Err(NoSuchKey)))
      && forall k :: k != input.key.value ==> Lookup(after.objects, k) == Lookup(b.objects, k)
  {
  }

  /** A batch removes its keys but the locked ones, which it reports, and touches no other key. */
  lemma {:induction false} BatchDeletes(b: Bucket, ks: seq<Bytes>, k: Bytes)
    ensures var (after, deleted, errors) := DeleteEach(b, ks);
      && after.locked == b.locked && after.uploads == b.uploads
      && (k in after.objects <==> k in b.objects && (k in ks ==> k in b.locked))
      && (k in after.objects ==> after.objects[k] == b.objects[k])
      && (k in deleted <==> k in ks && k !in b.locked)
      && (k in errors <==> k in ks && k in b.locked)
    decreases ks
  {
    if ks != [] {
      assert k in ks <==> k == ks[0] || k in ks[1..];
      BatchDeletes(if ks[0] in b.locked then b else b.(objects := b.objects - {ks[0]}), ks[1..], k);
    }
  }

  /** An open upload's parts, named in order, become the object one after the other, and the upload is closed. */
  lemma PartsBecomeTheObject(b: Bucket, input: Input, copied: Result<Bytes, Error>, first: NamedPart, last: NamedPart)
    requires input.key.Some? && ValidKey(input.key.value) && input.parts == [first, last] && input.ifMatch.None?
    requires first.partNumber < last.partNumber
    requires var u := UploadName(input.key.value, input.uploadId);
      && u in b.uploads && first.partNumber in b.uploads[u] && last.partNumber in b.uploads[u]
      && b.uploads[u][first.partNumber] == first.etag && b.uploads[u][last.partNumber] == last.etag
    ensures var u := UploadName(input.key.value, input.uploadId);
      var after := OnBucket(b, CompleteMultipartUpload, input, copied).0;
      && after.objects == b.objects[u.key := b.uploads[u][first.partNumber] + b.uploads[u][last.partNumber]]
      && after.uploads == b.uploads - {u} && after.locked == b.locked
  {
    var parts := b.uploads[UploadName(input.key.value, input.uploadId)];
    assert [first, last][1..] == [last] && [last][1..] == [];
    assert PartsAgree(parts, [last]) && PartsAgree(parts, [first, last]);
    assert Assembled(parts, [last]) == parts[last.partNumber] + [];
    var data := parts[first.partNumber] + parts[last.partNumber];
    assert Assembled(parts, [first, last]) == data;
    CompletionWrites(b, input, copied, data);
  }

  lemma CompletionWrites(b: Bucket, input: Input, copied: Result<Bytes, Error>, data: Bytes)
    requires input.key.Some? && ValidKey(input.key.value) && input.ifMatch.None?
    requires var u := UploadName(input.key.value, input.uploadId);
      u in b.uploads && input.parts != [] && PartsAgree(b.uploads[u], input.parts)
      && Assembled(b.uploads[u], input.parts) == data
    ensures var u := UploadName(input.key.value, input.uploadId);
      OnBucket(b, CompleteMultipartUpload, input, copied) == (Completed(b, u, data), CompletionAnswer(u.key, data))
  {
  }

  lemma {:induction false} ContentsWithoutDelimiter(objects: map<Bytes, Bytes>, ks: seq<Bytes>, n: nat)
    requires Increasing(ks) && forall k :: k in ks ==> k in objects
    ensures |Roll(objects, ks, n, None)| == |ks|
    ensures forall i :: 0 <= i < |ks| ==> Roll(objects, ks, n, None)[i] == Content(Entry(ks[i], |objects[ks[i]]|))
    decreases |ks|
  {
    if ks != [] {
      var front, last := ks[..|ks| - 1], ks[|ks| - 1];
      IncreasingFront(ks);
      assert forall k :: k in front ==> k in ks;
      ContentsWithoutDelimiter(objects, front, n);
      if front != [] {
        assert front[|front| - 1] != last;
      }
    }
  }

  lemma {:induction false} IncreasingFront(ks: seq<Bytes>)
    requires Increasing(ks) && ks != []
    ensures Increasing(ks[..|ks| - 1]) && ks[|ks| - 1] !in ks[..|ks| - 1]
  {
    if |ks| > 1 {
      var front, last := ks[..|ks| - 1], ks[|ks| - 1];
      IncreasingFront(ks[1..]);
      assert front[1..] == ks[1..][..|ks| - 2];
      assert last == ks[1..][|ks| - 2] && last in ks[1..];
      LessTotal(last, last);
      assert front == [ks[0]] + front[1..];
      assert forall k :: k in front[1..] ==> k in ks[1..];
    }
  }

  /** Without a delimiter the items are the objects under the prefix that come after the start, in order. */
  lemma ListsExactly(objects: map<Bytes, Bytes>, prefix: Bytes, after: Option<Bytes>)
    ensures var items, ks := ListItems(objects, prefix, after, None), InOrder(Selected(objects, prefix, after));
      && Increasing(ks)
      && (forall k :: k in ks <==> k in objects && prefix <= k && (after.Some? ==> Less(after.value, k)))
      && |items| == |ks|
      && forall i :: 0 <= i < |ks| && ks[i] in objects ==> items[i] == Content(Entry(ks[i], |objects[ks[i]]|))
  {
    var ks := InOrder(Selected(objects, prefix, after));
    InOrderIsIncreasing(Selected(objects, prefix, after));
    ContentsWithoutDelimiter(objects, ks, |prefix|);
  }

  ghost function Exec(store: Store, name: Name, input: Input): (Store, Answer) {
    if input.bucket !in store then (store, Err(NoSuchBucket))
    else
      var (b, answer) := OnBucket(store[input.bucket], name, input, Copied(store, input));
      (store[input.bucket := b], answer)
  }
}
