/**
 * The keyspace-prefix middleware over S3. A tenant whose calls go through the
 * middleware on a shared store sees a store of its own.
 */
module KeyspacePrefix {
  import opened Optional
  import opened Text
  import opened CopySource
  import opened S3Store

  // ----- The middleware -----

  /** What the registered resolver answers; `None` is no resolver. */
  datatype Resolver = Answers(prefix: Bytes) | Fails

  function ResolveKeyspacePrefix(resolver: Option<Resolver>): Result<Bytes, Error> {
    match resolver
    case None => Ok([])
    case Some(Fails) => Err(ResolverFailed)
    case Some(Answers(p)) =>
      if p != [] && !(p[|p| - 1] == SLASH && p[0] != SLASH) then Err(MalformedPrefix) else Ok(p)
  }

  function PrefixEach(p: Bytes, ks: seq<Bytes>): (r: seq<Bytes>)
    ensures |r| == |ks| && forall i :: 0 <= i < |ks| ==> r[i] == p + ks[i]
  {
    if ks == [] then [] else [p + ks[0]] + PrefixEach(p, ks[1..])
  }

  function PrefixOption(p: Bytes, k: Option<Bytes>): Option<Bytes> {
    if k.None? then None else Some(p + k.value)
  }

  function PrefixInput(input: Input, p: Bytes, isListing: bool): Result<Input, Error> {
    if input.copySource.Some? && PrefixCopySource(input.copySource.value, p).None? then Err(CopySourceNamesNoKey)
    else Ok(input.(
      key := PrefixOption(p, input.key),
      prefix := if input.prefix.Some? || isListing then Some(p + input.prefix.GetOr([])) else None,
      startAfter := PrefixOption(p, input.startAfter),
      copySource := if input.copySource.None? then None else PrefixCopySource(input.copySource.value, p),
      delete := if input.delete.None? then None else Some(PrefixEach(p, input.delete.value))))
  }

  /** Only what names keys is prefixed, and only what is there; but a listing always has a prefix. */
  lemma OnlyKeysArePrefixed(input: Input, p: Bytes, isListing: bool, input': Input)
    requires PrefixInput(input, p, isListing) == Ok(input')
    ensures input' == input.(key := input'.key, prefix := input'.prefix, startAfter := input'.startAfter,
                             copySource := input'.copySource, delete := input'.delete)
    ensures input'.key == (if input.key.None? then None else Some(p + input.key.value))
    ensures input'.startAfter == (if input.startAfter.None? then None else Some(p + input.startAfter.value))
    ensures input'.prefix == (if input.prefix.Some? then Some(p + input.prefix.value)
                              else if isListing then Some(p) else None)
    ensures input'.copySource.Some? <==> input.copySource.Some?
    ensures input'.delete.Some? <==> input.delete.Some?
    ensures input.delete.Some? ==>
      && |input'.delete.value| == |input.delete.value|
      && forall i :: 0 <= i < |input.delete.value| ==> input'.delete.value[i] == p + input.delete.value[i]
  {
    assert p + [] == p;
  }

  function Strip(p: Bytes, k: Bytes): Bytes {
    if p <= k then k[|p|..] else k
  }

  function StripOption(p: Bytes, k: Option<Bytes>): Option<Bytes> {
    if k.None? then None else Some(Strip(p, k.value))
  }

  function StripEach(p: Bytes, ks: seq<Bytes>): (r: seq<Bytes>)
    ensures |r| == |ks| && forall i :: 0 <= i < |ks| ==> r[i] == Strip(p, ks[i])
  {
    if ks == [] then [] else [Strip(p, ks[0])] + StripEach(p, ks[1..])
  }

  function StripEntries(p: Bytes, es: seq<Entry>): (r: seq<Entry>)
    ensures |r| == |es| && forall i :: 0 <= i < |es| ==> r[i] == Entry(Strip(p, es[i].key), es[i].size)
  {
    if es == [] then [] else [es[0].(key := Strip(p, es[0].key))] + StripEntries(p, es[1..])
  }

  function StripOutput(o: Output, p: Bytes): Output {
    o.(key := StripOption(p, o.key),
       prefix := StripOption(p, o.prefix),
       startAfter := StripOption(p, o.startAfter),
       contents := if o.contents.None? then None else Some(StripEntries(p, o.contents.value)),
       commonPrefixes := if o.commonPrefixes.None? then None else Some(StripEach(p, o.commonPrefixes.value)),
       deleted := if o.deleted.None? then None else Some(StripEach(p, o.deleted.value)),
       errors := if o.errors.None? then None else Some(StripEach(p, o.errors.value)))
  }

  /** One call through `keyspacePrefixMiddleware`. */
  ghost function Send(store: Store, resolver: Option<Resolver>, name: Name, input: Input): (Store, Answer) {
    match ResolveKeyspacePrefix(resolver)
    case Err(e) => (store, Err(e))
    case Ok(p) =>
      if p == [] then Exec(store, name, input)
      else
        (match PrefixInput(input, p, IsListing(name))
         case Err(e) => (store, Err(e))
         case Ok(input') =>
           var (store', answer) := Exec(store, name, input');
           (store', if answer.Err? then answer else Ok(StripOutput(answer.value, p))))
  }

  // ----- The tenant's view -----

  /** What follows the prefix in the keys that have it, taken off byte by byte. */
  function Stripped(ks: set<Bytes>, p: Bytes): set<Bytes>
    decreases |p|
  {
    if p == [] then ks
    else Stripped(set k | k in ks && k != [] && k[0] == p[0] :: k[1..], p[1..])
  }

  lemma {:induction false} StrippedMember(ks: set<Bytes>, p: Bytes, k: Bytes)
    ensures k in Stripped(ks, p) <==> p + k in ks
    decreases |p|
  {
    if p == [] {
      assert p + k == k;
    } else {
      var rest := set x | x in ks && x != [] && x[0] == p[0] :: x[1..];
      StrippedMember(rest, p[1..], k);
      assert (p + k)[0] == p[0] && (p + k)[1..] == p[1..] + k;
      if p[1..] + k in rest {
        var x :| x in ks && x != [] && x[0] == p[0] && x[1..] == p[1..] + k;
        assert x == [x[0]] + x[1..] == p + k;
      }
    }
  }

  function StrippedNames(us: set<UploadName>, p: Bytes): set<UploadName>
    decreases |p|
  {
    if p == [] then us
    else StrippedNames(set u | u in us && u.key != [] && u.key[0] == p[0] :: UploadName(u.key[1..], u.id), p[1..])
  }

  lemma {:induction false} StrippedName(us: set<UploadName>, p: Bytes, u: UploadName)
    ensures u in StrippedNames(us, p) <==> UploadName(p + u.key, u.id) in us
    decreases |p|
  {
    if p == [] {
      assert p + u.key == u.key;
    } else {
      var rest := set x | x in us && x.key != [] && x.key[0] == p[0] :: UploadName(x.key[1..], x.id);
      StrippedName(rest, p[1..], u);
      var full := UploadName(p + u.key, u.id);
      assert full.key[0] == p[0] && full.key[1..] == p[1..] + u.key;
      if UploadName(p[1..] + u.key, u.id) in rest {
        var x :| x in us && x.key != [] && x.key[0] == p[0]
                 && UploadName(x.key[1..], x.id) == UploadName(p[1..] + u.key, u.id);
        assert x.key == [x.key[0]] + x.key[1..] == p + u.key;
      }
    }
  }

  function ViewObjects(objects: map<Bytes, Bytes>, p: Bytes): map<Bytes, Bytes> {
    map k | k in Stripped(objects.Keys, p) :: (StrippedMember(objects.Keys, p, k); objects[p + k])
  }

  function ViewUploads(uploads: map<UploadName, map<nat, Bytes>>, p: Bytes): map<UploadName, map<nat, Bytes>> {
    map u | u in StrippedNames(uploads.Keys, p) ::
      (StrippedName(uploads.Keys, p, u); uploads[UploadName(p + u.key, u.id)])
  }

  function View(b: Bucket, p: Bytes): Bucket {
    Bucket(ViewObjects(b.objects, p), Stripped(b.locked, p), ViewUploads(b.uploads, p))
  }

  function ViewStore(store: Store, p: Bytes): Store {
    map n | n in store :: View(store[n], p)
  }

  lemma ViewLookup(b: Bucket, p: Bytes, k: Bytes)
    ensures k in View(b, p).objects <==> p + k in b.objects
    ensures k in View(b, p).objects ==> View(b, p).objects[k] == b.objects[p + k]
    ensures k in View(b, p).locked <==> p + k in b.locked
  {
    StrippedMember(b.objects.Keys, p, k);
    StrippedMember(b.locked, p, k);
  }

  lemma ViewUpload(b: Bucket, p: Bytes, u: UploadName)
    ensures u in View(b, p).uploads <==> UploadName(p + u.key, u.id) in b.uploads
    ensures u in View(b, p).uploads ==> View(b, p).uploads[u] == b.uploads[UploadName(p + u.key, u.id)]
  {
    StrippedName(b.uploads.Keys, p, u);
  }

  /** Objects whose entry at `p + k` alone changed have a view whose entry at `k` alone changed. */
  lemma ViewPut(objects: map<Bytes, Bytes>, p: Bytes, k: Bytes, v: Bytes)
    ensures ViewObjects(objects[p + k := v], p) == ViewObjects(objects, p)[k := v]
  {
    var after := objects[p + k := v];
    forall x: Bytes
      ensures x in ViewObjects(after, p) <==> x in ViewObjects(objects, p) || x == k
      ensures x in ViewObjects(after, p) ==>
        ViewObjects(after, p)[x] == if x == k then v else ViewObjects(objects, p)[x]
    {
      StrippedMember(objects.Keys, p, x);
      StrippedMember(after.Keys, p, x);
      assert (p + x)[|p|..] == x && (p + k)[|p|..] == k;
    }
  }

  lemma ViewRemove(objects: map<Bytes, Bytes>, p: Bytes, k: Bytes)
    ensures ViewObjects(objects - {p + k}, p) == ViewObjects(objects, p) - {k}
  {
    var after := objects - {p + k};
    forall x: Bytes
      ensures x in ViewObjects(after, p) <==> x in ViewObjects(objects, p) && x != k
      ensures x in ViewObjects(after, p) ==> ViewObjects(after, p)[x] == ViewObjects(objects, p)[x]
    {
      StrippedMember(objects.Keys, p, x);
      StrippedMember(after.Keys, p, x);
      assert (p + x)[|p|..] == x && (p + k)[|p|..] == k;
    }
  }

  lemma ViewOpen(uploads: map<UploadName, map<nat, Bytes>>, p: Bytes, u: UploadName, parts: map<nat, Bytes>)
    ensures ViewUploads(uploads[UploadName(p + u.key, u.id) := parts], p) == ViewUploads(uploads, p)[u := parts]
  {
    var after := uploads[UploadName(p + u.key, u.id) := parts];
    forall x: UploadName
      ensures x in ViewUploads(after, p) <==> x in ViewUploads(uploads, p) || x == u
      ensures x in ViewUploads(after, p) ==>
        ViewUploads(after, p)[x] == if x == u then parts else ViewUploads(uploads, p)[x]
    {
      StrippedName(uploads.Keys, p, x);
      StrippedName(after.Keys, p, x);
      assert (p + x.key)[|p|..] == x.key && (p + u.key)[|p|..] == u.key;
    }
  }

  lemma ViewClose(uploads: map<UploadName, map<nat, Bytes>>, p: Bytes, u: UploadName)
    ensures ViewUploads(uploads - {UploadName(p + u.key, u.id)}, p) == ViewUploads(uploads, p) - {u}
  {
    var after := uploads - {UploadName(p + u.key, u.id)};
    forall x: UploadName
      ensures x in ViewUploads(after, p) <==> x in ViewUploads(uploads, p) && x != u
      ensures x in ViewUploads(after, p) ==> ViewUploads(after, p)[x] == ViewUploads(uploads, p)[x]
    {
      StrippedName(uploads.Keys, p, x);
      StrippedName(after.Keys, p, x);
      assert (p + x.key)[|p|..] == x.key && (p + u.key)[|p|..] == u.key;
    }
  }

  // ----- Listing through a view -----

  lemma StripPrefixed(p: Bytes, k: Bytes)
    ensures Strip(p, p + k) == k
  {
    assert (p + k)[|p|..] == k;
  }

  lemma {:induction false} PrefixedIncreasing(p: Bytes, ks: seq<Bytes>)
    requires Increasing(ks)
    ensures Increasing(PrefixEach(p, ks))
  {
    if ks != [] {
      PrefixedIncreasing(p, ks[1..]);
      forall i | 0 <= i < |ks[1..]| ensures Less(p + ks[0], p + ks[1..][i]) {
        LessSamePrefix(p, ks[0], ks[1..][i]);
      }
      assert PrefixEach(p, ks)[1..] == PrefixEach(p, ks[1..]);
    }
  }

  /** Two markers let the same keys of a prefix through. */
  ghost predicate SameCut(p: Bytes, prefix: Bytes, there: Option<Bytes>, here: Option<Bytes>) {
    forall x: Bytes :: prefix <= x ==> (ComesAfter(there, p + x) <==> ComesAfter(here, x))
  }

  lemma PrefixedCut(p: Bytes, prefix: Bytes, after: Option<Bytes>)
    ensures SameCut(p, prefix, PrefixOption(p, after), after)
  {
    forall x: Bytes ensures ComesAfter(PrefixOption(p, after), p + x) <==> ComesAfter(after, x) {
      if after.Some? {
        LessSamePrefix(p, after.value, x);
      }
    }
  }

  /**
   * The keys a prefixed listing selects are the prefixed keys the plain listing of the
   * view selects, in the same order.
   */
  lemma SelectedThroughView(b: Bucket, p: Bytes, prefix: Bytes, there: Option<Bytes>, here: Option<Bytes>)
    requires SameCut(p, prefix, there, here)
    ensures InOrder(Selected(b.objects, p + prefix, there))
      == PrefixEach(p, InOrder(Selected(View(b, p).objects, prefix, here)))
  {
    var full, own := Selected(b.objects, p + prefix, there), Selected(View(b, p).objects, prefix, here);
    InOrderIsIncreasing(full);
    InOrderIsIncreasing(own);
    PrefixedIncreasing(p, InOrder(own));
    forall k: Bytes ensures k in full <==> p <= k && k[|p|..] in own {
      SelectedMember(b, p, prefix, there, here, k);
    }
    PrefixedMembers(p, InOrder(own), full);
    IncreasingIsUnique(PrefixEach(p, InOrder(own)), InOrder(full));
  }

  lemma SelectedMember(b: Bucket, p: Bytes, prefix: Bytes, there: Option<Bytes>, here: Option<Bytes>, k: Bytes)
    requires SameCut(p, prefix, there, here)
    ensures k in Selected(b.objects, p + prefix, there) <==>
            p <= k && k[|p|..] in Selected(View(b, p).objects, prefix, here)
  {
    if p <= k {
      var x := k[|p|..];
      assert k == p + x;
      ViewLookup(b, p, x);
      SelectionShifts(p, prefix, x);
    } else {
      assert p + prefix <= k ==> p <= k;
    }
  }

  lemma PrefixedMembers(p: Bytes, ks: seq<Bytes>, full: set<Bytes>)
    requires forall k :: k in full <==> p <= k && k[|p|..] in ks
    ensures forall k :: k in PrefixEach(p, ks) <==> k in full
  {
    var mine := PrefixEach(p, ks);
    forall k: Bytes ensures k in mine <==> k in full {
      if k in mine {
        var i :| 0 <= i < |mine| && mine[i] == k;
        assert k == p + ks[i] && k[|p|..] == ks[i];
      }
      if k in full {
        var i :| 0 <= i < |ks| && ks[i] == k[|p|..];
        assert mine[i] == p + k[|p|..] == k;
      }
    }
  }

  lemma SelectionShifts(p: Bytes, prefix: Bytes, x: Bytes)
    ensures p + prefix <= p + x <==> prefix <= x
  {
    assert (p + prefix)[|p|..] == prefix && (p + x)[|p|..] == x;
    if p + prefix <= p + x {
      forall i | 0 <= i < |prefix| ensures prefix[i] == x[i] {
        assert (p + prefix)[|p| + i] == (p + x)[|p| + i];
      }
    }
  }

  function PrefixItem(p: Bytes, item: Item): Item {
    match item
    case Content(e) => Content(Entry(p + e.key, e.size))
    case Common(c) => Common(p + c)
  }

  function PrefixItems(p: Bytes, items: seq<Item>): (r: seq<Item>)
    ensures |r| == |items| && forall i :: 0 <= i < |items| ==> r[i] == PrefixItem(p, items[i])
  {
    if items == [] then [] else [PrefixItem(p, items[0])] + PrefixItems(p, items[1..])
  }

  lemma ShiftSlices(p: Bytes, k: Bytes, n: nat)
    requires n <= |k|
    ensures (p + k)[|p| + n..] == k[n..] && (p + k)[..|p| + n] == p + k[..n]
  {
  }

  lemma ItemThroughView(b: Bucket, p: Bytes, k: Bytes, n: nat, delimiter: Option<Byte>)
    ensures ItemOf(b.objects, p + k, |p| + n, delimiter) == PrefixItem(p, ItemOf(View(b, p).objects, k, n, delimiter))
  {
    ViewLookup(b, p, k);
    ItemShifts(b.objects, View(b, p).objects, p, k, n, delimiter);
  }

  lemma ItemShifts(there: map<Bytes, Bytes>, here: map<Bytes, Bytes>, p: Bytes,
      k: Bytes, n: nat, delimiter: Option<Byte>)
    requires k in here <==> p + k in there
    requires k in here ==> here[k] == there[p + k]
    ensures ItemOf(there, p + k, |p| + n, delimiter) == PrefixItem(p, ItemOf(here, k, n, delimiter))
  {
    if n <= |k| {
      ShiftSlices(p, k, n);
      if delimiter.Some? && delimiter.value in k[n..] {
        var c := Cut(k[n..], delimiter.value).0;
        assert p + k[..n] + c + [delimiter.value] == p + (k[..n] + c + [delimiter.value]);
      }
    }
  }

  lemma PrefixItemInjective(p: Bytes, x: Item, y: Item)
    requires PrefixItem(p, x) == PrefixItem(p, y)
    ensures x == y
  {
    if x.Content? {
      assert (p + x.entry.key)[|p|..] == x.entry.key && (p + y.entry.key)[|p|..] == y.entry.key;
    } else {
      assert (p + x.prefix)[|p|..] == x.prefix && (p + y.prefix)[|p|..] == y.prefix;
    }
  }

  lemma AddItemThroughPrefix(p: Bytes, before: seq<Item>, item: Item)
    ensures AddItem(PrefixItems(p, before), PrefixItem(p, item)) == PrefixItems(p, AddItem(before, item))
  {
    if before != [] && PrefixItem(p, before[|before| - 1]) == PrefixItem(p, item) {
      PrefixItemInjective(p, before[|before| - 1], item);
    }
    assert PrefixItems(p, before) + [PrefixItem(p, item)] == PrefixItems(p, before + [item]);
  }

  lemma PrefixEachFront(p: Bytes, ks: seq<Bytes>)
    requires ks != []
    ensures var there := PrefixEach(p, ks);
      there[..|there| - 1] == PrefixEach(p, ks[..|ks| - 1]) && there[|there| - 1] == p + ks[|ks| - 1]
  {
  }

  lemma {:induction false} RollThroughView(b: Bucket, p: Bytes, ks: seq<Bytes>, n: nat, delimiter: Option<Byte>)
    ensures Roll(b.objects, PrefixEach(p, ks), |p| + n, delimiter)
         == PrefixItems(p, Roll(View(b, p).objects, ks, n, delimiter))
    decreases |ks|
  {
    if ks != [] {
      var front, last := ks[..|ks| - 1], ks[|ks| - 1];
      RollThroughView(b, p, front, n, delimiter);
      PrefixEachFront(p, ks);
      ItemThroughView(b, p, last, n, delimiter);
      AddItemThroughPrefix(p, Roll(View(b, p).objects, front, n, delimiter),
                           ItemOf(View(b, p).objects, last, n, delimiter));
    }
  }

  lemma {:induction false} StripContents(p: Bytes, items: seq<Item>)
    ensures StripEntries(p, Contents(PrefixItems(p, items))) == Contents(items)
    ensures StripEach(p, CommonPrefixes(PrefixItems(p, items))) == CommonPrefixes(items)
  {
    if items != [] {
      StripContents(p, items[1..]);
      assert PrefixItems(p, items)[1..] == PrefixItems(p, items[1..]);
      match items[0] {
        case Content(e) =>
          StripPrefixed(p, e.key);
          var rest := Contents(PrefixItems(p, items[1..]));
          assert ([Entry(p + e.key, e.size)] + rest)[1..] == rest;
        case Common(c) =>
          StripPrefixed(p, c);
          var rest := CommonPrefixes(PrefixItems(p, items[1..]));
          assert ([p + c] + rest)[1..] == rest;
      }
    }
  }

  lemma FirstPrefixed(p: Bytes, items: seq<Item>, n: nat)
    ensures First(PrefixItems(p, items), n) == PrefixItems(p, First(items, n))
  {
  }

  lemma ItemsThroughView(b: Bucket, p: Bytes, prefix: Bytes, there: Option<Bytes>,
      here: Option<Bytes>, delimiter: Option<Byte>)
    requires SameCut(p, prefix, there, here)
    ensures ListItems(b.objects, p + prefix, there, delimiter)
         == PrefixItems(p, ListItems(View(b, p).objects, prefix, here, delimiter))
  {
    SelectedThroughView(b, p, prefix, there, here);
    RolledThroughView(b, p, InOrder(Selected(b.objects, p + prefix, there)),
                      InOrder(Selected(View(b, p).objects, prefix, here)), prefix, delimiter);
  }

  lemma RolledThroughView(b: Bucket, p: Bytes, there: seq<Bytes>, here: seq<Bytes>,
      prefix: Bytes, delimiter: Option<Byte>)
    requires there == PrefixEach(p, here)
    ensures Roll(b.objects, there, |p + prefix|, delimiter)
      == PrefixItems(p, Roll(View(b, p).objects, here, |prefix|, delimiter))
  {
    assert |p + prefix| == |p| + |prefix|;
    RollThroughView(b, p, here, |prefix|, delimiter);
  }

  /** A listing through the middleware is the listing of the view, for any pair of markers that cut alike. */
  lemma ListThroughView(b: Bucket, p: Bytes, input: Input, input': Input, there: Option<Bytes>, here: Option<Bytes>)
    requires input'.prefix == Some(p + input.prefix.GetOr([]))
    requires input'.delimiter == input.delimiter && input'.maxKeys == input.maxKeys
    requires SameCut(p, input.prefix.GetOr([]), there, here)
    ensures StripOutput(List(b, input', there), p) == List(View(b, p), input, here)
  {
    ItemsThroughView(b, p, input.prefix.GetOr([]), there, here, input.delimiter);
    var items := ListItems(View(b, p).objects, input.prefix.GetOr([]), here, input.delimiter);
    PageThroughView(p, items, input.maxKeys);
    StripPrefixed(p, input.prefix.GetOr([]));
  }

  lemma PageThroughView(p: Bytes, items: seq<Item>, n: nat)
    ensures StripEntries(p, Contents(First(PrefixItems(p, items), n))) == Contents(First(items, n))
    ensures StripEach(p, CommonPrefixes(First(PrefixItems(p, items), n))) == CommonPrefixes(First(items, n))
  {
    FirstPrefixed(p, items, n);
    StripContents(p, First(items, n));
  }

  // ----- The other commands through a view -----

  ghost predicate ObjectsKept(before: map<Bytes, Bytes>, after: map<Bytes, Bytes>, p: Bytes) {
    forall k :: !(p <= k) ==> Lookup(after, k) == Lookup(before, k)
  }

  function LookupUpload(uploads: map<UploadName, map<nat, Bytes>>, u: UploadName): Option<map<nat, Bytes>> {
    if u in uploads then Some(uploads[u]) else None
  }

  ghost predicate UploadsKept(before: map<UploadName, map<nat, Bytes>>,
      after: map<UploadName, map<nat, Bytes>>, p: Bytes)
  {
    forall u: UploadName :: !(p <= u.key) ==> LookupUpload(after, u) == LookupUpload(before, u)
  }

  /** Objects and uploads outside the prefix, and every lock, are as they were. */
  ghost predicate OutsideKept(before: Bucket, after: Bucket, p: Bytes) {
    && after.locked == before.locked
    && ObjectsKept(before.objects, after.objects, p)
    && UploadsKept(before.uploads, after.uploads, p)
  }

  ghost predicate SameOutside(before: Store, after: Store, p: Bytes) {
    after.Keys == before.Keys && forall n :: n in before ==> OutsideKept(before[n], after[n], p)
  }

  /** Equal answers; the code's own error for a copy source without a key stands for S3's refusal of it. */
  predicate SameAnswer(through: Answer, private: Answer) {
    through == private || (through == Err(CopySourceNamesNoKey) && private.Err?)
  }

  /**
   * The prefix changes nothing about whether S3 accepts the key: empty keys and keys it
   * makes too long are the exception.
   */
  predicate SameValidity(p: Bytes, k: Bytes) {
    ValidKey(k) <==> ValidKey(p + k)
  }

  /** The same answer, with the prefix taken off what it names. */
  function StripAnswer(answer: Answer, p: Bytes): Answer {
    if answer.Err? then answer else Ok(StripOutput(answer.value, p))
  }

  /** What a command does to the bucket through the middleware is what it does to the view. */
  ghost predicate Agrees(b: Bucket, p: Bytes, through: (Bucket, Answer), own: (Bucket, Answer)) {
    View(through.0, p) == own.0 && StripAnswer(through.1, p) == own.1 && OutsideKept(b, through.0, p)
  }

  lemma NothingMoved(b: Bucket, p: Bytes)
    ensures OutsideKept(b, b, p)
  {
  }

  lemma PutKeepsOthers(objects: map<Bytes, Bytes>, p: Bytes, k: Bytes, v: Bytes)
    ensures ObjectsKept(objects, objects[p + k := v], p) && ObjectsKept(objects, objects - {p + k}, p)
  {
    assert p <= p + k;
  }

  lemma OpenKeepsOthers(uploads: map<UploadName, map<nat, Bytes>>, p: Bytes, u: UploadName, parts: map<nat, Bytes>)
    ensures UploadsKept(uploads, uploads[UploadName(p + u.key, u.id) := parts], p)
    ensures UploadsKept(uploads, uploads - {UploadName(p + u.key, u.id)}, p)
  {
    assert p <= p + u.key;
  }

  /** Writing the prefixed object writes the tenant's, and nothing else moves. */
  lemma PutThroughView(b: Bucket, p: Bytes, k: Bytes, v: Bytes)
    ensures var after := b.(objects := b.objects[p + k := v]);
      View(after, p) == View(b, p).(objects := View(b, p).objects[k := v]) && OutsideKept(b, after, p)
  {
    ViewPut(b.objects, p, k, v);
    PutKeepsOthers(b.objects, p, k, v);
  }

  lemma RemoveThroughView(b: Bucket, p: Bytes, k: Bytes)
    ensures var after := b.(objects := b.objects - {p + k});
      View(after, p) == View(b, p).(objects := View(b, p).objects - {k}) && OutsideKept(b, after, p)
  {
    ViewRemove(b.objects, p, k);
    PutKeepsOthers(b.objects, p, k, []);
  }

  lemma OpenThroughView(b: Bucket, p: Bytes, u: UploadName, parts: map<nat, Bytes>)
    ensures var after := b.(uploads := b.uploads[UploadName(p + u.key, u.id) := parts]);
      View(after, p) == View(b, p).(uploads := View(b, p).uploads[u := parts]) && OutsideKept(b, after, p)
  {
    ViewOpen(b.uploads, p, u, parts);
    OpenKeepsOthers(b.uploads, p, u, parts);
  }

  lemma CloseThroughView(b: Bucket, p: Bytes, u: UploadName)
    ensures var after := b.(uploads := b.uploads - {UploadName(p + u.key, u.id)});
      View(after, p) == View(b, p).(uploads := View(b, p).uploads - {u}) && OutsideKept(b, after, p)
  {
    ViewClose(b.uploads, p, u);
    OpenKeepsOthers(b.uploads, p, u, map[]);
  }

  lemma KeptTransitive(a: Bucket, b: Bucket, c: Bucket, p: Bytes)
    requires OutsideKept(a, b, p) && OutsideKept(b, c, p)
    ensures OutsideKept(a, c, p)
  {
  }

  lemma RefusalAgrees(b: Bucket, p: Bytes, e: Error)
    ensures Agrees(b, p, (b, Err(e)), (View(b, p), Err(e)))
  {
    NothingMoved(b, p);
  }

  lemma LookupThroughView(b: Bucket, p: Bytes, k: Bytes)
    ensures Lookup(View(b, p).objects, k) == Lookup(b.objects, p + k)
  {
    ViewLookup(b, p, k);
  }

  lemma FetchedAgrees(b: Bucket, p: Bytes, found: Option<Bytes>, whole: bool)
    ensures Agrees(b, p, (b, Fetched(found, whole)), (View(b, p), Fetched(found, whole)))
  {
    NothingMoved(b, p);
  }

  lemma ReadsLookup(b: Bucket, name: Name, input: Input, k: Bytes, copied: Result<Bytes, Error>)
    requires name.GetObject? || name.HeadObject?
    ensures OnKey(b, name, input, k, copied) == (b, Fetched(Lookup(b.objects, k), name.GetObject?))
  {
  }

  lemma ReadAgrees(b: Bucket, p: Bytes, name: Name, input: Input, k: Bytes, copied: Result<Bytes, Error>)
    requires name.GetObject? || name.HeadObject?
    ensures Agrees(b, p, OnKey(b, name, input, p + k, copied), OnKey(View(b, p), name, input, k, copied))
  {
    LookupThroughView(b, p, k);
    ReadsLookup(b, name, input, p + k, copied);
    ReadsLookup(View(b, p), name, input, k, copied);
    FetchedAgrees(b, p, Lookup(b.objects, p + k), name.GetObject?);
  }

  lemma PutAgrees(b: Bucket, p: Bytes, k: Bytes, v: Bytes)
    ensures Agrees(b, p, (b.(objects := b.objects[p + k := v]), Ok(EMPTY)),
                   (View(b, p).(objects := View(b, p).objects[k := v]), Ok(EMPTY)))
  {
    PutThroughView(b, p, k, v);
  }

  lemma WriteAgrees(b: Bucket, p: Bytes, name: Name, input: Input, k: Bytes, copied: Result<Bytes, Error>)
    requires name.PutObject? || name.CopyObject?
    ensures Agrees(b, p, OnKey(b, name, input, p + k, copied), OnKey(View(b, p), name, input, k, copied))
  {
    if name.PutObject? {
      PutAgrees(b, p, k, input.body);
    } else if copied.Err? {
      RefusalAgrees(b, p, copied.error);
    } else {
      PutAgrees(b, p, k, copied.value);
    }
  }

  lemma RemoveAgrees(b: Bucket, p: Bytes, k: Bytes)
    ensures Agrees(b, p, (b.(objects := b.objects - {p + k}), Ok(EMPTY)),
                   (View(b, p).(objects := View(b, p).objects - {k}), Ok(EMPTY)))
  {
    RemoveThroughView(b, p, k);
  }

  lemma DeleteAgrees(b: Bucket, p: Bytes, input: Input, k: Bytes, copied: Result<Bytes, Error>)
    ensures Agrees(b, p, OnKey(b, DeleteObject, input, p + k, copied),
                   OnKey(View(b, p), DeleteObject, input, k, copied))
  {
    StrippedMember(b.locked, p, k);
    if p + k in b.locked {
      RefusalAgrees(b, p, AccessDenied);
    } else {
      RemoveAgrees(b, p, k);
    }
  }

  lemma CreateAgrees(b: Bucket, p: Bytes, input: Input, k: Bytes, copied: Result<Bytes, Error>)
    ensures Agrees(b, p, OnKey(b, CreateMultipartUpload, input, p + k, copied),
                   OnKey(View(b, p), CreateMultipartUpload, input, k, copied))
  {
    StripPrefixed(p, k);
    OpenThroughView(b, p, UploadName(k, input.uploadId), map[]);
  }

  predicate IsPartCommand(name: Name) {
    name.UploadPart? || name.UploadPartCopy?
  }

  /** A part stored, with its ETag. */
  function WithPart(b: Bucket, u: UploadName, n: nat, data: Bytes): (Bucket, Answer)
    requires u in b.uploads
  {
    var parts: map<nat, Bytes> := b.uploads[u];
    (b.(uploads := b.uploads[u := parts[n := data]]), Ok(EMPTY.(etag := Some(EtagOf(data)))))
  }

  lemma PartAgrees(b: Bucket, p: Bytes, u: UploadName, n: nat, data: Bytes)
    requires UploadName(p + u.key, u.id) in b.uploads && u in View(b, p).uploads
    requires View(b, p).uploads[u] == b.uploads[UploadName(p + u.key, u.id)]
    ensures Agrees(b, p, WithPart(b, UploadName(p + u.key, u.id), n, data), WithPart(View(b, p), u, n, data))
  {
    OpenThroughView(b, p, u, View(b, p).uploads[u][n := data]);
  }

  lemma PartCommandAgrees(b: Bucket, p: Bytes, name: Name, input: Input, u: UploadName, copied: Result<Bytes, Error>)
    requires IsPartCommand(name) && UploadName(p + u.key, u.id) in b.uploads && u in View(b, p).uploads
    requires View(b, p).uploads[u] == b.uploads[UploadName(p + u.key, u.id)]
    ensures Agrees(b, p, OnUpload(b, name, input, UploadName(p + u.key, u.id), copied),
                   OnUpload(View(b, p), name, input, u, copied))
  {
    if name.UploadPart? {
      PartAgrees(b, p, u, input.partNumber, input.body);
    } else if copied.Err? {
      RefusalAgrees(b, p, copied.error);
    } else if !Matches(Some(copied.value), input.ifMatch) {
      RefusalAgrees(b, p, PreconditionFailed);
    } else {
      PartAgrees(b, p, u, input.partNumber, copied.value);
    }
  }

  lemma CompletesWith(b: Bucket, input: Input, u: UploadName, copied: Result<Bytes, Error>, data: Result<Bytes, Error>)
    requires u in b.uploads
    requires data == Completion(b.uploads[u], input.parts, Lookup(b.objects, u.key), input.ifMatch)
    ensures OnUpload(b, CompleteMultipartUpload, input, u, copied) == Outcome(b, u, data)
  {
  }

  lemma OutcomeAgrees(b: Bucket, p: Bytes, u: UploadName, data: Result<Bytes, Error>)
    ensures Agrees(b, p, Outcome(b, UploadName(p + u.key, u.id), data), Outcome(View(b, p), u, data))
  {
    if data.Err? {
      RefusalAgrees(b, p, data.error);
    } else {
      CompletionAgrees(b, p, u, data.value);
    }
  }

  lemma CompleteAgrees(b: Bucket, p: Bytes, input: Input, u: UploadName, copied: Result<Bytes, Error>)
    requires UploadName(p + u.key, u.id) in b.uploads && u in View(b, p).uploads
    requires View(b, p).uploads[u] == b.uploads[UploadName(p + u.key, u.id)]
    ensures Agrees(b, p, OnUpload(b, CompleteMultipartUpload, input, UploadName(p + u.key, u.id), copied),
                   OnUpload(View(b, p), CompleteMultipartUpload, input, u, copied))
  {
    LookupThroughView(b, p, u.key);
    var full := UploadName(p + u.key, u.id);
    var data := Completion(b.uploads[full], input.parts, Lookup(b.objects, p + u.key), input.ifMatch);
    CompletesWith(b, input, full, copied, data);
    CompletesWith(View(b, p), input, u, copied, data);
    OutcomeAgrees(b, p, u, data);
  }

  lemma CompletionAgrees(b: Bucket, p: Bytes, u: UploadName, data: Bytes)
    ensures Agrees(b, p, (Completed(b, UploadName(p + u.key, u.id), data), CompletionAnswer(p + u.key, data)),
                   (Completed(View(b, p), u, data), CompletionAnswer(u.key, data)))
  {
    StripCompletion(p, u.key, data);
    CompletedThroughView(b, p, u, data);
  }

  lemma StripCompletion(p: Bytes, k: Bytes, data: Bytes)
    ensures StripAnswer(CompletionAnswer(p + k, data), p) == CompletionAnswer(k, data)
  {
    StripPrefixed(p, k);
  }

  lemma CompletedThroughView(b: Bucket, p: Bytes, u: UploadName, data: Bytes)
    ensures var after := Completed(b, UploadName(p + u.key, u.id), data);
      View(after, p) == Completed(View(b, p), u, data) && OutsideKept(b, after, p)
  {
    var put := b.(objects := b.objects[p + u.key := data]);
    PutThroughView(b, p, u.key, data);
    CloseThroughView(put, p, u);
    KeptTransitive(b, put, put.(uploads := put.uploads - {UploadName(p + u.key, u.id)}), p);
  }

  lemma OtherUploadAgrees(b: Bucket, p: Bytes, name: Name, input: Input, u: UploadName, copied: Result<Bytes, Error>)
    requires !IsPartCommand(name) && !name.CompleteMultipartUpload?
    requires UploadName(p + u.key, u.id) in b.uploads && u in View(b, p).uploads
    requires View(b, p).uploads[u] == b.uploads[UploadName(p + u.key, u.id)]
    ensures Agrees(b, p, OnUpload(b, name, input, UploadName(p + u.key, u.id), copied),
                   OnUpload(View(b, p), name, input, u, copied))
  {
    StripPrefixed(p, u.key);
    NothingMoved(b, p);
    CloseThroughView(b, p, u);
  }

  predicate OnUploads(name: Name) {
    NamesOneKey(name) && name !in {PutObject, GetObject, HeadObject, DeleteObject, CopyObject, CreateMultipartUpload}
  }

  lemma UploadCommandAgrees(b: Bucket, p: Bytes, name: Name, input: Input, k: Bytes, copied: Result<Bytes, Error>)
    requires OnUploads(name)
    ensures Agrees(b, p, OnKey(b, name, input, p + k, copied), OnKey(View(b, p), name, input, k, copied))
  {
    var u := UploadName(k, input.uploadId);
    ViewUpload(b, p, u);
    NothingMoved(b, p);
    if u in View(b, p).uploads {
      if IsPartCommand(name) {
        PartCommandAgrees(b, p, name, input, u, copied);
      } else if name.CompleteMultipartUpload? {
        CompleteAgrees(b, p, input, u, copied);
      } else {
        OtherUploadAgrees(b, p, name, input, u, copied);
      }
    }
  }

  lemma KeyCommandAgrees(b: Bucket, p: Bytes, name: Name, input: Input, k: Bytes, copied: Result<Bytes, Error>)
    requires NamesOneKey(name)
    ensures Agrees(b, p, OnKey(b, name, input, p + k, copied), OnKey(View(b, p), name, input, k, copied))
  {
    if OnUploads(name) {
      UploadCommandAgrees(b, p, name, input, k, copied);
    } else if name.CreateMultipartUpload? {
      CreateAgrees(b, p, input, k, copied);
    } else if name.DeleteObject? {
      DeleteAgrees(b, p, input, k, copied);
    } else if name.PutObject? || name.CopyObject? {
      WriteAgrees(b, p, name, input, k, copied);
    } else {
      ReadAgrees(b, p, name, input, k, copied);
    }
  }

  lemma {:induction false} DeleteThroughView(b: Bucket, p: Bytes, ks: seq<Bytes>)
    ensures var (there, deleted, errors) := DeleteEach(b, PrefixEach(p, ks));
      && DeleteEach(View(b, p), ks) == (View(there, p), StripEach(p, deleted), StripEach(p, errors))
      && OutsideKept(b, there, p)
    decreases ks
  {
    if ks == [] {
      NothingMoved(b, p);
    } else {
      assert PrefixEach(p, ks)[1..] == PrefixEach(p, ks[1..]);
      ViewLookup(b, p, ks[0]);
      StripPrefixed(p, ks[0]);
      if p + ks[0] in b.locked {
        DeleteThroughView(b, p, ks[1..]);
      } else {
        var b' := b.(objects := b.objects - {p + ks[0]});
        RemoveThroughView(b, p, ks[0]);
        DeleteThroughView(b', p, ks[1..]);
        KeptTransitive(b, b', DeleteEach(b', PrefixEach(p, ks[1..])).0, p);
      }
    }
  }

  lemma DeleteObjectsAgrees(b: Bucket, p: Bytes, input: Input, input': Input, copied: Result<Bytes, Error>)
    requires input.delete.Some? && input'.delete == Some(PrefixEach(p, input.delete.value))
    requires input'.quiet == input.quiet
    requires AnyInvalid(input'.delete.value) <==> AnyInvalid(input.delete.value)
    ensures Agrees(b, p, OnBucket(b, DeleteObjects, input', copied), OnBucket(View(b, p), DeleteObjects, input, copied))
  {
    DeleteThroughView(b, p, input.delete.value);
  }

  // ----- Results -----

  /** A prefix the middleware accepts: none, or a relative path that ends in a slash. */
  predicate Relative(p: Bytes) {
    p == [] || (p[|p| - 1] == SLASH && p[0] != SLASH)
  }

  ghost predicate CallRefines(store: Store, p: Bytes, name: Name, input: Input) {
    var (there, answer) := Send(store, Some(Answers(p)), name, input);
    var (here, own) := Exec(ViewStore(store, p), name, input);
    ViewStore(there, p) == here && SameAnswer(answer, own) && SameOutside(store, there, p)
  }

  /** The key is refused both with and without the prefix, or with neither. */
  ghost predicate KeyFits(p: Bytes, name: Name, input: Input) {
    if name.DeleteObjects? then
      input.delete.Some? ==> (AnyInvalid(input.delete.value) <==> AnyInvalid(PrefixEach(p, input.delete.value)))
    else
      NamesOneKey(name) && input.key.Some? ==> SameValidity(p, input.key.value)
  }

  /** A copy source that S3 reads names a key that fits. */
  predicate SourceFits(p: Bytes, input: Input) {
    input.copySource.Some? && ReadCopySource(input.copySource.value).Some? ==>
      SameValidity(p, ReadCopySource(input.copySource.value).value.key)
  }

  /** The marker, which is not rewritten, cuts the prefixed keys as it cuts the tenant's, or no page is asked for. */
  ghost predicate MarkerFits(p: Bytes, input: Input) {
    input.maxKeys == 0 || SameCut(p, input.prefix.GetOr([]), input.marker, input.marker)
  }

  /** Only a copy carries a copy source, and a `ListObjects` may carry a marker that fits. */
  ghost predicate Covered(p: Bytes, name: Name, input: Input) {
    (name == ListObjects ==> MarkerFits(p, input)) && (input.copySource.Some? ==> IsCopy(name))
  }

  lemma EmptyPrefixView(store: Store)
    ensures ViewStore(store, []) == store
  {
    forall n | n in store ensures View(store[n], []) == store[n] {
      EmptyPrefixBucket(store[n]);
    }
  }

  lemma EmptyPrefixBucket(b: Bucket)
    ensures View(b, []) == b
  {
    EmptyPrefixObjects(b.objects);
    EmptyPrefixKeys(b.locked);
    EmptyPrefixUploads(b.uploads);
  }

  lemma EmptyPrefixKeys(ks: set<Bytes>)
    ensures Stripped(ks, []) == ks
  {
    forall k: Bytes ensures k in Stripped(ks, []) <==> k in ks {
      assert [] + k == k;
      StrippedMember(ks, [], k);
    }
  }

  lemma EmptyPrefixObjects(objects: map<Bytes, Bytes>)
    ensures ViewObjects(objects, []) == objects
  {
    EmptyPrefixKeys(objects.Keys);
    forall k: Bytes | k in objects ensures ViewObjects(objects, [])[k] == objects[k] {
      assert [] + k == k;
    }
  }

  lemma EmptyPrefixUploads(uploads: map<UploadName, map<nat, Bytes>>)
    ensures ViewUploads(uploads, []) == uploads
  {
    forall u: UploadName
      ensures u in ViewUploads(uploads, []) <==> u in uploads
      ensures u in uploads ==> ViewUploads(uploads, [])[u] == uploads[u]
    {
      assert UploadName([] + u.key, u.id) == u;
      StrippedName(uploads.Keys, [], u);
    }
  }

  lemma V2Agrees(b: Bucket, p: Bytes, input: Input, input': Input, copied: Result<Bytes, Error>)
    requires PrefixInput(input, p, true) == Ok(input')
    ensures Agrees(b, p, OnBucket(b, ListObjectsV2, input', copied), OnBucket(View(b, p), ListObjectsV2, input, copied))
  {
    PrefixedCut(p, input.prefix.GetOr([]), input.startAfter);
    ListThroughView(b, p, input, input', PrefixOption(p, input.startAfter), input.startAfter);
    if input.startAfter.Some? {
      StripPrefixed(p, input.startAfter.value);
    }
    StripKeepsEchoes(List(b, input', PrefixOption(p, input.startAfter)), List(View(b, p), input, input.startAfter), p,
                     input.startAfter, None);
    NothingMoved(b, p);
    StartAfterAnswers(b, input', copied);
    StartAfterAnswers(View(b, p), input, copied);
  }

  lemma StartAfterAnswers(b: Bucket, input: Input, copied: Result<Bytes, Error>)
    ensures OnBucket(b, ListObjectsV2, input, copied)
         == (b, Ok(List(b, input, input.startAfter).(startAfter := input.startAfter)))
  {
  }

  /**
   * A listing by marker agrees whenever the marker, which is not rewritten, cuts the
   * prefixed keys as it cuts the tenant's.
   */
  lemma V1Agrees(b: Bucket, p: Bytes, input: Input, input': Input, copied: Result<Bytes, Error>)
    requires PrefixInput(input, p, true) == Ok(input') && MarkerFits(p, input)
    ensures Agrees(b, p, OnBucket(b, ListObjects, input', copied), OnBucket(View(b, p), ListObjects, input, copied))
  {
    if input.maxKeys == 0 {
      EmptyPageAgrees(b, p, input, input');
    } else {
      ListThroughView(b, p, input, input', input.marker, input.marker);
    }
    MarkerListingAgrees(b, p, input, input', copied);
  }

  lemma EmptyPageAgrees(b: Bucket, p: Bytes, input: Input, input': Input)
    requires PrefixInput(input, p, true) == Ok(input') && input.maxKeys == 0
    ensures StripOutput(List(b, input', input.marker), p) == List(View(b, p), input, input.marker)
  {
    StripPrefixed(p, input.prefix.GetOr([]));
  }

  lemma MarkerListingAgrees(b: Bucket, p: Bytes, input: Input, input': Input, copied: Result<Bytes, Error>)
    requires PrefixInput(input, p, true) == Ok(input')
    requires StripOutput(List(b, input', input.marker), p) == List(View(b, p), input, input.marker)
    ensures Agrees(b, p, OnBucket(b, ListObjects, input', copied), OnBucket(View(b, p), ListObjects, input, copied))
  {
    StripKeepsEchoes(List(b, input', input.marker), List(View(b, p), input, input.marker), p, None, input.marker);
    NothingMoved(b, p);
    MarkerAnswers(b, input', copied);
    MarkerAnswers(View(b, p), input, copied);
  }

  lemma MarkerAnswers(b: Bucket, input: Input, copied: Result<Bytes, Error>)
    ensures OnBucket(b, ListObjects, input, copied) == (b, Ok(List(b, input, input.marker).(marker := input.marker)))
  {
  }

  lemma StripKeepsEchoes(there: Output, here: Output, p: Bytes, startAfter: Option<Bytes>, marker: Option<Bytes>)
    requires StripOutput(there, p) == here
    requires startAfter.Some? ==> Strip(p, p + startAfter.value) == startAfter.value
    ensures StripOutput(there.(startAfter := PrefixOption(p, startAfter)), p) == here.(startAfter := startAfter)
    ensures StripOutput(there.(marker := marker), p) == here.(marker := marker)
  {
  }

  /**
   * Only `key`, `prefix`, `startAfter`, `copySource` and `delete` change on the way,
   * and no command on a key reads them.
   */
  lemma KeyCommandReadsNoKeys(b: Bucket, p: Bytes, name: Name, input: Input, k: Bytes, copied: Result<Bytes, Error>)
    requires PrefixInput(input, p, false).Ok? && NamesOneKey(name)
    ensures OnKey(b, name, PrefixInput(input, p, false).value, k, copied) == OnKey(b, name, input, k, copied)
  {
    var input' := PrefixInput(input, p, false).value;
    var u := UploadName(k, input.uploadId);
    if u in b.uploads {
      assert OnUpload(b, name, input', u, copied) == OnUpload(b, name, input, u, copied);
    }
  }

  lemma OneKeyAgrees(b: Bucket, p: Bytes, name: Name, input: Input, input': Input, copied: Result<Bytes, Error>)
    requires NamesOneKey(name) && PrefixInput(input, p, false) == Ok(input') && KeyFits(p, name, input)
    ensures Agrees(b, p, OnBucket(b, name, input', copied), OnBucket(View(b, p), name, input, copied))
  {
    if input.key.Some? && ValidKey(input.key.value) {
      KeyCommandReadsNoKeys(b, p, name, input, p + input.key.value, copied);
      KeyCommandAgrees(b, p, name, input, input.key.value, copied);
    }
  }

  lemma BucketAgrees(b: Bucket, p: Bytes, name: Name, input: Input, input': Input, copied: Result<Bytes, Error>)
    requires PrefixInput(input, p, IsListing(name)) == Ok(input') && KeyFits(p, name, input)
    requires name.ListObjects? ==> MarkerFits(p, input)
    ensures Agrees(b, p, OnBucket(b, name, input', copied), OnBucket(View(b, p), name, input, copied))
  {
    if name.ListObjectsV2? {
      V2Agrees(b, p, input, input', copied);
    } else if name.ListObjects? {
      V1Agrees(b, p, input, input', copied);
    } else if name.DeleteObjects? {
      if input.delete.Some? {
        DeleteObjectsAgrees(b, p, input, input', copied);
      }
    } else {
      OneKeyAgrees(b, p, name, input, input', copied);
    }
  }

  /** A copy source whose key fits reads, through the middleware, what it reads in the view. */
  lemma CopyThroughView(store: Store, p: Bytes, header: Bytes)
    requires PrefixCopySource(header, p).Some?
    requires ReadCopySource(header).Some? ==> SameValidity(p, ReadCopySource(header).value.key)
    ensures CopyFrom(store, PrefixCopySource(header, p).value) == CopyFrom(ViewStore(store, p), header)
  {
    ReadPrefixedCopySource(header, p);
    if ReadCopySource(header).Some? {
      var source := ReadCopySource(header).value;
      if source.bucket in store {
        ViewLookup(store[source.bucket], p, source.key);
      }
    }
  }

  lemma CopiedThroughView(store: Store, p: Bytes, input: Input, isListing: bool)
    requires PrefixInput(input, p, isListing).Ok? && SourceFits(p, input)
    ensures Copied(store, PrefixInput(input, p, isListing).value) == Copied(ViewStore(store, p), input)
  {
    if input.copySource.Some? {
      CopyThroughView(store, p, input.copySource.value);
    }
  }

  lemma ViewStoreUpdate(store: Store, p: Bytes, n: Bytes, b: Bucket)
    requires n in store && OutsideKept(store[n], b, p)
    ensures ViewStore(store[n := b], p) == ViewStore(store, p)[n := View(b, p)]
    ensures SameOutside(store, store[n := b], p)
  {
    forall m | m in store ensures OutsideKept(store[m], store[n := b][m], p) {
      NothingMoved(store[m], p);
    }
  }

  /** What the middleware sends and answers, on the bucket. */
  lemma SendOnBucket(store: Store, p: Bytes, name: Name, input: Input, input': Input)
    requires p != [] && Relative(p) && input.bucket in store
    requires PrefixInput(input, p, IsListing(name)) == Ok(input')
    ensures var (after, answer) := OnBucket(store[input.bucket], name, input', Copied(store, input'));
      Send(store, Some(Answers(p)), name, input) == (store[input.bucket := after], StripAnswer(answer, p))
  {
  }

  /** From the bucket to the store. */
  lemma StoreRefines(store: Store, p: Bytes, name: Name, input: Input, input': Input)
    requires p != [] && Relative(p) && input.bucket in store
    requires PrefixInput(input, p, IsListing(name)) == Ok(input')
    requires Agrees(store[input.bucket], p, OnBucket(store[input.bucket], name, input', Copied(store, input')),
                    OnBucket(View(store[input.bucket], p), name, input, Copied(ViewStore(store, p), input)))
    ensures CallRefines(store, p, name, input)
  {
    SendOnBucket(store, p, name, input, input');
    ViewStoreUpdate(store, p, input.bucket, OnBucket(store[input.bucket], name, input', Copied(store, input')).0);
  }

  /** A command that is no copy does not read the copy source. */
  lemma OnlyCopiesRead(b: Bucket, name: Name, input: Input, copied: Result<Bytes, Error>, other: Result<Bytes, Error>)
    requires !IsCopy(name)
    ensures OnBucket(b, name, input, copied) == OnBucket(b, name, input, other)
  {
    if NamesOneKey(name) && input.key.Some? {
      var u := UploadName(input.key.value, input.uploadId);
      if u in b.uploads {
        assert OnUpload(b, name, input, u, copied) == OnUpload(b, name, input, u, other);
      }
    }
  }

  /** A copy source without a key is refused by the code as S3 refuses it. */
  lemma NoKeyRefines(store: Store, p: Bytes, name: Name, input: Input)
    requires p != [] && Relative(p)
    requires IsCopy(name) && PrefixInput(input, p, false).Err?
    ensures CallRefines(store, p, name, input)
  {
    RefusedBySource(store, p, name, input);
    SameStore(store, p);
    UnreadSource(ViewStore(store, p), p, name, input);
  }

  lemma RefusedBySource(store: Store, p: Bytes, name: Name, input: Input)
    requires p != [] && Relative(p) && !IsListing(name) && PrefixInput(input, p, false).Err?
    ensures Send(store, Some(Answers(p)), name, input) == (store, Err(CopySourceNamesNoKey))
  {
  }

  lemma UnreadSource(store: Store, p: Bytes, name: Name, input: Input)
    requires IsCopy(name) && PrefixInput(input, p, false).Err?
    ensures Exec(store, name, input).0 == store && Exec(store, name, input).1.Err?
  {
    ReadPrefixedCopySource(input.copySource.value, p);
    assert Copied(store, input) == Err(InvalidCopySource);
    if input.bucket in store {
      NoSourceNoCopy(store[input.bucket], name, input, InvalidCopySource);
      assert store[input.bucket := store[input.bucket]] == store;
    }
  }

  lemma NoSourceNoCopy(b: Bucket, name: Name, input: Input, e: Error)
    requires IsCopy(name)
    ensures OnBucket(b, name, input, Err(e)).0 == b && OnBucket(b, name, input, Err(e)).1.Err?
  {
  }

  lemma SameStore(store: Store, p: Bytes)
    ensures SameOutside(store, store, p)
  {
  }

  lemma KnownBucketRefines(store: Store, p: Bytes, name: Name, input: Input, input': Input)
    requires p != [] && Relative(p) && input.bucket in store
    requires PrefixInput(input, p, IsListing(name)) == Ok(input')
    requires KeyFits(p, name, input) && SourceFits(p, input) && (name.ListObjects? ==> MarkerFits(p, input))
    ensures CallRefines(store, p, name, input)
  {
    CopiedThroughView(store, p, input, IsListing(name));
    BucketAgrees(store[input.bucket], p, name, input, input', Copied(store, input'));
    StoreRefines(store, p, name, input, input');
  }

  /** One call through the middleware does, for the tenant, what the same call does on a store of its own. */
  lemma OneCallRefines(store: Store, p: Bytes, name: Name, input: Input)
    requires Relative(p)
    requires Covered(p, name, input) && KeyFits(p, name, input) && SourceFits(p, input)
    ensures CallRefines(store, p, name, input)
  {
    if p == [] {
      EmptyPrefixRefines(store, name, input);
    } else if PrefixInput(input, p, IsListing(name)).Err? {
      NoKeyRefines(store, p, name, input);
    } else if input.bucket in store {
      KnownBucketRefines(store, p, name, input, PrefixInput(input, p, IsListing(name)).value);
    } else {
      UnknownBucketRefines(store, p, name, input);
    }
  }

  lemma UnknownBucketRefines(store: Store, p: Bytes, name: Name, input: Input)
    requires p != [] && Relative(p) && input.bucket !in store
    requires PrefixInput(input, p, IsListing(name)).Ok?
    ensures CallRefines(store, p, name, input)
  {
    NoBucketNoCall(store, name, PrefixInput(input, p, IsListing(name)).value);
    NoBucketNoCall(ViewStore(store, p), name, input);
    SameStore(store, p);
  }

  lemma NoBucketNoCall(store: Store, name: Name, input: Input)
    requires input.bucket !in store
    ensures Exec(store, name, input) == (store, Err(NoSuchBucket))
  {
  }

  lemma EmptyPrefixRefines(store: Store, name: Name, input: Input)
    ensures CallRefines(store, [], name, input)
  {
    var after := Exec(store, name, input).0;
    EmptyPrefixView(store);
    EmptyPrefixView(after);
    assert Send(store, Some(Answers([])), name, input) == Exec(store, name, input);
    EmptyPrefixOutside(store, name, input);
  }

  lemma EmptyPrefixOutside(store: Store, name: Name, input: Input)
    ensures SameOutside(store, Exec(store, name, input).0, [])
  {
    var after := Exec(store, name, input).0;
    forall n | n in store ensures OutsideKept(store[n], after[n], []) {
      if n == input.bucket {
        CommandKeepsLocks(store[n], name, input, Copied(store, input));
      }
    }
  }

  lemma CommandKeepsLocks(b: Bucket, name: Name, input: Input, copied: Result<Bytes, Error>)
    ensures OutsideKept(b, OnBucket(b, name, input, copied).0, [])
  {
    if name.DeleteObjects? && input.delete.Some? {
      DeleteKeepsLocks(b, input.delete.value);
    }
  }

  lemma {:induction false} DeleteKeepsLocks(b: Bucket, ks: seq<Bytes>)
    ensures DeleteEach(b, ks).0.locked == b.locked
    decreases ks
  {
    if ks != [] {
      if ks[0] in b.locked {
        DeleteKeepsLocks(b, ks[1..]);
      } else {
        DeleteKeepsLocks(b.(objects := b.objects - {ks[0]}), ks[1..]);
      }
    }
  }

  datatype Call = Call(name: Name, input: Input)

  /** A call that is covered and whose keys fit. */
  ghost predicate Fits(p: Bytes, c: Call) {
    Covered(p, c.name, c.input) && KeyFits(p, c.name, c.input) && SourceFits(p, c.input)
  }

  lemma FittingCallRefines(store: Store, p: Bytes, c: Call)
    requires Relative(p) && Fits(p, c)
    ensures CallRefines(store, p, c.name, c.input)
  {
    OneCallRefines(store, p, c.name, c.input);
  }

  /** The answers to a sequence of calls, and the store after them. */
  ghost function SendAll(store: Store, resolver: Option<Resolver>, calls: seq<Call>): (Store, seq<Answer>)
    decreases calls
  {
    if calls == [] then (store, [])
    else
      var (store1, answer) := Send(store, resolver, calls[0].name, calls[0].input);
      var (store2, answers) := SendAll(store1, resolver, calls[1..]);
      (store2, [answer] + answers)
  }

  ghost function ExecAll(store: Store, calls: seq<Call>): (Store, seq<Answer>)
    decreases calls
  {
    if calls == [] then (store, [])
    else
      var (store1, answer) := Exec(store, calls[0].name, calls[0].input);
      var (store2, answers) := ExecAll(store1, calls[1..]);
      (store2, [answer] + answers)
  }

  /**
   * The refinement: for every sequence of calls the tenant gets the answers a
   * private store would give, its view ends as that store would, and nothing
   * outside its prefix has moved.
   */
  lemma {:induction false} PrivateBucket(store: Store, p: Bytes, calls: seq<Call>)
    requires p == [] || (p[|p| - 1] == SLASH && p[0] != SLASH)
    requires forall c :: c in calls ==> Fits(p, c)
    ensures var (there, answers) := SendAll(store, Some(Answers(p)), calls);
      var (here, own) := ExecAll(ViewStore(store, p), calls);
      && ViewStore(there, p) == here
      && |answers| == |calls| && SameAnswers(answers, own)
      && SameOutside(store, there, p)
    decreases calls
  {
    if calls == [] {
      SameStore(store, p);
    } else {
      FittingCallRefines(store, p, calls[0]);
      var (store1, answer) := Send(store, Some(Answers(p)), calls[0].name, calls[0].input);
      var (here1, own1) := Exec(ViewStore(store, p), calls[0].name, calls[0].input);
      PrivateBucket(store1, p, calls[1..]);
      var (store2, answers) := SendAll(store1, Some(Answers(p)), calls[1..]);
      var (here2, own) := ExecAll(here1, calls[1..]);
      SameOutsideTransitive(store, store1, store2, p);
      OneMoreAnswer(answer, answers, own1, own);
    }
  }

  /** As many answers, each the same. */
  predicate SameAnswers(through: seq<Answer>, private: seq<Answer>) {
    |through| == |private| && forall i :: 0 <= i < |through| ==> SameAnswer(through[i], private[i])
  }

  lemma OneMoreAnswer(a: Answer, through: seq<Answer>, b: Answer, private: seq<Answer>)
    requires SameAnswer(a, b) && SameAnswers(through, private)
    ensures SameAnswers([a] + through, [b] + private)
  {
  }

  ghost predicate AllEnd(store: Store, resolver: Option<Resolver>, calls: seq<Call>, e: Error) {
    var (after, answers) := SendAll(store, resolver, calls);
    after == store && |answers| == |calls| && forall i :: 0 <= i < |calls| ==> answers[i] == Err(e)
  }

  lemma {:induction false} AllEndAlike(store: Store, resolver: Option<Resolver>, calls: seq<Call>, e: Error)
    requires forall c :: c in calls ==> Send(store, resolver, c.name, c.input) == (store, Err(e))
    ensures AllEnd(store, resolver, calls, e)
    decreases calls
  {
    if calls != [] {
      assert calls[0] in calls;
      AllEndAlike(store, resolver, calls[1..], e);
    }
  }

  /** While the resolver fails, every call of a sequence is rejected and nothing reaches S3. */
  lemma FailingResolverRejects(store: Store, calls: seq<Call>)
    ensures var (after, answers) := SendAll(store, Some(Fails), calls);
      && after == store && |answers| == |calls|
      && forall i :: 0 <= i < |calls| ==> answers[i] == Err(ResolverFailed)
  {
    AllEndAlike(store, Some(Fails), calls, ResolverFailed);
  }

  lemma CopiedNotMalformed(store: Store, input: Input)
    ensures Copied(store, input) != Err(MalformedPrefix)
  {
  }

  lemma S3NeverMalformed(b: Bucket, name: Name, input: Input, copied: Result<Bytes, Error>)
    requires copied != Err(MalformedPrefix)
    ensures OnBucket(b, name, input, copied).1 != Err(MalformedPrefix)
  {
    if NamesOneKey(name) && input.key.Some? {
      var u := UploadName(input.key.value, input.uploadId);
      if u in b.uploads {
        assert OnUpload(b, name, input, u, copied).1 != Err(MalformedPrefix);
      }
    }
  }

  lemma ExecNeverMalformed(store: Store, name: Name, input: Input)
    ensures Exec(store, name, input).1 != Err(MalformedPrefix)
  {
    if input.bucket in store {
      CopiedNotMalformed(store, input);
      S3NeverMalformed(store[input.bucket], name, input, Copied(store, input));
    }
  }

  lemma AcceptedIsNotMalformed(store: Store, p: Bytes, name: Name, input: Input)
    requires Relative(p)
    ensures Send(store, Some(Answers(p)), name, input).1 != Err(MalformedPrefix)
  {
    if p == [] {
      ExecNeverMalformed(store, name, input);
    } else if PrefixInput(input, p, IsListing(name)).Ok? {
      ExecNeverMalformed(store, name, PrefixInput(input, p, IsListing(name)).value);
    }
  }

  /**
   * Every call of a sequence is rejected for its prefix, and nothing reaches S3,
   * exactly when the prefix is not empty and does not end in a slash or begins
   * with one.
   */
  lemma MalformedPrefixRejectsExactly(store: Store, p: Bytes, calls: seq<Call>)
    requires calls != []
    ensures var (after, answers) := SendAll(store, Some(Answers(p)), calls);
      && |answers| == |calls|
      && ((after == store && forall i :: 0 <= i < |calls| ==> answers[i] == Err(MalformedPrefix)) <==>
          p != [] && (p[|p| - 1] != SLASH || p[0] == SLASH))
  {
    AnswerEach(store, Some(Answers(p)), calls);
    if Relative(p) {
      AcceptedIsNotMalformed(store, p, calls[0].name, calls[0].input);
      var answers := SendAll(store, Some(Answers(p)), calls).1;
      assert answers[0] == Send(store, Some(Answers(p)), calls[0].name, calls[0].input).1;
    } else {
      AllEndAlike(store, Some(Answers(p)), calls, MalformedPrefix);
    }
  }

  lemma {:induction false} AnswerEach(store: Store, resolver: Option<Resolver>, calls: seq<Call>)
    ensures |SendAll(store, resolver, calls).1| == |calls|
    decreases calls
  {
    if calls != [] {
      AnswerEach(Send(store, resolver, calls[0].name, calls[0].input).0, resolver, calls[1..]);
    }
  }

  /** Without a resolver the middleware does nothing: answers and store are those of the plain calls. */
  lemma {:induction false} NoResolverIsPlain(store: Store, calls: seq<Call>)
    ensures SendAll(store, None, calls) == ExecAll(store, calls)
    decreases calls
  {
    if calls != [] {
      NoResolverIsPlain(Exec(store, calls[0].name, calls[0].input).0, calls[1..]);
    }
  }

  lemma SameOutsideTransitive(a: Store, b: Store, c: Store, p: Bytes)
    requires SameOutside(a, b, p) && SameOutside(b, c, p)
    ensures SameOutside(a, c, p)
  {
  }

  // ----- In the source's own form -----

  /** `prefixInput`, which overrides one field after another. */
  method OverrideInput(input: Input, p: Bytes, isListing: bool) returns (r: Result<Input, Error>)
    ensures r == PrefixInput(input, p, isListing)
  {
    var overridden := input;
    if input.key.Some? {
      overridden := overridden.(key := Some(p + input.key.value));
    }
    if input.prefix.Some? || isListing {
      overridden := overridden.(prefix := Some(p + input.prefix.GetOr([])));
    }
    if input.startAfter.Some? {
      overridden := overridden.(startAfter := Some(p + input.startAfter.value));
    }
    if input.copySource.Some? {
      var source := PrefixCopySource(input.copySource.value, p);
      if source.None? {
        return Err(CopySourceNamesNoKey);
      }
      overridden := overridden.(copySource := source);
    }
    if input.delete.Some? {
      overridden := overridden.(delete := Some(PrefixEach(p, input.delete.value)));
    }
    return Ok(overridden);
  }

  /** `stripOutput`, likewise. */
  method OverrideOutput(output: Output, p: Bytes) returns (r: Output)
    ensures r == StripOutput(output, p)
  {
    r := output;
    if output.key.Some? {
      r := r.(key := Some(Strip(p, output.key.value)));
    }
    if output.prefix.Some? {
      r := r.(prefix := Some(Strip(p, output.prefix.value)));
    }
    if output.startAfter.Some? {
      r := r.(startAfter := Some(Strip(p, output.startAfter.value)));
    }
    if output.contents.Some? {
      r := r.(contents := Some(StripEntries(p, output.contents.value)));
    }
    if output.deleted.Some? {
      r := r.(deleted := Some(StripEach(p, output.deleted.value)));
    }
    if output.errors.Some? {
      r := r.(errors := Some(StripEach(p, output.errors.value)));
    }
    if output.commonPrefixes.Some? {
      r := r.(commonPrefixes := Some(StripEach(p, output.commonPrefixes.value)));
    }
  }
}
