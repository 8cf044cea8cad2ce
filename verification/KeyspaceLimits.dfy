/**
 * Where a call through the keyspace-prefix middleware stops being a call on a
 * private store: for each kind of command, the exact condition.
 */
module KeyspaceLimits {
  import opened Optional
  import opened Text
  import opened CopySource
  import opened S3Store
  import opened KeyspacePrefix

  // ----- Commands that name one key -----

  /** A copy that gets as far as the key of its source. */
  predicate ReadsSource(store: Store, p: Bytes, name: Name, input: Input)
    requires input.key.Some? && input.bucket in store
  {
    && IsCopy(name) && input.copySource.Some? && ReadCopySource(input.copySource.value).Some?
    && (name.CopyObject? || UploadName(p + input.key.value, input.uploadId) in store[input.bucket].uploads)
    && var source := ReadCopySource(input.copySource.value).value;
       source.query.None? && source.bucket in store
  }

  /** S3 accepts the keys that the call has it look at, both with and without the prefix, or in neither form. */
  predicate KeysAgree(store: Store, p: Bytes, name: Name, input: Input)
    requires input.key.Some? && input.bucket in store
  {
    if ReadsSource(store, p, name, input) then
      var source := ReadCopySource(input.copySource.value).value;
      && ValidKey(input.key.value) && ValidKey(source.key)
      <==> ValidKey(p + input.key.value) && ValidKey(p + source.key)
    else
      SameValidity(p, input.key.value)
  }

  /** The copy's source is looked at only when the upload is there. */
  predicate Reached(b: Bucket, name: Name, input: Input)
    requires input.key.Some?
  {
    IsCopy(name) && (name.CopyObject? || UploadName(input.key.value, input.uploadId) in b.uploads)
  }

  /** A key command answers that a key is invalid exactly for its own key or for the key of a source it reads. */
  lemma InvalidExactly(b: Bucket, name: Name, input: Input, copied: Result<Bytes, Error>)
    requires NamesOneKey(name) && input.key.Some?
    ensures var (after, answer) := OnBucket(b, name, input, copied);
      && (answer == Err(InvalidKey) <==>
          !ValidKey(input.key.value) || (Reached(b, name, input) && copied == Err(InvalidKey)))
      && (answer == Err(InvalidKey) ==> after == b)
      && (answer == Err(CopySourceNamesNoKey) ==> copied == Err(CopySourceNamesNoKey))
  {
  }

  lemma UnreadSource(b: Bucket, name: Name, input: Input, copied: Result<Bytes, Error>, other: Result<Bytes, Error>)
    requires NamesOneKey(name) && input.key.Some? && !Reached(b, name, input)
    ensures OnBucket(b, name, input, copied) == OnBucket(b, name, input, other)
  {
    if !IsCopy(name) {
      OnlyCopiesRead(b, name, input, copied, other);
    }
  }

  predicate HeaderRefused(store: Store, p: Bytes, header: Bytes) {
    && ReadCopySource(header).Some?
    && var source := ReadCopySource(header).value;
       source.query.None? && source.bucket in store && !ValidKey(p + source.key)
  }

  predicate SourceKeyRefused(store: Store, p: Bytes, input: Input) {
    input.copySource.Some? && HeaderRefused(store, p, input.copySource.value)
  }

  lemma CopyInvalidExactly(store: Store, p: Bytes, header: Bytes)
    requires PrefixCopySource(header, p).Some?
    ensures var there := CopyFrom(store, PrefixCopySource(header, p).value);
      there != Err(CopySourceNamesNoKey) && (there == Err(InvalidKey) <==> HeaderRefused(store, p, header))
  {
    ReadPrefixedCopySource(header, p);
  }

  lemma PlainInvalidExactly(store: Store, header: Bytes)
    ensures CopyFrom(store, header) != Err(CopySourceNamesNoKey)
    ensures CopyFrom(store, header) == Err(InvalidKey) <==> HeaderRefused(store, [], header)
  {
    if ReadCopySource(header).Some? {
      assert [] + ReadCopySource(header).value.key == ReadCopySource(header).value.key;
    }
  }

  lemma BothRead(store: Store, p: Bytes, header: Bytes)
    requires PrefixCopySource(header, p).Some?
    requires CopyFrom(store, PrefixCopySource(header, p).value) != Err(InvalidKey)
    requires CopyFrom(ViewStore(store, p), header) != Err(InvalidKey)
    ensures CopyFrom(store, PrefixCopySource(header, p).value) == CopyFrom(ViewStore(store, p), header)
  {
    ReadPrefixedCopySource(header, p);
    if ReadCopySource(header).Some? {
      var source := ReadCopySource(header).value;
      if source.bucket in store {
        ViewLookup(store[source.bucket], p, source.key);
      }
    }
  }

  /** What the two sides read: the same, unless the prefix makes the source's key valid or invalid. */
  lemma SourcesRead(store: Store, p: Bytes, input: Input, input': Input)
    requires PrefixInput(input, p, false) == Ok(input')
    ensures var (there, here) := (Copied(store, input'), Copied(ViewStore(store, p), input));
      && there != Err(CopySourceNamesNoKey) && here != Err(CopySourceNamesNoKey)
      && (there != Err(InvalidKey) && here != Err(InvalidKey) ==> there == here)
      && (there == Err(InvalidKey) <==> SourceKeyRefused(store, p, input))
      && (here == Err(InvalidKey) <==> SourceKeyRefused(ViewStore(store, p), [], input))
  {
    if input.copySource.Some? {
      var header := input.copySource.value;
      CopyInvalidExactly(store, p, header);
      PlainInvalidExactly(ViewStore(store, p), header);
      if CopyFrom(store, PrefixCopySource(header, p).value) != Err(InvalidKey)
         && CopyFrom(ViewStore(store, p), header) != Err(InvalidKey) {
        BothRead(store, p, header);
      }
    }
  }

  lemma ReachedAlike(b: Bucket, p: Bytes, name: Name, input: Input, input': Input)
    requires PrefixInput(input, p, false) == Ok(input') && input.key.Some?
    ensures Reached(b, name, input') <==> Reached(View(b, p), name, input)
  {
    ViewUpload(b, p, UploadName(input.key.value, input.uploadId));
  }

  /** Either both sides answer that a key is invalid, or neither does. */
  ghost predicate RefusedAlike(there: (Bucket, Answer), here: (Bucket, Answer)) {
    there.1 == Err(InvalidKey) <==> here.1 == Err(InvalidKey)
  }

  lemma RefusedThere(store: Store, p: Bytes, name: Name, input: Input, input': Input)
    requires NamesOneKey(name) && input.key.Some? && input.bucket in store && PrefixInput(input, p, false) == Ok(input')
    ensures OnBucket(store[input.bucket], name, input', Copied(store, input')).1 == Err(InvalidKey) <==>
            || !ValidKey(p + input.key.value)
            || (&& ReadsSource(store, p, name, input)
                && !ValidKey(p + ReadCopySource(input.copySource.value).value.key))
  {
    SourcesRead(store, p, input, input');
    InvalidExactly(store[input.bucket], name, input', Copied(store, input'));
  }

  lemma RefusedHere(store: Store, p: Bytes, name: Name, input: Input, input': Input)
    requires NamesOneKey(name) && input.key.Some? && input.bucket in store && PrefixInput(input, p, false) == Ok(input')
    ensures OnBucket(View(store[input.bucket], p), name, input, Copied(ViewStore(store, p), input)).1
            == Err(InvalidKey) <==>
            || !ValidKey(input.key.value)
            || (&& ReadsSource(store, p, name, input)
                && !ValidKey(ReadCopySource(input.copySource.value).value.key))
  {
    SourcesRead(store, p, input, input');
    ReachedAlike(store[input.bucket], p, name, input, input');
    InvalidExactly(View(store[input.bucket], p), name, input, Copied(ViewStore(store, p), input));
    if ReadsSource(store, p, name, input) {
      var source := ReadCopySource(input.copySource.value).value;
      assert [] + source.key == source.key;
    }
  }

  lemma RefusedAlikeExactly(store: Store, p: Bytes, name: Name, input: Input, input': Input)
    requires NamesOneKey(name) && input.key.Some? && input.bucket in store && PrefixInput(input, p, false) == Ok(input')
    ensures var b := store[input.bucket];
      RefusedAlike(OnBucket(b, name, input', Copied(store, input')),
                   OnBucket(View(b, p), name, input, Copied(ViewStore(store, p), input)))
      <==> KeysAgree(store, p, name, input)
  {
    RefusedThere(store, p, name, input, input');
    RefusedHere(store, p, name, input, input');
  }

  lemma RefusedAlikeAgrees(store: Store, p: Bytes, name: Name, input: Input, input': Input)
    requires NamesOneKey(name) && input.key.Some? && input.bucket in store && PrefixInput(input, p, false) == Ok(input')
    requires var b := store[input.bucket];
      RefusedAlike(OnBucket(b, name, input', Copied(store, input')),
                   OnBucket(View(b, p), name, input, Copied(ViewStore(store, p), input)))
    ensures var b := store[input.bucket];
      Agrees(b, p, OnBucket(b, name, input', Copied(store, input')),
             OnBucket(View(b, p), name, input, Copied(ViewStore(store, p), input)))
  {
    var b := store[input.bucket];
    var there, here := Copied(store, input'), Copied(ViewStore(store, p), input);
    InvalidExactly(b, name, input', there);
    InvalidExactly(View(b, p), name, input, here);
    if OnBucket(b, name, input', there).1 == Err(InvalidKey) {
      RefusalAgrees(b, p, InvalidKey);
    } else {
      SourcesRead(store, p, input, input');
      ReachedAlike(b, p, name, input, input');
      if !Reached(View(b, p), name, input) {
        UnreadSource(View(b, p), name, input, there, here);
      }
      OneKeyAgrees(b, p, name, input, input', there);
    }
  }

  /** A copy source that the code throws on, whatever the prefix. */
  predicate NamesNoKey(p: Bytes, input: Input) {
    input.copySource.Some? && PrefixCopySource(input.copySource.value, p).None?
  }

  lemma EmptyPrefixAgrees(store: Store, name: Name, input: Input)
    requires input.key.Some? && input.bucket in store
    ensures KeysAgree(store, [], name, input)
  {
    assert [] + input.key.value == input.key.value;
    if ReadsSource(store, [], name, input) {
      var source := ReadCopySource(input.copySource.value).value;
      assert [] + source.key == source.key;
    }
  }

  /**
   * A command that names one key agrees with the private store exactly when the
   * keys S3 looks at are valid on both sides or on neither, or when it is a copy
   * whose source names no key, which both sides refuse. For a command that is no
   * copy that is `SameValidity` of its key.
   */
  lemma KeyCommandExactly(store: Store, p: Bytes, name: Name, input: Input)
    requires p == [] || (p[|p| - 1] == SLASH && p[0] != SLASH)
    requires NamesOneKey(name) && input.key.Some? && input.bucket in store
    requires input.copySource.Some? ==> IsCopy(name)
    ensures CallRefines(store, p, name, input) <==>
            NamesNoKey(p, input) || KeysAgree(store, p, name, input)
  {
    if p == [] {
      EmptyPrefixRefines(store, name, input);
      EmptyPrefixAgrees(store, name, input);
    } else if NamesNoKey(p, input) {
      NoKeyRefines(store, p, name, input);
    } else {
      var input' := PrefixInput(input, p, false).value;
      RefusedAlikeExactly(store, p, name, input, input');
      if KeysAgree(store, p, name, input) {
        RefusedAlikeAgrees(store, p, name, input, input');
        StoreRefines(store, p, name, input, input');
      } else {
        RefusedOnOneSide(store, p, name, input, input');
      }
    }
  }

  lemma RefusedOnOneSide(store: Store, p: Bytes, name: Name, input: Input, input': Input)
    requires p != [] && Relative(p)
    requires NamesOneKey(name) && input.key.Some? && input.bucket in store && PrefixInput(input, p, false) == Ok(input')
    requires var b := store[input.bucket];
      !RefusedAlike(OnBucket(b, name, input', Copied(store, input')),
                    OnBucket(View(b, p), name, input, Copied(ViewStore(store, p), input)))
    ensures !CallRefines(store, p, name, input)
  {
    SourcesRead(store, p, input, input');
    InvalidExactly(store[input.bucket], name, input', Copied(store, input'));
    RefusalsDiffer(OnBucket(store[input.bucket], name, input', Copied(store, input')),
                   OnBucket(View(store[input.bucket], p), name, input, Copied(ViewStore(store, p), input)), p);
    DifferentAnswers(store, p, name, input, input');
  }

  lemma RefusalsDiffer(there: (Bucket, Answer), here: (Bucket, Answer), p: Bytes)
    requires !RefusedAlike(there, here) && there.1 != Err(CopySourceNamesNoKey)
    ensures !SameAnswer(StripAnswer(there.1, p), here.1)
  {
  }

  /** A call whose two answers differ does not refine. */
  lemma DifferentAnswers(store: Store, p: Bytes, name: Name, input: Input, input': Input)
    requires p != [] && Relative(p) && input.bucket in store
    requires PrefixInput(input, p, IsListing(name)) == Ok(input')
    requires !SameAnswer(StripAnswer(OnBucket(store[input.bucket], name, input', Copied(store, input')).1, p),
                         OnBucket(View(store[input.bucket], p), name, input, Copied(ViewStore(store, p), input)).1)
    ensures !CallRefines(store, p, name, input)
  {
    SendOnBucket(store, p, name, input, input');
  }

  lemma InvalidBatch(b: Bucket, input: Input, copied: Result<Bytes, Error>)
    requires input.delete.Some?
    ensures OnBucket(b, DeleteObjects, input, copied).1 == Err(InvalidKey) <==> AnyInvalid(input.delete.value)
    ensures OnBucket(b, DeleteObjects, input, copied).1 != Err(CopySourceNamesNoKey)
  {
  }

  lemma BatchesDisagree(store: Store, p: Bytes, input: Input, input': Input)
    requires p != [] && Relative(p) && input.bucket in store && input.delete.Some?
    requires PrefixInput(input, p, false) == Ok(input')
    requires !(AnyInvalid(input.delete.value) <==> AnyInvalid(input'.delete.value))
    ensures !CallRefines(store, p, DeleteObjects, input)
  {
    InvalidBatch(store[input.bucket], input', Copied(store, input'));
    InvalidBatch(View(store[input.bucket], p), input, Copied(ViewStore(store, p), input));
    DifferentAnswers(store, p, DeleteObjects, input, input');
  }

  /** A batch deletion agrees exactly when S3 refuses the batch in both forms or in neither. */
  lemma DeleteObjectsExactly(store: Store, p: Bytes, input: Input)
    requires p == [] || (p[|p| - 1] == SLASH && p[0] != SLASH)
    requires input.bucket in store && input.delete.Some? && input.copySource.None?
    ensures CallRefines(store, p, DeleteObjects, input) <==>
            (AnyInvalid(input.delete.value) <==> AnyInvalid(PrefixEach(p, input.delete.value)))
  {
    if KeyFits(p, DeleteObjects, input) {
      OneCallRefines(store, p, DeleteObjects, input);
    } else {
      EmptyPrefixEach(input.delete.value);
      PrefixedBatch(input, p);
      BatchesDisagree(store, p, input, PrefixInput(input, p, false).value);
    }
  }

  lemma PrefixedBatch(input: Input, p: Bytes)
    requires input.delete.Some? && input.copySource.None?
    ensures PrefixInput(input, p, false).Ok?
    ensures PrefixInput(input, p, false).value.delete == Some(PrefixEach(p, input.delete.value))
  {
  }

  lemma EmptyPrefixEach(ks: seq<Bytes>)
    ensures PrefixEach([], ks) == ks
  {
    forall i | 0 <= i < |ks| ensures PrefixEach([], ks)[i] == ks[i] {
      assert [] + ks[i] == ks[i];
    }
  }

  /** An empty key is refused by S3, yet through the middleware it writes the object named by the prefix itself. */
  lemma EmptyKeyReachesThePrefix(store: Store, input: Input)
    requires input.bucket in store && input.key == Some([]) && input.copySource.None? && input.delete.None?
    ensures var p := [0x76, SLASH];
      var there := Send(store, Some(Answers(p)), PutObject, input).0;
      && !CallRefines(store, p, PutObject, input)
      && there == store[input.bucket := store[input.bucket].(objects := store[input.bucket].objects[p := input.body])]
  {
    var p := [0x76, SLASH];
    assert p + [] == p;
    KeyCommandExactly(store, p, PutObject, input);
    var input' := PrefixInput(input, p, false).value;
    SendOnBucket(store, p, PutObject, input, input');
    PutWrites(store[input.bucket], input', p, Copied(store, input'));
  }

  lemma PutWrites(b: Bucket, input: Input, k: Bytes, copied: Result<Bytes, Error>)
    requires input.key == Some(k) && ValidKey(k)
    ensures OnBucket(b, PutObject, input, copied) == (b.(objects := b.objects[k := input.body]), Ok(EMPTY))
  {
  }

  // ----- ListObjects and its marker -----

  /** The marker comes before everything with the tenant's prefix, in both forms, or after all of it in both. */
  predicate MarkerOutside(p: Bytes, q: Bytes, m: Bytes) {
    || (Less(m, q) && Less(m, p + q))
    || (Less(q, m) && !(q <= m) && Less(p + q, m) && !(p + q <= m))
  }

  lemma {:induction false} BeyondPrefix(c: Bytes, y: Bytes, m: Bytes)
    requires !(c <= m) && Less(c, m)
    ensures Less(c + y, m)
  {
    if c != [] && c[0] == m[0] {
      assert (c + y)[1..] == c[1..] + y;
      assert c == [c[0]] + c[1..] && m == [m[0]] + m[1..];
      BeyondPrefix(c[1..], y, m[1..]);
    }
  }

  lemma BeforePrefix(m: Bytes, c: Bytes, y: Bytes)
    requires Less(m, c)
    ensures Less(m, c + y)
  {
    assert c + [] == c;
    if y == [] {
      assert c + y == c;
    } else {
      LessSamePrefix(c, [], y);
      LessTransitive(m, c, c + y);
    }
  }

  /** A marker outside a prefix is on one side of all its keys. */
  lemma OutsideDecides(m: Bytes, c: Bytes, y: Bytes)
    ensures Less(m, c) ==> Less(m, c + y)
    ensures Less(c, m) && !(c <= m) ==> !Less(m, c + y)
  {
    if Less(m, c) {
      BeforePrefix(m, c, y);
    }
    if Less(c, m) && !(c <= m) {
      BeyondPrefix(c, y, m);
      LessTotal(m, c + y);
    }
  }

  /** A marker inside a prefix is followed by the keys that its rest comes before. */
  lemma InsideDecides(m: Bytes, c: Bytes, y: Bytes)
    requires c <= m
    ensures Less(m, c + y) <==> Less(m[|c|..], y)
  {
    assert m == c + m[|c|..];
    LessSamePrefix(c, m[|c|..], y);
  }

  lemma AfterItself(r: Bytes)
    ensures Less(r, r + [0]) && !Less(r, [])
  {
    LessSamePrefix(r, [], [0]);
    assert r + [] == r;
  }

  /** Otherwise some key is on one side of the marker and its prefixed form on the other. */
  lemma SplitKey(p: Bytes, q: Bytes, m: Bytes) returns (y: Bytes)
    requires p != [] && !MarkerOutside(p, q, m)
    ensures Less(m, q + y) != Less(m, p + q + y)
  {
    LessTotal(m, q);
    LessTotal(m, p + q);
    if q <= m && p + q <= m {
      y := SplitInside(p, q, m);
    } else if q <= m {
      y := SplitHalf(q, p + q, m);
    } else if p + q <= m {
      y := SplitHalf(p + q, q, m);
    } else {
      y := [];
      assert q + [] == q && p + q + [] == p + q;
    }
  }

  lemma SplitHalf(c: Bytes, d: Bytes, m: Bytes) returns (y: Bytes)
    requires c <= m && !(d <= m)
    ensures Less(m, c + y) != Less(m, d + y)
  {
    LessTotal(m, d);
    var r := m[|c|..];
    AfterItself(r);
    y := if Less(m, d) then [] else r + [0];
    InsideDecides(m, c, y);
    OutsideDecides(m, d, y);
  }

  lemma SplitInside(p: Bytes, q: Bytes, m: Bytes) returns (y: Bytes)
    requires p != [] && q <= m && p + q <= m
    ensures Less(m, q + y) != Less(m, p + q + y)
  {
    var r, s := m[|q|..], m[|p + q|..];
    LessTotal(r, s);
    LessTotal(r, r);
    LessTotal(s, s);
    y := if Less(r, s) then s else r;
    InsideDecides(m, q, y);
    InsideDecides(m, p + q, y);
  }

  lemma OutsideCutsAlike(p: Bytes, q: Bytes, m: Bytes)
    requires MarkerOutside(p, q, m)
    ensures SameCut(p, q, Some(m), Some(m))
  {
    forall x: Bytes | q <= x ensures Less(m, p + x) <==> Less(m, x) {
      var y := x[|q|..];
      assert x == q + y && p + x == p + q + y;
      OutsideDecides(m, q, y);
      OutsideDecides(m, p + q, y);
    }
  }

  lemma {:induction false} ItemsCounted(items: seq<Item>)
    ensures |Contents(items)| + |CommonPrefixes(items)| == |items|
  {
    if items != [] {
      ItemsCounted(items[1..]);
    }
  }

  /** A page of a bucket that holds one object with the prefix. */
  lemma ListOne(b: Bucket, k: Bytes, input: Input, after: Option<Bytes>)
    requires b.objects.Keys == {k} && input.prefix.GetOr([]) <= k && input.maxKeys >= 1
    ensures var page := List(b, input, after);
      |page.contents.value| + |page.commonPrefixes.value| == if ComesAfter(after, k) then 1 else 0
  {
    var prefix := input.prefix.GetOr([]);
    var chosen := Selected(b.objects, prefix, after);
    InOrderIsIncreasing(chosen);
    if ComesAfter(after, k) {
      assert chosen == {k};
      IncreasingIsUnique(InOrder(chosen), [k]);
      RollOne(b.objects, k, |prefix|, input.delimiter);
    } else {
      assert chosen == {};
    }
    ItemsCounted(First(ListItems(b.objects, prefix, after, input.delimiter), input.maxKeys));
  }

  lemma RollOne(objects: map<Bytes, Bytes>, k: Bytes, n: nat, delimiter: Option<Byte>)
    ensures |Roll(objects, [k], n, delimiter)| == 1
  {
    assert [k][..0] == [];
    assert Roll(objects, [], n, delimiter) == [];
  }

  lemma ViewOfOne(objects: map<Bytes, Bytes>, p: Bytes, k: Bytes)
    requires objects.Keys == {p + k}
    ensures ViewObjects(objects, p).Keys == {k}
  {
    forall x: Bytes ensures x in ViewObjects(objects, p) <==> x == k {
      StrippedMember(objects.Keys, p, x);
      assert (p + x)[|p|..] == x && (p + k)[|p|..] == k;
    }
  }

  /** A store of one object on which a listing with such a marker differs. */
  lemma MarkerDisagrees(p: Bytes, input: Input) returns (store: Store)
    requires p != [] && Relative(p)
    requires input.copySource.None? && input.maxKeys >= 1 && input.marker.Some?
    requires !MarkerOutside(p, input.prefix.GetOr([]), input.marker.value)
    ensures !CallRefines(store, p, ListObjects, input)
  {
    var q, m := input.prefix.GetOr([]), input.marker.value;
    var y := SplitKey(p, q, m);
    var k := q + y;
    assert p + k == p + q + y;
    var b := Bucket(map[p + k := []], {}, map[]);
    store := map[input.bucket := b];
    ListOne(b, p + k, PrefixInput(input, p, true).value, input.marker);
    ViewOfOne(b.objects, p, k);
    ListOne(View(b, p), k, input, input.marker);
    DifferentListings(store, p, input);
  }

  lemma DifferentListings(store: Store, p: Bytes, input: Input)
    requires p != [] && Relative(p)
    requires input.copySource.None? && input.bucket in store
    requires
      var there := List(store[input.bucket], PrefixInput(input, p, true).value, input.marker);
      var own := List(View(store[input.bucket], p), input, input.marker);
      |there.contents.value| + |there.commonPrefixes.value| != |own.contents.value| + |own.commonPrefixes.value|
    ensures !CallRefines(store, p, ListObjects, input)
  {
    var input' := PrefixInput(input, p, true).value;
    MarkerAnswers(store[input.bucket], input', Copied(store, input'));
    MarkerAnswers(View(store[input.bucket], p), input, Copied(ViewStore(store, p), input));
    DifferentAnswers(store, p, ListObjects, input, input');
  }

  /** Which markers fit: none, those of an empty prefix, and those outside the prefix on the same side in both forms. */
  lemma SameCutExactly(p: Bytes, q: Bytes, marker: Option<Bytes>)
    ensures SameCut(p, q, marker, marker) <==> p == [] || marker.None? || MarkerOutside(p, q, marker.value)
  {
    if p == [] {
      forall x: Bytes ensures [] + x == x {
      }
    } else if marker.Some? {
      if MarkerOutside(p, q, marker.value) {
        OutsideCutsAlike(p, q, marker.value);
      } else {
        var y := SplitKey(p, q, marker.value);
        assert q <= q + y && p + (q + y) == p + q + y;
      }
    }
  }

  /**
   * `ListObjects` is one of the listing commands, but its `Marker` is not
   * rewritten. For any prefix, delimiter and page size the listing agrees over
   * all stores exactly when there is no marker, no room on the page, or the
   * marker is outside the prefix on the same side in both forms.
   */
  lemma MarkerIsNotRewritten(p: Bytes, input: Input)
    requires (p == [] || (p[|p| - 1] == SLASH && p[0] != SLASH)) && input.copySource.None?
    ensures (forall store: Store :: CallRefines(store, p, ListObjects, input)) <==>
            (|| p == [] || input.maxKeys == 0 || input.marker.None?
             || MarkerOutside(p, input.prefix.GetOr([]), input.marker.value))
  {
    SameCutExactly(p, input.prefix.GetOr([]), input.marker);
    if MarkerFits(p, input) {
      forall store: Store ensures CallRefines(store, p, ListObjects, input) {
        OneCallRefines(store, p, ListObjects, input);
      }
    } else {
      var store := MarkerDisagrees(p, input);
    }
  }
}
