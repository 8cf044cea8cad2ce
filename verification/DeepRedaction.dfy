/**
 * The rewrite of every url-shaped string in a captured event's properties, as a
 * value or as a key, at any depth.
 */
module DeepRedaction {
  import opened Optional
  import opened Json
  import opened Redaction
  import opened RedactUrl

  const MAX_REDACTION_DEPTH: nat := 12

  /** How one string is rewritten; `UrlRewriter` below is the module's own. */
  type Rewriter = string -> string

  function RedactUnknown(v: Json, depth: nat, rewrite: Rewriter): Json
    decreases v
  {
    if v.Str? then Str(rewrite(v.s))
    else if depth > MAX_REDACTION_DEPTH then Str(MARKER)
    else
      match v
      case Arr(items) => Arr(RedactItems(items, depth + 1, rewrite))
      case Obj(entries) => Obj(RedactProperties(entries, depth, rewrite))
      case _ => v
  }

  function RedactItems(items: seq<Json>, depth: nat, rewrite: Rewriter): (r: seq<Json>)
    ensures |r| == |items|
    decreases items
  {
    if items == [] then []
    else RedactItems(items[..|items| - 1], depth, rewrite) + [RedactUnknown(items[|items| - 1], depth, rewrite)]
  }

  /** Two arrays under one key are joined; anything else is overwritten. */
  function Merge(existing: Option<Json>, v: Json): Json {
    if existing.Some? && existing.value.Arr? && v.Arr? then Arr(existing.value.items + v.items) else v
  }

  function RedactProperties(entries: seq<Entry>, depth: nat, rewrite: Rewriter): seq<Entry>
    decreases entries
  {
    if entries == [] then []
    else
      var done := RedactProperties(entries[..|entries| - 1], depth, rewrite);
      var last := entries[|entries| - 1];
      var key := rewrite(last.key);
      Put(done, key, Merge(Get(done, key), RedactUnknown(last.value, depth + 1, rewrite)))
  }

  // ----- In the source's own form: one map filled in a loop -----

  method FillRedacted(entries: seq<Entry>, depth: nat, rewrite: Rewriter) returns (filled: seq<Entry>)
    ensures filled == RedactProperties(entries, depth, rewrite)
    decreases entries
  {
    filled := [];
    for i := 0 to |entries|
      invariant filled == RedactProperties(entries[..i], depth, rewrite)
    {
      assert entries[..i + 1][..i] == entries[..i];
      var key := rewrite(entries[i].key);
      var value := WalkUnknown(entries[i].value, depth + 1, rewrite);
      var existing := Get(filled, key);
      var merges := existing.Some? && existing.value.Arr? && value.Arr?;
      filled := Put(filled, key, if merges then Arr(existing.value.items + value.items) else value);
    }
    assert entries[..|entries|] == entries;
  }

  method WalkUnknown(v: Json, depth: nat, rewrite: Rewriter) returns (r: Json)
    ensures r == RedactUnknown(v, depth, rewrite)
    decreases v
  {
    if v.Str? {
      return Str(rewrite(v.s));
    }
    if depth > MAX_REDACTION_DEPTH {
      return Str(MARKER);
    }
    match v
    case Arr(items) =>
      var walked: seq<Json> := [];
      for i := 0 to |items|
        invariant walked == RedactItems(items[..i], depth + 1, rewrite)
      {
        assert items[..i + 1][..i] == items[..i];
        var item := WalkUnknown(items[i], depth + 1, rewrite);
        walked := walked + [item];
      }
      assert items[..|items|] == items;
      return Arr(walked);
    case Obj(entries) =>
      var filled := FillRedacted(entries, depth, rewrite);
      return Obj(filled);
    case _ => return v;
  }

  // ----- Strings -----

  /** Rewriting again changes nothing, and the marker stays. */
  ghost predicate Settles(rewrite: Rewriter) {
    (forall s :: rewrite(rewrite(s)) == rewrite(s)) && rewrite(MARKER) == MARKER
  }

  // ----- Nothing is left to redact -----

  /** No string anywhere in the value, key or content, that the url redaction would still change. */
  predicate Clean(v: Json, rewrite: Rewriter)
    decreases v
  {
    match v
    case Str(s) => rewrite(s) == s
    case Arr(items) => forall i :: 0 <= i < |items| ==> Clean(items[i], rewrite)
    case Obj(entries) => CleanEntries(entries, rewrite)
    case _ => true
  }

  predicate CleanEntries(entries: seq<Entry>, rewrite: Rewriter)
    decreases entries
  {
    forall i :: 0 <= i < |entries| ==> rewrite(entries[i].key) == entries[i].key && Clean(entries[i].value, rewrite)
  }

  lemma PutKeepsClean(entries: seq<Entry>, key: string, v: Json, rewrite: Rewriter)
    requires CleanEntries(entries, rewrite) && rewrite(key) == key && Clean(v, rewrite)
    ensures CleanEntries(Put(entries, key, v), rewrite)
  {
    PutKeys(entries, key, v);
    var r := Put(entries, key, v);
    forall i | 0 <= i < |r| ensures rewrite(r[i].key) == r[i].key && Clean(r[i].value, rewrite) {
      assert r[i] in r;
    }
  }

  lemma {:induction false} RedactedIsClean(v: Json, depth: nat, rewrite: Rewriter)
    requires Settles(rewrite)
    ensures Clean(RedactUnknown(v, depth, rewrite), rewrite)
    decreases v
  {
    if v.Str? {
    } else if depth > MAX_REDACTION_DEPTH {
    } else if v.Arr? {
      ItemsAreClean(v.items, depth + 1, rewrite);
    } else if v.Obj? {
      PropertiesAreClean(v.entries, depth, rewrite);
    }
  }

  lemma {:induction false} ItemsAreClean(items: seq<Json>, depth: nat, rewrite: Rewriter)
    requires Settles(rewrite)
    ensures forall i :: 0 <= i < |items| ==> Clean(RedactItems(items, depth, rewrite)[i], rewrite)
    decreases items
  {
    if items != [] {
      ItemsAreClean(items[..|items| - 1], depth, rewrite);
      RedactedIsClean(items[|items| - 1], depth, rewrite);
    }
  }

  lemma {:induction false} PropertiesAreClean(entries: seq<Entry>, depth: nat, rewrite: Rewriter)
    requires Settles(rewrite)
    ensures CleanEntries(RedactProperties(entries, depth, rewrite), rewrite)
    decreases entries
  {
    if entries != [] {
      var front, last := entries[..|entries| - 1], entries[|entries| - 1];
      PropertiesAreClean(front, depth, rewrite);
      RedactedIsClean(last.value, depth + 1, rewrite);
      var done, key := RedactProperties(front, depth, rewrite), rewrite(last.key);
      var v := RedactUnknown(last.value, depth + 1, rewrite);
      GetIsEntry(done, key);
      if Get(done, key).Some? {
        assert Clean(Get(done, key).value, rewrite);
      }
      assert Clean(Merge(Get(done, key), v), rewrite);
      PutKeepsClean(done, key, Merge(Get(done, key), v), rewrite);
    }
  }

  // ----- Redacting again changes nothing -----

  predicate Fixed(v: Json, depth: nat, rewrite: Rewriter) {
    RedactUnknown(v, depth, rewrite) == v
  }

  /** Entries that stay as they are: keys that occur once and are settled, with fixed values. */
  predicate FixedEntries(entries: seq<Entry>, depth: nat, rewrite: Rewriter) {
    DistinctKeys(entries) && forall e :: e in entries ==> rewrite(e.key) == e.key && Fixed(e.value, depth + 1, rewrite)
  }

  lemma {:induction false} FixedEntriesStay(entries: seq<Entry>, depth: nat, rewrite: Rewriter)
    requires FixedEntries(entries, depth, rewrite)
    ensures RedactProperties(entries, depth, rewrite) == entries
    decreases |entries|
  {
    if entries != [] {
      var front, last := entries[..|entries| - 1], entries[|entries| - 1];
      DistinctFront(entries);
      FixedEntriesStay(front, depth, rewrite);
      assert last in entries;
      GetIsEntry(front, last.key);
      PutNew(front, last.key, last.value);
      assert entries == front + [last];
    }
  }

  lemma {:induction false} ItemAt(items: seq<Json>, depth: nat, rewrite: Rewriter, i: nat)
    requires i < |items|
    ensures RedactItems(items, depth, rewrite)[i] == RedactUnknown(items[i], depth, rewrite)
    decreases |items|
  {
    if i < |items| - 1 {
      ItemAt(items[..|items| - 1], depth, rewrite, i);
    }
  }

  lemma FixedItemsStay(items: seq<Json>, depth: nat, rewrite: Rewriter)
    ensures (forall v :: v in items ==> Fixed(v, depth, rewrite)) <==> RedactItems(items, depth, rewrite) == items
  {
    forall i | 0 <= i < |items|
      ensures RedactItems(items, depth, rewrite)[i] == RedactUnknown(items[i], depth, rewrite)
    {
      ItemAt(items, depth, rewrite, i);
    }
    if forall v :: v in items ==> Fixed(v, depth, rewrite) {
      assert forall i :: 0 <= i < |items| ==> items[i] in items && Fixed(items[i], depth, rewrite);
      assert RedactItems(items, depth, rewrite) == items;
    }
    if RedactItems(items, depth, rewrite) == items {
      forall v | v in items ensures Fixed(v, depth, rewrite) {
        var i :| 0 <= i < |items| && items[i] == v;
      }
    }
  }

  lemma {:induction false} RedactedIsFixed(v: Json, depth: nat, rewrite: Rewriter)
    requires Settles(rewrite)
    ensures Fixed(RedactUnknown(v, depth, rewrite), depth, rewrite)
    decreases v
  {
    if v.Str? {
    } else if depth > MAX_REDACTION_DEPTH {
    } else if v.Arr? {
      ItemsAreFixed(v.items, depth + 1, rewrite);
      FixedArray(RedactItems(v.items, depth + 1, rewrite), depth, rewrite);
    } else if v.Obj? {
      PropertiesAreFixed(v.entries, depth, rewrite);
      FixedObject(RedactProperties(v.entries, depth, rewrite), depth, rewrite);
    }
  }

  lemma FixedArray(items: seq<Json>, depth: nat, rewrite: Rewriter)
    requires depth <= MAX_REDACTION_DEPTH && forall v :: v in items ==> Fixed(v, depth + 1, rewrite)
    ensures Fixed(Arr(items), depth, rewrite)
  {
    FixedItemsStay(items, depth + 1, rewrite);
  }

  lemma FixedObject(entries: seq<Entry>, depth: nat, rewrite: Rewriter)
    requires depth <= MAX_REDACTION_DEPTH && FixedEntries(entries, depth, rewrite)
    ensures Fixed(Obj(entries), depth, rewrite)
  {
    FixedEntriesStay(entries, depth, rewrite);
  }

  lemma {:induction false} ItemsAreFixed(items: seq<Json>, depth: nat, rewrite: Rewriter)
    requires Settles(rewrite)
    ensures forall v :: v in RedactItems(items, depth, rewrite) ==> Fixed(v, depth, rewrite)
    decreases items
  {
    if items != [] {
      ItemsAreFixed(items[..|items| - 1], depth, rewrite);
      RedactedIsFixed(items[|items| - 1], depth, rewrite);
    }
  }

  /** Joined arrays stay fixed: each element was. */
  lemma MergeIsFixed(existing: Option<Json>, v: Json, depth: nat, rewrite: Rewriter)
    requires Fixed(v, depth, rewrite) && (existing.Some? ==> Fixed(existing.value, depth, rewrite))
    ensures Fixed(Merge(existing, v), depth, rewrite)
  {
    if existing.Some? && existing.value.Arr? && v.Arr? && depth <= MAX_REDACTION_DEPTH {
      JoinedItemsStay(existing.value.items, v.items, depth + 1, rewrite);
    }
  }

  lemma JoinedItemsStay(a: seq<Json>, b: seq<Json>, depth: nat, rewrite: Rewriter)
    requires RedactItems(a, depth, rewrite) == a && RedactItems(b, depth, rewrite) == b
    ensures RedactItems(a + b, depth, rewrite) == a + b
  {
    FixedItemsStay(a, depth, rewrite);
    FixedItemsStay(b, depth, rewrite);
    FixedItemsStay(a + b, depth, rewrite);
  }

  lemma {:induction false} PropertiesAreFixed(entries: seq<Entry>, depth: nat, rewrite: Rewriter)
    requires Settles(rewrite)
    ensures FixedEntries(RedactProperties(entries, depth, rewrite), depth, rewrite)
    decreases entries
  {
    if entries != [] {
      var front, last := entries[..|entries| - 1], entries[|entries| - 1];
      PropertiesAreFixed(front, depth, rewrite);
      RedactedIsFixed(last.value, depth + 1, rewrite);
      var done, key := RedactProperties(front, depth, rewrite), rewrite(last.key);
      var v := RedactUnknown(last.value, depth + 1, rewrite);
      GetIsEntry(done, key);
      MergeIsFixed(Get(done, key), v, depth + 1, rewrite);
      PutKeys(done, key, Merge(Get(done, key), v));
    }
  }

  // ----- Colliding keys -----

  /** The redacted values of the entries whose key redacts to `key`, in order. */
  function Colliding(entries: seq<Entry>, key: string, depth: nat, rewrite: Rewriter): seq<Json> {
    if entries == [] then []
    else
      var last := entries[|entries| - 1];
      Colliding(entries[..|entries| - 1], key, depth, rewrite)
      + if rewrite(last.key) == key then [RedactUnknown(last.value, depth + 1, rewrite)] else []
  }

  /** The elements of the arrays among the values, in order. */
  function Elements(vs: seq<Json>): seq<Json> {
    if vs == [] then [] else Elements(vs[..|vs| - 1]) + if vs[|vs| - 1].Arr? then vs[|vs| - 1].items else []
  }

  /** The elements after the last value that is no array. */
  function LastRun(vs: seq<Json>): seq<Json> {
    if vs == [] || !vs[|vs| - 1].Arr? then [] else LastRun(vs[..|vs| - 1]) + vs[|vs| - 1].items
  }

  /** The last value, or if that is an array the joined arrays since the last other value. */
  function EndedAs(vs: seq<Json>): Option<Json> {
    if vs == [] then None else if vs[|vs| - 1].Arr? then Some(Arr(LastRun(vs))) else Some(vs[|vs| - 1])
  }

  lemma EndedMerges(vs: seq<Json>, v: Json)
    ensures EndedAs(vs + [v]) == Some(Merge(EndedAs(vs), v))
  {
    var all := vs + [v];
    assert all[..|all| - 1] == vs;
    if v.Arr? {
      assert LastRun(all) == LastRun(vs) + v.items;
      if vs == [] || !vs[|vs| - 1].Arr? {
        assert LastRun(vs) == [];
        assert [] + v.items == v.items;
      }
    }
  }

  /** What a key ends up with when several keys redact to it. */
  lemma {:induction false} CollidingValue(entries: seq<Entry>, key: string, depth: nat, rewrite: Rewriter)
    ensures Get(RedactProperties(entries, depth, rewrite), key) == EndedAs(Colliding(entries, key, depth, rewrite))
    decreases |entries|
  {
    if entries != [] {
      var front, last := entries[..|entries| - 1], entries[|entries| - 1];
      CollidingValue(front, key, depth, rewrite);
      var done, k := RedactProperties(front, depth, rewrite), rewrite(last.key);
      GetPut(done, k, Merge(Get(done, k), RedactUnknown(last.value, depth + 1, rewrite)), key);
      if k == key {
        EndedMerges(Colliding(front, key, depth, rewrite), RedactUnknown(last.value, depth + 1, rewrite));
      } else {
        assert Colliding(entries, key, depth, rewrite) == Colliding(front, key, depth, rewrite);
      }
    }
  }

  lemma {:induction false} LastRunLength(vs: seq<Json>)
    ensures |LastRun(vs)| <= |Elements(vs)|
    ensures LastRun(vs) == Elements(vs) <==> |LastRun(vs)| == |Elements(vs)|
    decreases |vs|
  {
    if vs != [] {
      LastRunLength(vs[..|vs| - 1]);
    }
  }

  /** Some array with elements comes before a value that is no array, with nothing but the key in common. */
  predicate Overwritten(vs: seq<Json>) {
    exists i :: 0 <= i < |vs| && !vs[i].Arr? && Elements(vs[..i]) != []
  }

  lemma OverwrittenStep(front: seq<Json>, last: Json)
    ensures Overwritten(front + [last]) <==> Overwritten(front) || (!last.Arr? && Elements(front) != [])
  {
    var vs := front + [last];
    assert forall i :: 0 <= i < |front| ==> front[i] == vs[i] && front[..i] == vs[..i];
    assert vs[..|front|] == front;
    if Overwritten(front) {
      var i :| 0 <= i < |front| && !front[i].Arr? && Elements(front[..i]) != [];
      assert !vs[i].Arr? && Elements(vs[..i]) != [];
    }
    if !last.Arr? && Elements(front) != [] {
      assert !vs[|front|].Arr? && Elements(vs[..|front|]) != [];
    }
  }

  lemma {:induction false} LastRunIsEverything(vs: seq<Json>)
    ensures LastRun(vs) == Elements(vs) <==> !Overwritten(vs)
    decreases |vs|
  {
    LastRunLength(vs);
    if vs != [] {
      var front, last := vs[..|vs| - 1], vs[|vs| - 1];
      LastRunIsEverything(front);
      LastRunLength(front);
      assert vs == front + [last];
      OverwrittenStep(front, last);
      if Elements(front) == [] {
        NothingToOverwrite(front);
      }
    }
  }

  lemma {:induction false} NothingToOverwrite(vs: seq<Json>)
    requires Elements(vs) == []
    ensures !Overwritten(vs)
    decreases |vs|
  {
    if vs != [] {
      NothingToOverwrite(vs[..|vs| - 1]);
      assert vs == vs[..|vs| - 1] + [vs[|vs| - 1]];
      OverwrittenStep(vs[..|vs| - 1], vs[|vs| - 1]);
    }
  }

  function ElementsUnder(v: Option<Json>): seq<Json> {
    if v.Some? && v.value.Arr? then v.value.items else []
  }

  /**
   * No element of colliding arrays is dropped exactly when no array with elements
   * is followed by a value of another kind under the same key; arrays alone, in
   * particular, are joined whole and in order.
   */
  lemma CollisionsKeepElementsExactly(entries: seq<Entry>, key: string, depth: nat, rewrite: Rewriter)
    ensures var vs := Colliding(entries, key, depth, rewrite);
      ElementsUnder(Get(RedactProperties(entries, depth, rewrite), key)) == Elements(vs) <==> !Overwritten(vs)
  {
    CollidingValue(entries, key, depth, rewrite);
    LastRunIsEverything(Colliding(entries, key, depth, rewrite));
  }

  // ----- The plain form: every string rewritten where it stands -----

  function MapStrings(v: Json, rewrite: Rewriter): Json
    decreases v
  {
    match v
    case Str(s) => Str(rewrite(s))
    case Arr(items) => Arr(MapItems(items, rewrite))
    case Obj(entries) => Obj(MapEntries(entries, rewrite))
    case _ => v
  }

  function MapItems(items: seq<Json>, rewrite: Rewriter): (r: seq<Json>)
    ensures |r| == |items|
    decreases items
  {
    if items == [] then [] else MapItems(items[..|items| - 1], rewrite) + [MapStrings(items[|items| - 1], rewrite)]
  }

  function MapEntries(entries: seq<Entry>, rewrite: Rewriter): (r: seq<Entry>)
    ensures |r| == |entries|
    decreases entries
  {
    if entries == [] then []
    else
      var last := entries[|entries| - 1];
      MapEntries(entries[..|entries| - 1], rewrite) + [Entry(rewrite(last.key), MapStrings(last.value, rewrite))]
  }

  /** No two keys of one object, at any depth, redact to the same key. */
  predicate KeysApart(v: Json, rewrite: Rewriter)
    decreases v
  {
    match v
    case Arr(items) => ItemsApart(items, rewrite)
    case Obj(entries) => EntriesApart(entries, rewrite)
    case _ => true
  }

  predicate ItemsApart(items: seq<Json>, rewrite: Rewriter)
    decreases items
  {
    items == [] || (ItemsApart(items[..|items| - 1], rewrite) && KeysApart(items[|items| - 1], rewrite))
  }

  predicate EntriesApart(entries: seq<Entry>, rewrite: Rewriter)
    decreases entries
  {
    entries == [] ||
    var front, last := entries[..|entries| - 1], entries[|entries| - 1];
    && EntriesApart(front, rewrite) && KeysApart(last.value, rewrite)
    && forall e :: e in front ==> rewrite(e.key) != rewrite(last.key)
  }

  /** Nothing but strings lies past the depth bound. */
  predicate WithinBound(v: Json, depth: nat)
    decreases v
  {
    v.Str? ||
    (depth <= 12 &&
     match v
     case Arr(items) => ItemsWithin(items, depth + 1)
     case Obj(entries) => EntriesWithin(entries, depth + 1)
     case _ => true)
  }

  predicate ItemsWithin(items: seq<Json>, depth: nat)
    decreases items
  {
    items == [] || (ItemsWithin(items[..|items| - 1], depth) && WithinBound(items[|items| - 1], depth))
  }

  predicate EntriesWithin(entries: seq<Entry>, depth: nat)
    decreases entries
  {
    entries == [] ||
    (EntriesWithin(entries[..|entries| - 1], depth) && WithinBound(entries[|entries| - 1].value, depth))
  }

  /** The keys of a redacted record are the rewritten keys. */
  lemma {:induction false} RedactedKeys(entries: seq<Entry>, depth: nat, rewrite: Rewriter, key: string)
    requires forall e :: e in entries ==> rewrite(e.key) != key
    ensures forall e :: e in RedactProperties(entries, depth, rewrite) ==> e.key != key
    decreases |entries|
  {
    if entries != [] {
      var front, last := entries[..|entries| - 1], entries[|entries| - 1];
      RedactedKeys(front, depth, rewrite, key);
      var done, k := RedactProperties(front, depth, rewrite), rewrite(last.key);
      PutKeys(done, k, Merge(Get(done, k), RedactUnknown(last.value, depth + 1, rewrite)));
      assert last in entries;
    }
  }

  /** Without collisions each entry is put behind those before it. */
  lemma RedactedInPlace(front: seq<Entry>, last: Entry, depth: nat, rewrite: Rewriter)
    requires forall e :: e in front ==> rewrite(e.key) != rewrite(last.key)
    ensures RedactProperties(front + [last], depth, rewrite)
            == RedactProperties(front, depth, rewrite)
             + [Entry(rewrite(last.key), RedactUnknown(last.value, depth + 1, rewrite))]
  {
    var done, key := RedactProperties(front, depth, rewrite), rewrite(last.key);
    assert (front + [last])[..|front|] == front;
    RedactedKeys(front, depth, rewrite, key);
    GetIsEntry(done, key);
    PutNew(done, key, RedactUnknown(last.value, depth + 1, rewrite));
  }

  /**
   * Where no keys collide the walk is the plain form exactly when nothing but
   * strings lies past the depth bound: shape, keys, order and everything that is
   * no string stay.
   */
  lemma {:induction false} WalkIsPlainExactly(v: Json, depth: nat, rewrite: Rewriter)
    requires KeysApart(v, rewrite)
    ensures RedactUnknown(v, depth, rewrite) == MapStrings(v, rewrite) <==> WithinBound(v, depth)
    decreases v
  {
    if depth <= MAX_REDACTION_DEPTH {
      match v {
        case Arr(items) => ItemsPlainExactly(items, depth + 1, rewrite);
        case Obj(entries) => EntriesPlainExactly(entries, depth, rewrite);
        case _ =>
      }
    }
  }

  lemma {:induction false} ItemsPlainExactly(items: seq<Json>, depth: nat, rewrite: Rewriter)
    requires ItemsApart(items, rewrite)
    ensures RedactItems(items, depth, rewrite) == MapItems(items, rewrite) <==> ItemsWithin(items, depth)
    decreases items
  {
    if items != [] {
      var front, last := items[..|items| - 1], items[|items| - 1];
      ItemsPlainExactly(front, depth, rewrite);
      WalkIsPlainExactly(last, depth, rewrite);
      SameSnoc(RedactItems(front, depth, rewrite), RedactUnknown(last, depth, rewrite),
               MapItems(front, rewrite), MapStrings(last, rewrite));
    }
  }

  lemma SameSnoc<T>(a: seq<T>, x: T, b: seq<T>, y: T)
    requires |a| == |b|
    ensures a + [x] == b + [y] <==> a == b && x == y
  {
    if a + [x] == b + [y] {
      assert a == (a + [x])[..|a|] && b == (b + [y])[..|b|];
      assert x == (a + [x])[|a|] && y == (b + [y])[|b|];
    }
  }

  lemma {:induction false} EntriesPlainExactly(entries: seq<Entry>, depth: nat, rewrite: Rewriter)
    requires EntriesApart(entries, rewrite)
    ensures |RedactProperties(entries, depth, rewrite)| == |entries|
    ensures RedactProperties(entries, depth, rewrite) == MapEntries(entries, rewrite) <==>
      EntriesWithin(entries, depth + 1)
    decreases entries
  {
    if entries != [] {
      var front, last := entries[..|entries| - 1], entries[|entries| - 1];
      EntriesPlainExactly(front, depth, rewrite);
      WalkIsPlainExactly(last.value, depth + 1, rewrite);
      LastEntryPlain(entries, front, last, depth, rewrite);
    }
  }

  lemma LastEntryPlain(entries: seq<Entry>, front: seq<Entry>, last: Entry, depth: nat, rewrite: Rewriter)
    requires entries == front + [last] && |RedactProperties(front, depth, rewrite)| == |front|
    requires forall e :: e in front ==> rewrite(e.key) != rewrite(last.key)
    ensures |RedactProperties(entries, depth, rewrite)| == |entries|
    ensures RedactProperties(entries, depth, rewrite) == MapEntries(entries, rewrite)
       <==> RedactProperties(front, depth, rewrite) == MapEntries(front, rewrite)
            && RedactUnknown(last.value, depth + 1, rewrite) == MapStrings(last.value, rewrite)
  {
    RedactedInPlace(front, last, depth, rewrite);
    assert entries[..|front|] == front;
    SameSnoc(RedactProperties(front, depth, rewrite),
             Entry(rewrite(last.key), RedactUnknown(last.value, depth + 1, rewrite)),
             MapEntries(front, rewrite), Entry(rewrite(last.key), MapStrings(last.value, rewrite)));
  }

  /**
   * Within the depth bound an array stays an array, so nothing a caller put in it can
   * go missing; past it all values are the marker.
   */
  lemma ArraysWithinTheBound(v: Json, depth: nat, rewrite: Rewriter)
    requires v.Arr?
    ensures RedactUnknown(v, depth, rewrite).Arr? <==> depth <= 12
    ensures depth <= 12 ==> |RedactUnknown(v, depth, rewrite).items| == |v.items|
  {
  }

  /** What the colliding values of a key end as, for every key a record then has. */
  predicate HoldsColliding(after: seq<Entry>, entries: seq<Entry>, depth: nat, rewrite: Rewriter, key: string) {
    Get(after, key) == EndedAs(Colliding(entries, key, depth, rewrite))
  }

  /**
   * The walk part by part, colliding keys or not. A string is rewritten however deep
   * it is; past the bound anything else is the marker. Within it every element of an
   * array is walked where it stands, one level down, and an object holds under
   * every key, once, what its colliding values end as.
   */
  lemma WalkByParts(v: Json, depth: nat, rewrite: Rewriter)
    ensures v.Str? ==> RedactUnknown(v, depth, rewrite) == Str(rewrite(v.s))
    ensures !v.Str? && depth > 12 ==> RedactUnknown(v, depth, rewrite) == Str("[redacted]")
    ensures v.Arr? && depth <= 12 ==>
      && RedactUnknown(v, depth, rewrite).Arr? && |RedactUnknown(v, depth, rewrite).items| == |v.items|
      && forall i :: 0 <= i < |v.items| ==>
        RedactUnknown(v, depth, rewrite).items[i] == RedactUnknown(v.items[i], depth + 1, rewrite)
    ensures v.Obj? && depth <= 12 ==>
      && RedactUnknown(v, depth, rewrite).Obj? && DistinctKeys(RedactUnknown(v, depth, rewrite).entries)
      && forall key :: HoldsColliding(RedactUnknown(v, depth, rewrite).entries, v.entries, depth, rewrite, key)
    ensures (v.Null? || v.Bool? || v.Num?) && depth <= 12 ==> RedactUnknown(v, depth, rewrite) == v
  {
    if v.Arr? {
      forall i | 0 <= i < |v.items| {
        ItemAt(v.items, depth + 1, rewrite, i);
      }
    } else if v.Obj? {
      KeysOnce(v.entries, depth, rewrite);
      forall key ensures HoldsColliding(RedactProperties(v.entries, depth, rewrite), v.entries, depth, rewrite, key) {
        CollidingValue(v.entries, key, depth, rewrite);
      }
    }
  }

  lemma {:induction false} KeysOnce(entries: seq<Entry>, depth: nat, rewrite: Rewriter)
    ensures DistinctKeys(RedactProperties(entries, depth, rewrite))
    decreases |entries|
  {
    if entries != [] {
      var front, last := entries[..|entries| - 1], entries[|entries| - 1];
      KeysOnce(front, depth, rewrite);
      var done, key := RedactProperties(front, depth, rewrite), rewrite(last.key);
      PutKeys(done, key, Merge(Get(done, key), RedactUnknown(last.value, depth + 1, rewrite)));
    }
  }

  // ----- Events -----

  const REPLAY_PAYLOAD_KEY: string := "$snapshot_data"

  /** The replay payload is lifted out of the walk and put back as it was. */
  function RedactEventProperties(properties: seq<Entry>, rewrite: Rewriter): seq<Entry> {
    var payload := Get(properties, REPLAY_PAYLOAD_KEY);
    if payload.None? then RedactProperties(properties, 0, rewrite)
    else Put(RedactProperties(Delete(properties, REPLAY_PAYLOAD_KEY), 0, rewrite), REPLAY_PAYLOAD_KEY, payload.value)
  }

  /** The payload is untouched, and every other property of the event is clean. */
  lemma EventIsCleanBesidesPayload(properties: seq<Entry>, rewrite: Rewriter)
    requires Settles(rewrite)
    ensures Get(properties, REPLAY_PAYLOAD_KEY).Some? ==>
      Get(RedactEventProperties(properties, rewrite), REPLAY_PAYLOAD_KEY) == Get(properties, REPLAY_PAYLOAD_KEY)
    ensures forall e ::
      e in RedactEventProperties(properties, rewrite) &&
      (e.key != REPLAY_PAYLOAD_KEY || Get(properties, REPLAY_PAYLOAD_KEY).None?) ==>
      rewrite(e.key) == e.key && Clean(e.value, rewrite)
  {
    var payload := Get(properties, REPLAY_PAYLOAD_KEY);
    if payload.None? {
      PropertiesAreClean(properties, 0, rewrite);
    } else {
      var rest := Delete(properties, REPLAY_PAYLOAD_KEY);
      PropertiesAreClean(rest, 0, rewrite);
      GetPut(RedactProperties(rest, 0, rewrite), REPLAY_PAYLOAD_KEY, payload.value, REPLAY_PAYLOAD_KEY);
      PutKeys(RedactProperties(rest, 0, rewrite), REPLAY_PAYLOAD_KEY, payload.value);
    }
  }

  lemma {:induction false} DeleteAbsent(entries: seq<Entry>, key: string)
    requires Get(entries, key).None?
    ensures Delete(entries, key) == entries
  {
    if entries != [] {
      DeleteAbsent(entries[1..], key);
      assert entries == [entries[0]] + entries[1..];
    }
  }

  /** Whether or not there is a payload, every other key holds what the other properties redact to. */
  lemma EventKeepsOtherProperties(properties: seq<Entry>, rewrite: Rewriter, key: string)
    requires key != "$snapshot_data"
    ensures Get(RedactEventProperties(properties, rewrite), key)
         == EndedAs(Colliding(Delete(properties, "$snapshot_data"), key, 0, rewrite))
  {
    var payload := Get(properties, REPLAY_PAYLOAD_KEY);
    var rest := Delete(properties, REPLAY_PAYLOAD_KEY);
    CollidingValue(rest, key, 0, rewrite);
    if payload.None? {
      DeleteAbsent(properties, REPLAY_PAYLOAD_KEY);
    } else {
      GetPut(RedactProperties(rest, 0, rewrite), REPLAY_PAYLOAD_KEY, payload.value, key);
    }
  }

  /**
   * Where no two keys redact to one, none to the payload's, and nothing but strings
   * lies past the depth bound, the event is its properties in their order with
   * every string rewritten, and the payload, if there is one, as it was.
   */
  lemma PlainEventIsRewritten(properties: seq<Entry>, rewrite: Rewriter)
    requires var rest := Delete(properties, "$snapshot_data");
      && EntriesApart(rest, rewrite) && EntriesWithin(rest, 1)
      && forall e :: e in rest ==> rewrite(e.key) != "$snapshot_data"
    ensures RedactEventProperties(properties, rewrite) ==
            MapEntries(Delete(properties, "$snapshot_data"), rewrite)
            + if Get(properties, "$snapshot_data").None? then []
              else [Entry("$snapshot_data", Get(properties, "$snapshot_data").value)]
  {
    var payload := Get(properties, REPLAY_PAYLOAD_KEY);
    var rest := Delete(properties, REPLAY_PAYLOAD_KEY);
    EntriesPlainExactly(rest, 0, rewrite);
    if payload.None? {
      DeleteAbsent(properties, REPLAY_PAYLOAD_KEY);
      assert MapEntries(rest, rewrite) + [] == MapEntries(rest, rewrite);
    } else {
      PayloadComesLast(rest, payload.value, rewrite);
    }
  }

  lemma PayloadComesLast(rest: seq<Entry>, payload: Json, rewrite: Rewriter)
    requires forall e :: e in rest ==> rewrite(e.key) != REPLAY_PAYLOAD_KEY
    ensures Put(RedactProperties(rest, 0, rewrite), REPLAY_PAYLOAD_KEY, payload)
         == RedactProperties(rest, 0, rewrite) + [Entry(REPLAY_PAYLOAD_KEY, payload)]
  {
    RedactedKeys(rest, 0, rewrite, REPLAY_PAYLOAD_KEY);
    PutNew(RedactProperties(rest, 0, rewrite), REPLAY_PAYLOAD_KEY, payload);
  }

  // ----- With the url redaction -----

  /** `redactIfUrlLike`: the cheap reject of a string without a query. */
  function UrlRewriter(names: set<string>): Rewriter {
    (s: string) => if '?' in s then RedactAnalyticsUrl(s, names) else s
  }

  /** The cheap reject changes nothing. */
  lemma ShortcutIsFullRewrite(s: string, names: set<string>)
    ensures UrlRewriter(names)(s) == RedactAnalyticsUrl(s, names)
  {
    if '?' !in s {
      PrintParsed(s);
    }
  }

  lemma UrlRewriterSettles(names: set<string>)
    ensures Settles(UrlRewriter(names))
  {
    forall s: string ensures UrlRewriter(names)(UrlRewriter(names)(s)) == UrlRewriter(names)(s) {
      ShortcutIsFullRewrite(s, names);
      ShortcutIsFullRewrite(UrlRewriter(names)(s), names);
      RedactIdempotent(s, names);
    }
    assert '?' !in MARKER;
  }

  /** Every string in the value, keys included. */
  function Strings(v: Json): set<string>
    decreases v
  {
    match v
    case Str(s) => {s}
    case Arr(items) => set i, s | 0 <= i < |items| && s in Strings(items[i]) :: s
    case Obj(entries) => StringsIn(entries)
    case _ => {}
  }

  function StringsIn(entries: seq<Entry>): set<string>
    decreases entries
  {
    (set i | 0 <= i < |entries| :: entries[i].key)
      + (set i, s | 0 <= i < |entries| && s in Strings(entries[i].value) :: s)
  }

  lemma {:induction false} CleanStrings(v: Json, rewrite: Rewriter, s: string)
    requires Clean(v, rewrite) && s in Strings(v)
    ensures rewrite(s) == s
    decreases v
  {
    if v.Arr? {
      var i :| 0 <= i < |v.items| && s in Strings(v.items[i]);
      CleanStrings(v.items[i], rewrite, s);
    } else if v.Obj? {
      CleanStringsIn(v.entries, rewrite, s);
    }
  }

  lemma {:induction false} CleanStringsIn(entries: seq<Entry>, rewrite: Rewriter, s: string)
    requires CleanEntries(entries, rewrite) && s in StringsIn(entries)
    ensures rewrite(s) == s
    decreases entries
  {
    if i :| 0 <= i < |entries| && s in Strings(entries[i].value) {
      CleanStrings(entries[i].value, rewrite, s);
    }
  }

  /**
   * After the walk no string, at any depth, is one the url redaction would still
   * change; walking again changes nothing.
   */
  lemma DeepRedactionIsComplete(v: Json, depth: nat, names: set<string>)
    ensures forall s :: s in Strings(RedactUnknown(v, depth, UrlRewriter(names))) ==> RedactAnalyticsUrl(s, names) == s
    ensures RedactUnknown(RedactUnknown(v, depth, UrlRewriter(names)), depth, UrlRewriter(names))
      == RedactUnknown(v, depth, UrlRewriter(names))
  {
    UrlRewriterSettles(names);
    RedactedIsClean(v, depth, UrlRewriter(names));
    RedactedIsFixed(v, depth, UrlRewriter(names));
    forall s | s in Strings(RedactUnknown(v, depth, UrlRewriter(names))) ensures RedactAnalyticsUrl(s, names) == s {
      CleanStrings(RedactUnknown(v, depth, UrlRewriter(names)), UrlRewriter(names), s);
      ShortcutIsFullRewrite(s, names);
    }
  }
}
