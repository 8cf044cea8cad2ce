/** JSON values; an object's entries are in its own enumeration order. */
module Json {
  import opened Optional

  datatype Json =
    | Null
    | Bool(b: bool)
    | Num(value: real)
    | Str(s: string)
    | Arr(items: seq<Json>)
    | Obj(entries: seq<Entry>)

  datatype Entry = Entry(key: string, value: Json)

  /** The value under a key, as property access reads it. */
  function Get(entries: seq<Entry>, key: string): Option<Json> {
    if entries == [] then None
    else if entries[0].key == key then Some(entries[0].value)
    else Get(entries[1..], key)
  }

  /** Writes a key: in its place if it is there, else at the end. */
  function Put(entries: seq<Entry>, key: string, value: Json): seq<Entry> {
    if entries == [] then [Entry(key, value)]
    else if entries[0].key == key then [Entry(key, value)] + entries[1..]
    else [entries[0]] + Put(entries[1..], key, value)
  }

  /** `delete`: the entry goes, the others stay as they are. */
  function Delete(entries: seq<Entry>, key: string): seq<Entry> {
    if entries == [] then []
    else (if entries[0].key == key then [] else [entries[0]]) + Delete(entries[1..], key)
  }

  lemma {:induction false} GetPut(entries: seq<Entry>, key: string, value: Json, other: string)
    ensures Get(Put(entries, key, value), other) == if other == key then Some(value) else Get(entries, other)
  {
    if entries != [] && entries[0].key != key {
      GetPut(entries[1..], key, value, other);
      assert Put(entries, key, value)[1..] == Put(entries[1..], key, value);
    }
  }

  lemma {:induction false} GetDelete(entries: seq<Entry>, key: string, other: string)
    ensures Get(Delete(entries, key), other) == if other == key then None else Get(entries, other)
  {
    if entries != [] {
      GetDelete(entries[1..], key, other);
      if entries[0].key != key {
        assert Delete(entries, key)[1..] == Delete(entries[1..], key);
      } else {
        assert [] + Delete(entries[1..], key) == Delete(entries[1..], key);
      }
    }
  }

  lemma {:induction false} GetIsEntry(entries: seq<Entry>, key: string)
    ensures Get(entries, key).Some? ==> Entry(key, Get(entries, key).value) in entries
    ensures Get(entries, key).None? <==> forall e :: e in entries ==> e.key != key
  {
    if entries != [] {
      GetIsEntry(entries[1..], key);
      assert forall e :: e in entries <==> e == entries[0] || e in entries[1..];
    }
  }

  lemma {:induction false} PutNew(entries: seq<Entry>, key: string, value: Json)
    requires forall e :: e in entries ==> e.key != key
    ensures Put(entries, key, value) == entries + [Entry(key, value)]
  {
    if entries != [] {
      PutNew(entries[1..], key, value);
      assert entries[0] in entries;
      assert [entries[0]] + (entries[1..] + [Entry(key, value)]) == entries + [Entry(key, value)];
    }
  }

  lemma {:induction false} PutSame(entries: seq<Entry>, key: string, value: Json)
    requires Get(entries, key) == Some(value)
    ensures Put(entries, key, value) == entries
  {
    if entries[0].key != key {
      PutSame(entries[1..], key, value);
    }
  }

  /** Writing a key that is there changes that entry's value and nothing else. */
  lemma {:induction false} PutAt(entries: seq<Entry>, key: string, value: Json) returns (j: nat)
    requires Get(entries, key).Some?
    ensures j < |entries| && entries[j] == Entry(key, Get(entries, key).value)
    ensures Put(entries, key, value) == entries[j := Entry(key, value)]
  {
    if entries[0].key == key {
      j := 0;
    } else {
      j := PutAt(entries[1..], key, value);
      j := j + 1;
      assert [entries[0]] + entries[1..][j - 1 := Entry(key, value)] == entries[j := Entry(key, value)];
    }
  }

  /** No key occurs twice. */
  predicate DistinctKeys(entries: seq<Entry>) {
    entries == [] || ((forall e :: e in entries[1..] ==> e.key != entries[0].key) && DistinctKeys(entries[1..]))
  }

  lemma {:induction false} PutKeys(entries: seq<Entry>, key: string, value: Json)
    ensures forall e :: e in Put(entries, key, value) ==> e == Entry(key, value) || e in entries
    ensures DistinctKeys(entries) ==> DistinctKeys(Put(entries, key, value))
  {
    if entries != [] && entries[0].key != key {
      PutKeys(entries[1..], key, value);
      assert Put(entries, key, value)[1..] == Put(entries[1..], key, value);
    } else if entries != [] {
      assert Put(entries, key, value)[1..] == entries[1..];
    }
  }

  lemma {:induction false} DistinctFront(entries: seq<Entry>)
    requires DistinctKeys(entries) && entries != []
    ensures DistinctKeys(entries[..|entries| - 1])
    ensures forall e :: e in entries[..|entries| - 1] ==> e.key != entries[|entries| - 1].key
  {
    if |entries| > 1 {
      var front := entries[..|entries| - 1];
      DistinctFront(entries[1..]);
      assert front[1..] == entries[1..][..|entries| - 2];
      assert entries[|entries| - 1] in entries[1..];
      assert forall e :: e in front <==> e == entries[0] || e in front[1..];
      assert forall e :: e in front[1..] ==> e in entries[1..];
    }
  }
}
