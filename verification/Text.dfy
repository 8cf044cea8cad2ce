/** Splitting and joining on a separator, prefixes, and the lexicographic order. */
module Text {
  import opened Optional

  function Split<T(==)>(s: seq<T>, sep: T): (parts: seq<seq<T>>)
    ensures |parts| >= 1
  {
    if s == [] then [[]]
    else
      var rest := Split(s[1..], sep);
      if s[0] == sep then [[]] + rest else [[s[0]] + rest[0]] + rest[1..]
  }

  function Join<T>(parts: seq<seq<T>>, sep: T): seq<T> {
    if parts == [] then []
    else if |parts| == 1 then parts[0]
    else parts[0] + [sep] + Join(parts[1..], sep)
  }

  lemma {:induction false} JoinSplit<T>(s: seq<T>, sep: T)
    ensures Join(Split(s, sep), sep) == s
  {
    if s != [] {
      JoinSplit(s[1..], sep);
      var rest := Split(s[1..], sep);
      if s[0] == sep {
        assert ([[]] + rest)[1..] == rest;
      } else {
        var parts := [[s[0]] + rest[0]] + rest[1..];
        assert parts[1..] == rest[1..];
        assert Join(parts, sep) == [s[0]] + Join(rest, sep);
      }
    }
  }

  lemma {:induction false} SplitParts<T>(s: seq<T>, sep: T)
    ensures forall part :: part in Split(s, sep) ==> sep !in part
  {
    if s != [] {
      SplitParts(s[1..], sep);
    }
  }

  lemma {:induction false} PartsKeepOut<T>(s: seq<T>, sep: T, c: T)
    requires c !in s
    ensures forall part :: part in Split(s, sep) ==> c !in part
  {
    if s != [] {
      PartsKeepOut(s[1..], sep, c);
    }
  }

  lemma {:induction false} JoinKeepsOut<T>(parts: seq<seq<T>>, sep: T, c: T)
    requires c != sep && forall part :: part in parts ==> c !in part
    ensures c !in Join(parts, sep)
  {
    if |parts| > 1 {
      JoinKeepsOut(parts[1..], sep, c);
    }
  }

  lemma {:induction false} SplitOne<T>(s: seq<T>, sep: T)
    requires sep !in s
    ensures Split(s, sep) == [s]
  {
    if s != [] {
      SplitOne(s[1..], sep);
      assert [s[0]] + s[1..] == s;
    }
  }

  lemma {:induction false} SplitFirst<T>(part: seq<T>, rest: seq<T>, sep: T)
    requires sep !in part
    ensures Split(part + [sep] + rest, sep) == [part] + Split(rest, sep)
  {
    if part == [] {
      assert ([] + [sep] + rest)[1..] == rest;
    } else {
      assert (part + [sep] + rest)[1..] == part[1..] + [sep] + rest;
      SplitFirst(part[1..], rest, sep);
      var tail := Split(part[1..] + [sep] + rest, sep);
      assert tail[0] == part[1..] && tail[1..] == Split(rest, sep);
      assert [part[0]] + part[1..] == part;
    }
  }

  lemma {:induction false} SplitJoin<T>(parts: seq<seq<T>>, sep: T)
    requires parts != [] && forall part :: part in parts ==> sep !in part
    ensures Split(Join(parts, sep), sep) == parts
  {
    if |parts| == 1 {
      SplitOne(parts[0], sep);
    } else {
      SplitJoin(parts[1..], sep);
      SplitFirst(parts[0], Join(parts[1..], sep), sep);
    }
  }

  /** `parts.join(sep + " ")` */
  function JoinSpaced(parts: seq<string>, sep: char): string {
    if parts == [] then ""
    else if |parts| == 1 then parts[0]
    else parts[0] + [sep] + (" " + JoinSpaced(parts[1..], sep))
  }

  function Indented(parts: seq<string>): (r: seq<string>)
    ensures |r| == |parts| && forall i :: 0 <= i < |parts| ==> r[i] == " " + parts[i]
  {
    if parts == [] then [] else [" " + parts[0]] + Indented(parts[1..])
  }

  /** Splitting on the separator alone leaves the space in front of every part but the first. */
  lemma {:induction false} SplitJoinSpaced(parts: seq<string>, sep: char)
    requires sep != ' ' && parts != [] && forall part :: part in parts ==> sep !in part
    ensures Split(JoinSpaced(parts, sep), sep) == [parts[0]] + Indented(parts[1..])
  {
    if |parts| == 1 {
      SplitOne(parts[0], sep);
    } else {
      var rest := JoinSpaced(parts[1..], sep);
      SplitJoinSpaced(parts[1..], sep);
      SplitFirst(parts[0], " " + rest, sep);
      assert (" " + rest)[1..] == rest;
      assert Split(" " + rest, sep) == [" " + parts[1..][0]] + Indented(parts[2..]);
      assert parts[1..][1..] == parts[2..];
    }
  }

  /** The part before the first separator, and the part after it if there is one. */
  function Cut<T(==)>(s: seq<T>, sep: T): (r: (seq<T>, Option<seq<T>>))
    ensures sep !in r.0
    ensures r.1.None? ==> r.0 == s
    ensures r.1.Some? ==> s == r.0 + [sep] + r.1.value
    ensures r.1.Some? <==> sep in s
  {
    if s == [] then ([], None)
    else if s[0] == sep then ([], Some(s[1..]))
    else
      var r := Cut(s[1..], sep);
      ([s[0]] + r.0, r.1)
  }

  lemma {:induction false} CutAt<T>(a: seq<T>, b: seq<T>, sep: T)
    requires sep !in a
    ensures Cut(a + [sep] + b, sep) == (a, Some(b))
  {
    if a == [] {
      assert ([] + [sep] + b)[1..] == b;
    } else {
      assert (a + [sep] + b)[1..] == a[1..] + [sep] + b;
      CutAt(a[1..], b, sep);
      assert [a[0]] + a[1..] == a;
    }
  }

  lemma CutBack<T>(s: seq<T>, sep: T)
    ensures var (before, after) := Cut(s, sep);
      s == before + if after.None? then [] else [sep] + after.value
  {
    var (before, after) := Cut(s, sep);
    assert after.Some? ==> before + [sep] + after.value == before + ([sep] + after.value);
  }

  lemma CutNone<T>(s: seq<T>, sep: T)
    requires sep !in s
    ensures Cut(s, sep) == (s, None)
  {
  }

  predicate StartsWith<T(==)>(s: seq<T>, prefix: seq<T>) {
    prefix <= s
  }

  /** The value of a hexadecimal digit's code. */
  function HexValue(n: int): (r: Option<nat>)
    ensures r.Some? ==> r.value < 16
  {
    if 0x30 <= n <= 0x39 then Some(n - 0x30)
    else if 0x41 <= n <= 0x46 then Some(n - 0x41 + 10)
    else if 0x61 <= n <= 0x66 then Some(n - 0x61 + 10)
    else None
  }

  // ----- Order -----

  predicate Less(a: seq<int>, b: seq<int>) {
    b != [] && (a == [] || a[0] < b[0] || (a[0] == b[0] && Less(a[1..], b[1..])))
  }

  lemma {:induction false} LessTotal(a: seq<int>, b: seq<int>)
    ensures a == b || Less(a, b) || Less(b, a)
    ensures !(Less(a, b) && Less(b, a)) && !Less(a, a)
  {
    if a != [] && b != [] {
      LessTotal(a[1..], b[1..]);
      assert a == [a[0]] + a[1..] && b == [b[0]] + b[1..];
      LessTotal(a[1..], a[1..]);
    } else if a != [] {
      LessTotal(a[1..], a[1..]);
    }
  }

  lemma {:induction false} LessTransitive(a: seq<int>, b: seq<int>, c: seq<int>)
    requires Less(a, b) && Less(b, c)
    ensures Less(a, c)
  {
    if a != [] && a[0] == b[0] && b[0] == c[0] {
      LessTransitive(a[1..], b[1..], c[1..]);
    }
  }

  lemma {:induction false} LessSamePrefix(p: seq<int>, a: seq<int>, b: seq<int>)
    ensures Less(p + a, p + b) <==> Less(a, b)
  {
    if p == [] {
      assert p + a == a && p + b == b;
    } else {
      assert (p + a)[1..] == p[1..] + a && (p + b)[1..] == p[1..] + b;
      LessSamePrefix(p[1..], a, b);
    }
  }
}
