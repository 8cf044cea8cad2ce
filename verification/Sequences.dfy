/** Facts about finite sequences that several models share. */
module Sequences {

  /** No element occurs a second time. */
  predicate Distinct<T(==)>(s: seq<T>) {
    s == [] || (s[0] !in s[1..] && Distinct(s[1..]))
  }

  lemma {:induction false} DistinctAppend<T>(s: seq<T>, x: T)
    ensures Distinct(s + [x]) <==> Distinct(s) && x !in s
  {
    if s != [] {
      assert (s + [x])[1..] == s[1..] + [x];
      DistinctAppend(s[1..], x);
    }
  }

  lemma {:induction false} DistinctAt<T>(s: seq<T>, i: nat, j: nat)
    requires Distinct(s) && i < j < |s|
    ensures s[i] != s[j]
  {
    if i == 0 {
      assert s[1..][j - 1] == s[j];
    } else {
      DistinctAt(s[1..], i - 1, j - 1);
    }
  }

  lemma {:induction false} DistinctConcat<T>(a: seq<T>, b: seq<T>)
    ensures Distinct(a + b) <==> Distinct(a) && Distinct(b) && forall x :: x in a ==> x !in b
  {
    if a == [] {
      assert a + b == b;
    } else {
      assert (a + b)[1..] == a[1..] + b;
      DistinctConcat(a[1..], b);
      assert forall x :: x in a <==> x == a[0] || x in a[1..];
    }
  }

  /** The elements of `s` that are not in `gone`, in their order. */
  function Without<T(==)>(s: seq<T>, gone: seq<T>): seq<T> {
    if s == [] then []
    else if s[0] in gone then Without(s[1..], gone)
    else [s[0]] + Without(s[1..], gone)
  }

  lemma {:induction false} WithoutAppend<T>(s: seq<T>, x: T, gone: seq<T>)
    ensures Without(s + [x], gone) == Without(s, gone) + if x in gone then [] else [x]
  {
    if s == [] {
      assert (s + [x])[1..] == [];
    } else {
      assert (s + [x])[1..] == s[1..] + [x];
      WithoutAppend(s[1..], x, gone);
    }
  }

  lemma {:induction false} WithoutMembers<T>(s: seq<T>, gone: seq<T>, x: T)
    ensures x in Without(s, gone) <==> x in s && x !in gone
  {
    if s != [] {
      WithoutMembers(s[1..], gone, x);
    }
  }

  lemma {:induction false} WithoutNothing<T>(s: seq<T>, gone: seq<T>)
    requires forall x :: x in s ==> x !in gone
    ensures Without(s, gone) == s
  {
    if s != [] {
      WithoutNothing(s[1..], gone);
    }
  }

  /** Dropping one more element is dropping it from what was left. */
  lemma {:induction false} WithoutOneMore<T>(s: seq<T>, gone: seq<T>, x: T)
    ensures Without(s, gone + [x]) == Without(Without(s, gone), [x])
  {
    if s != [] {
      WithoutOneMore(s[1..], gone, x);
      if s[0] !in gone {
        var w := Without(s[1..], gone);
        assert ([s[0]] + w)[1..] == w;
      }
    }
  }

  lemma {:induction false} WithoutConcat<T>(a: seq<T>, b: seq<T>, gone: seq<T>)
    ensures Without(a + b, gone) == Without(a, gone) + Without(b, gone)
  {
    if a == [] {
      assert a + b == b;
    } else {
      assert (a + b)[1..] == a[1..] + b;
      WithoutConcat(a[1..], b, gone);
    }
  }

  lemma {:induction false} WithoutDistinct<T>(s: seq<T>, gone: seq<T>)
    requires Distinct(s)
    ensures Distinct(Without(s, gone))
  {
    if s != [] {
      WithoutDistinct(s[1..], gone);
      WithoutMembers(s[1..], gone, s[0]);
    }
  }

  lemma InFirstPart<T>(a: seq<T>, b: seq<T>, i: nat)
    requires i < |a + b| && (a + b)[i] !in b
    ensures i < |a|
  {
  }

  /** What is kept keeps its order. */
  lemma {:induction false} WithoutOrder<T>(s: seq<T>, gone: seq<T>, i: nat, j: nat) returns (a: nat, b: nat)
    requires i < j < |s| && s[i] !in gone && s[j] !in gone
    ensures a < b < |Without(s, gone)| && Without(s, gone)[a] == s[i] && Without(s, gone)[b] == s[j]
  {
    var rest := Without(s[1..], gone);
    if i == 0 {
      WithoutMembers(s[1..], gone, s[j]);
      assert s[j] == s[1..][j - 1];
      a, b := 0, 0;
      var k :| 0 <= k < |rest| && rest[k] == s[j];
      b := k + 1;
    } else {
      a, b := WithoutOrder(s[1..], gone, i - 1, j - 1);
      if s[0] !in gone {
        a, b := a + 1, b + 1;
      }
    }
  }

  /** Taking out the single occurrence at `i` is dropping its value. */
  lemma {:induction false} SpliceIsWithout<T>(s: seq<T>, i: nat)
    requires i < |s| && Distinct(s)
    ensures Without(s, [s[i]]) == s[..i] + s[i + 1..]
  {
    if i == 0 {
      WithoutNothing(s[1..], [s[0]]);
      assert s[..0] + s[1..] == s[1..];
    } else {
      DistinctAt(s, 0, i);
      SpliceIsWithout(s[1..], i - 1);
      assert s[1..][i - 1] == s[i];
      assert [s[0]] + (s[1..][..i - 1] + s[1..][i..]) == s[..i] + s[i + 1..];
    }
  }

  /** A finite set that maps one-to-one into another is no larger. */
  lemma {:induction false} OneToOneIsNoLarger<A, C>(from: set<A>, to: set<C>, f: map<A, C>)
    requires from <= f.Keys && forall a :: a in from ==> f[a] in to
    requires forall a, b :: a in from && b in from && f[a] == f[b] ==> a == b
    ensures |from| <= |to|
  {
    if from != {} {
      var a :| a in from;
      OneToOneIsNoLarger(from - {a}, to - {f[a]}, f);
    }
  }
}
