/** Filtering, regrouping and flattening sequences, and what that does to their multisets. */
module Seqs {

  ghost predicate NoDuplicates<T>(s: seq<T>) {
    forall i, j :: 0 <= i < j < |s| ==> s[i] != s[j]
  }

  lemma {:induction false} PrefixGrows<T>(s: seq<T>, i: nat)
    requires i < |s|
    ensures s[..i + 1] == s[..i] + [s[i]]
  {
  }

  lemma {:induction false} Regrouped<T>(a: seq<T>, b: seq<T>, c: seq<T>)
    ensures a + (b + c) == (a + b) + c
  {
  }

  lemma {:induction false} WholePrefix<T>(s: seq<T>)
    ensures s[..|s|] == s
  {
  }

  lemma {:induction false} HasMember<T>(s: seq<T>)
    ensures s != [] ==> exists x :: x in s
  {
    if s != [] {
      assert s[0] in s;
    }
  }

  function Filter<T>(s: seq<T>, p: T -> bool): (r: seq<T>)
    ensures forall x :: x in r ==> x in s && p(x)
    ensures forall x :: x in s && p(x) ==> x in r
  {
    if s == [] then []
    else if p(s[0]) then [s[0]] + Filter(s[1..], p)
    else Filter(s[1..], p)
  }

  lemma {:induction false} FilterOne<T>(x: T, p: T -> bool)
    ensures Filter([x], p) == if p(x) then [x] else []
  {
    assert [x][1..] == [];
    assert Filter([x][1..], p) == [];
  }

  lemma {:induction false} FilterAppend<T>(s: seq<T>, t: seq<T>, p: T -> bool)
    ensures Filter(s + t, p) == Filter(s, p) + Filter(t, p)
  {
    if s == [] {
      assert s + t == t;
    } else {
      assert (s + t)[1..] == s[1..] + t;
      FilterAppend(s[1..], t, p);
    }
  }

  lemma {:induction false} FilterCount<T>(s: seq<T>, p: T -> bool, x: T)
    ensures multiset(Filter(s, p))[x] == if p(x) then multiset(s)[x] else 0
  {
    if s != [] {
      assert s == [s[0]] + s[1..];
      FilterCount(s[1..], p, x);
    }
  }

  lemma {:induction false} FilterPermuted<T(!new)>(s: seq<T>, t: seq<T>, p: T -> bool)
    requires multiset(s) == multiset(t)
    ensures multiset(Filter(s, p)) == multiset(Filter(t, p))
  {
    var a, b := multiset(Filter(s, p)), multiset(Filter(t, p));
    forall x ensures a[x] == b[x] {
      FilterCount(s, p, x);
      FilterCount(t, p, x);
    }
    assert a == b;
  }

  function Map<T, U>(s: seq<T>, f: T -> U): (r: seq<U>)
    ensures |r| == |s| && forall i :: 0 <= i < |s| ==> r[i] == f(s[i])
  {
    if s == [] then [] else [f(s[0])] + Map(s[1..], f)
  }

  lemma {:induction false} MapMember<T, U>(s: seq<T>, f: T -> U, x: T)
    requires x in s
    ensures f(x) in Map(s, f)
  {
    var i :| 0 <= i < |s| && s[i] == x;
    assert Map(s, f)[i] == f(x);
  }

  lemma {:induction false} MapSeparates<T, U>(s: seq<T>, f: T -> U, x: T, y: T)
    requires NoDuplicates(Map(s, f)) && x in s && y in s && f(x) == f(y)
    ensures x == y
  {
    var i :| 0 <= i < |s| && s[i] == x;
    var j :| 0 <= j < |s| && s[j] == y;
    assert Map(s, f)[i] == Map(s, f)[j];
  }

  function FlatMap<T, U>(s: seq<T>, f: T -> seq<U>): seq<U> {
    if s == [] then [] else f(s[0]) + FlatMap(s[1..], f)
  }

  lemma {:induction false} FlatMapOne<T, U>(x: T, f: T -> seq<U>)
    ensures FlatMap([x], f) == f(x)
  {
    assert [x][1..] == [];
    assert f(x) + [] == f(x);
  }

  lemma {:induction false} FlatMapAppend<T, U>(s: seq<T>, t: seq<T>, f: T -> seq<U>)
    ensures FlatMap(s + t, f) == FlatMap(s, f) + FlatMap(t, f)
  {
    if s == [] {
      assert s + t == t;
    } else {
      assert (s + t)[1..] == s[1..] + t;
      FlatMapAppend(s[1..], t, f);
    }
  }

  lemma {:induction false} FlatMapMembers<T, U>(s: seq<T>, f: T -> seq<U>)
    ensures forall y :: y in FlatMap(s, f) <==> exists x :: x in s && y in f(x)
  {
    if s != [] {
      FlatMapMembers(s[1..], f);
      forall y ensures y in FlatMap(s, f) <==> exists x :: x in s && y in f(x) {
        if x :| x in s && y in f(x) {
          assert x == s[0] || x in s[1..];
        }
      }
    }
  }

  /** Taking one element out of the middle. */
  lemma {:induction false} TakeOut<T>(t: seq<T>, x: T) returns (j: nat)
    requires x in t
    ensures j < |t| && t[j] == x
    ensures multiset(t[..j] + t[j + 1..]) == multiset(t) - multiset{x}
  {
    j :| 0 <= j < |t| && t[j] == x;
    assert t == t[..j] + [x] + t[j + 1..];
  }

  lemma {:induction false} FlatMapTakeOut<T, U>(t: seq<T>, j: nat, f: T -> seq<U>)
    requires j < |t|
    ensures multiset(FlatMap(t, f)) == multiset(f(t[j])) + multiset(FlatMap(t[..j] + t[j + 1..], f))
  {
    FlatMapAppend(t[..j], t[j + 1..], f);
    FlatMapAppend(t[..j], t[j..], f);
    assert t == t[..j] + t[j..];
    assert t[j..][1..] == t[j + 1..];
    assert FlatMap(t[j..], f) == f(t[j]) + FlatMap(t[j + 1..], f);
  }

  lemma {:induction false} FlatMapPermuted<T, U>(s: seq<T>, t: seq<T>, f: T -> seq<U>)
    requires multiset(s) == multiset(t)
    ensures multiset(FlatMap(s, f)) == multiset(FlatMap(t, f))
    decreases |s|
  {
    if s == [] {
      assert |multiset(s)| == |multiset(t)|;
    } else {
      assert s[0] in multiset(s);
      var j := TakeOut(t, s[0]);
      assert s == [s[0]] + s[1..];
      FlatMapPermuted(s[1..], t[..j] + t[j + 1..], f);
      FlatMapTakeOut(t, j, f);
    }
  }

  lemma {:induction false} FilterKeptApart<T, U>(s: seq<T>, p: T -> bool, f: T -> U)
    requires NoDuplicates(Map(s, f))
    ensures NoDuplicates(Map(Filter(s, p), f))
  {
    if s != [] {
      var us := Map(s, f);
      assert Map(s[1..], f) == us[1..];
      FilterKeptApart(s[1..], p, f);
      var rest := Filter(s[1..], p);
      forall i | 0 <= i < |rest| ensures Map(rest, f)[i] != us[0] {
        assert rest[i] in s[1..];
        var j :| 0 < j < |s| && s[j] == rest[i];
        assert us[j] != us[0];
      }
    }
  }

  lemma {:induction false} WithKeyKeptApart<T, K, U>(s: seq<T>, key: T -> K, k: K, f: T -> U)
    requires NoDuplicates(Map(s, f))
    ensures NoDuplicates(Map(WithKey(s, key, k), f))
  {
    FilterKeptApart(s, x => key(x) == k, f);
  }

  /** The elements with key `k`, in order. */
  function WithKey<T, K(==)>(s: seq<T>, key: T -> K, k: K): (r: seq<T>)
    ensures forall x :: x in r ==> x in s && key(x) == k
    ensures forall x :: x in s && key(x) == k ==> x in r
  {
    Filter(s, x => key(x) == k)
  }

  lemma {:induction false} WithKeyCount<T, K>(s: seq<T>, key: T -> K, k: K, x: T)
    ensures multiset(WithKey(s, key, k))[x] == if key(x) == k then multiset(s)[x] else 0
  {
    FilterCount(s, y => key(y) == k, x);
  }

  lemma {:induction false} WithKeyPermuted<T(!new), K>(s: seq<T>, t: seq<T>, key: T -> K, k: K)
    requires multiset(s) == multiset(t)
    ensures multiset(WithKey(s, key, k)) == multiset(WithKey(t, key, k))
  {
    FilterPermuted(s, t, x => key(x) == k);
  }

  lemma {:induction false} WithKeyAppend<T, K>(s: seq<T>, t: seq<T>, key: T -> K, k: K)
    ensures WithKey(s + t, key, k) == WithKey(s, key, k) + WithKey(t, key, k)
  {
    FilterAppend(s, t, x => key(x) == k);
  }

  lemma {:induction false} WithKeyOne<T, K>(x: T, key: T -> K, k: K)
    ensures WithKey([x], key, k) == if key(x) == k then [x] else []
  {
    FilterOne(x, y => key(y) == k);
  }

  function Regroup<T, K(==)>(s: seq<T>, key: T -> K, ks: seq<K>): seq<T> {
    if ks == [] then [] else WithKey(s, key, ks[0]) + Regroup(s, key, ks[1..])
  }

  lemma {:induction false} RegroupCount<T, K>(s: seq<T>, key: T -> K, ks: seq<K>, x: T)
    requires NoDuplicates(ks)
    ensures multiset(Regroup(s, key, ks))[x] == if key(x) in ks then multiset(s)[x] else 0
  {
    if ks != [] {
      assert ks == [ks[0]] + ks[1..];
      FilterCount(s, (y: T) => key(y) == ks[0], x);
      RegroupCount(s, key, ks[1..], x);
    }
  }

  /** Grouping by key loses nothing and invents nothing. */
  lemma {:induction false} RegroupConserves<T(!new), K>(s: seq<T>, key: T -> K, ks: seq<K>)
    requires NoDuplicates(ks) && forall x :: x in s ==> key(x) in ks
    ensures multiset(Regroup(s, key, ks)) == multiset(s)
  {
    var a, b := multiset(Regroup(s, key, ks)), multiset(s);
    forall x ensures a[x] == b[x] {
      RegroupCount(s, key, ks, x);
      assert x in s <==> x in b;
    }
    assert a == b;
  }

  /** Ranging over a map or set: every element once, in an order nobody chooses. */
  method InAnyOrder<T(==)>(elements: set<T>) returns (s: seq<T>)
    ensures NoDuplicates(s) && forall x :: x in s <==> x in elements
  {
    s := [];
    var rest := elements;
    while rest != {}
      invariant NoDuplicates(s) && rest <= elements
      invariant forall x :: x in s <==> x in elements && x !in rest
    {
      var x :| x in rest;
      s, rest := s + [x], rest - {x};
    }
  }

  ghost predicate Pairwise<T>(s: seq<T>, r: (T, T) -> bool) {
    forall i, j :: 0 <= i < j < |s| ==> r(s[i], s[j])
  }

  /** What holds of every two elements does not depend on their order, for a symmetric relation. */
  lemma {:induction false} PairwisePermuted<T>(s: seq<T>, t: seq<T>, r: (T, T) -> bool)
    requires multiset(s) == multiset(t) && Pairwise(s, r)
    requires forall x, y :: x in s && y in s && r(x, y) ==> r(y, x)
    ensures Pairwise(t, r)
    decreases |s|
  {
    if s == [] {
      assert |multiset(s)| == |multiset(t)|;
    } else {
      assert s[0] in multiset(s);
      var j := TakeOut(t, s[0]);
      var rest := t[..j] + t[j + 1..];
      assert s == [s[0]] + s[1..];
      PairwiseTail(s, rest, r);
      PairwisePermuted(s[1..], rest, r);
      PairwiseWithOne(t, j, r);
    }
  }

  lemma {:induction false} PairwiseTail<T>(s: seq<T>, rest: seq<T>, r: (T, T) -> bool)
    requires s != [] && multiset(s[1..]) == multiset(rest) && Pairwise(s, r)
    requires forall x, y :: x in s && y in s && r(x, y) ==> r(y, x)
    ensures Pairwise(s[1..], r)
    ensures forall x :: x in rest ==> r(s[0], x) && r(x, s[0])
  {
    forall i, j | 0 <= i < j < |s[1..]| ensures r(s[1..][i], s[1..][j]) {
      assert r(s[i + 1], s[j + 1]);
    }
    forall x | x in rest ensures r(s[0], x) && r(x, s[0]) {
      assert x in multiset(rest) && x in multiset(s[1..]);
      var i :| 0 <= i < |s[1..]| && s[1..][i] == x;
      assert r(s[0], s[i + 1]) && s[0] in s && s[i + 1] in s;
    }
  }

  lemma {:induction false} PairwiseWithOne<T>(t: seq<T>, j: nat, r: (T, T) -> bool)
    requires j < |t| && Pairwise(t[..j] + t[j + 1..], r)
    requires forall x :: x in t[..j] + t[j + 1..] ==> r(t[j], x) && r(x, t[j])
    ensures Pairwise(t, r)
  {
    var rest := t[..j] + t[j + 1..];
    forall i, k | 0 <= i < k < |t| ensures r(t[i], t[k]) {
      var i', k' := if i < j then i else i - 1, if k < j then k else k - 1;
      assert i != j ==> rest[i'] == t[i] && t[i] in rest;
      assert k != j ==> rest[k'] == t[k] && t[k] in rest;
    }
  }

  /** Two listings that pair equal keys with equal values are permutations of each other. */
  lemma {:induction false} PairedPermuted<K, T>(ks: seq<K>, a: seq<T>, ls: seq<K>, b: seq<T>)
    requires |ks| == |a| && |ls| == |b| && NoDuplicates(ks) && NoDuplicates(ls)
    requires forall k :: k in ks <==> k in ls
    requires Paired(ks, a, ls, b)
    ensures multiset(a) == multiset(b)
    decreases |ks|
  {
    if ks == [] {
      HasMember(ls);
      assert forall k :: k in ls ==> k in ks;
    } else {
      var j := TakeOut(ls, ks[0]);
      var ls', b' := ls[..j] + ls[j + 1..], b[..j] + b[j + 1..];
      WithoutFirst(ks, ls, j);
      PairedRest(ks, a, ls, b, j);
      PairedPermuted(ks[1..], a[1..], ls', b');
      PutBack(a, b, j);
    }
  }

  lemma {:induction false} PutBack<T>(a: seq<T>, b: seq<T>, j: nat)
    requires a != [] && j < |b| && a[0] == b[j] && multiset(a[1..]) == multiset(b[..j] + b[j + 1..])
    ensures multiset(a) == multiset(b)
  {
    assert a == [a[0]] + a[1..];
    assert b == b[..j] + [b[j]] + b[j + 1..];
  }

  /** Equal keys stand at equal values. */
  ghost predicate Paired<K, T>(ks: seq<K>, a: seq<T>, ls: seq<K>, b: seq<T>)
    requires |ks| == |a| && |ls| == |b|
  {
    forall i, j | 0 <= i < |ks| && 0 <= j < |ls| && ks[i] == ls[j] :: a[i] == b[j]
  }

  lemma {:induction false} PairedRest<K, T>(ks: seq<K>, a: seq<T>, ls: seq<K>, b: seq<T>, j: nat)
    requires |ks| == |a| && |ls| == |b| && ks != [] && j < |ls|
    requires Paired(ks, a, ls, b)
    ensures Paired(ks[1..], a[1..], ls[..j] + ls[j + 1..], b[..j] + b[j + 1..])
  {
    var ls', b' := ls[..j] + ls[j + 1..], b[..j] + b[j + 1..];
    assert forall i :: 0 <= i < |ls'| ==> ls'[i] == ls[if i < j then i else i + 1];
    assert forall i :: 0 <= i < |b'| ==> b'[i] == b[if i < j then i else i + 1];
  }

  lemma {:induction false} WithoutFirst<K>(ks: seq<K>, ls: seq<K>, j: nat)
    requires NoDuplicates(ks) && NoDuplicates(ls) && ks != [] && j < |ls| && ls[j] == ks[0]
    requires forall k :: k in ks <==> k in ls
    ensures NoDuplicates(ks[1..]) && NoDuplicates(ls[..j] + ls[j + 1..])
    ensures forall k :: k in ks[1..] <==> k in ls[..j] + ls[j + 1..]
  {
    var ls' := ls[..j] + ls[j + 1..];
    assert forall i :: 0 <= i < |ls'| ==> ls'[i] == ls[if i < j then i else i + 1];
    forall k ensures k in ks[1..] <==> k in ls' {
      assert k in ks[1..] <==> k in ks && k != ks[0];
      if k in ls && k != ks[0] {
        var i :| 0 <= i < |ls| && ls[i] == k;
        assert ls'[if i < j then i else i - 1] == k;
      }
    }
  }

  /** Two listings of one set without duplicates are permutations of each other. */
  lemma {:induction false} SameElements<T>(s: seq<T>, t: seq<T>)
    requires NoDuplicates(s) && NoDuplicates(t)
    requires forall x :: x in s <==> x in t
    ensures multiset(s) == multiset(t)
  {
    forall x ensures multiset(s)[x] == multiset(t)[x] {
      CountOnce(s, x);
      CountOnce(t, x);
    }
  }

  lemma {:induction false} UpdateShows<T>(s: seq<T>, i: nat, x: T)
    requires i < |s| && s[i] != x
    ensures multiset(s[i := x]) != multiset(s)
  {
    assert multiset(s[i := x])[x] == multiset(s)[x] + 1;
  }

  lemma {:induction false} CountTwice<T>(s: seq<T>, i: nat, j: nat)
    requires i < j < |s| && s[i] == s[j]
    ensures multiset(s)[s[i]] >= 2
  {
    assert s == s[..i] + [s[i]] + s[i + 1..j] + [s[j]] + s[j + 1..];
  }

  lemma {:induction false} PermutedNoDuplicates<T>(s: seq<T>, t: seq<T>)
    requires multiset(s) == multiset(t) && NoDuplicates(t)
    ensures NoDuplicates(s)
  {
    forall i, j | 0 <= i < j < |s| ensures s[i] != s[j] {
      CountOnce(t, s[i]);
      if s[i] == s[j] {
        CountTwice(s, i, j);
      }
    }
  }

  lemma {:induction false} CountOnce<T>(s: seq<T>, x: T)
    requires NoDuplicates(s)
    ensures multiset(s)[x] == if x in s then 1 else 0
  {
    if s != [] {
      assert s == [s[0]] + s[1..];
      CountOnce(s[1..], x);
    }
  }
}
