/** Sorting with a comparison function, as `slices.SortFunc` promises it: sorted, not necessarily stable. */
module Sorting {
  import opened Seqs

  ghost predicate TotalPreorder<T>(s: seq<T>, cmp: (T, T) -> int) {
    && (forall x, y :: x in s && y in s ==> (cmp(x, y) <= 0 <==> cmp(y, x) >= 0))
    && (forall x, y, z :: x in s && y in s && z in s && cmp(x, y) <= 0 && cmp(y, z) <= 0 ==> cmp(x, z) <= 0)
  }

  ghost predicate Sorted<T>(s: seq<T>, cmp: (T, T) -> int) {
    forall i, j :: 0 <= i < j < |s| ==> cmp(s[i], s[j]) <= 0
  }

  method SortFunc<T>(s: seq<T>, cmp: (T, T) -> int) returns (r: seq<T>)
    requires TotalPreorder(s, cmp)
    ensures multiset(r) == multiset(s)
    ensures Sorted(r, cmp)
  {
    r := SortComparable(s, cmp, cmp);
  }

  /** Any two places of the sequence can be compared, as a total comparison says. */
  ghost predicate ComparesAs<T>(s: seq<T>, compare: (T, T) --> int, cmp: (T, T) -> int) {
    forall i, j :: 0 <= i < |s| && 0 <= j < |s| && i != j ==>
      compare.requires(s[i], s[j]) && compare(s[i], s[j]) == cmp(s[i], s[j])
  }

  /** Sorting with a comparison that is not defined on all elements compares no element with itself. */
  method SortComparable<T>(s: seq<T>, compare: (T, T) --> int, ghost cmp: (T, T) -> int) returns (r: seq<T>)
    requires TotalPreorder(s, cmp) && ComparesAs(s, compare, cmp)
    ensures multiset(r) == multiset(s)
    ensures Sorted(r, cmp)
  {
    r := [];
    for i := 0 to |s|
      invariant multiset(r) == multiset(s[..i])
      invariant Sorted(r, cmp)
    {
      r := Insert(s, i, r, compare, cmp);
    }
    WholePrefix(s);
  }

  /** One more element is inserted into the sorted ones before it. */
  method Insert<T>(s: seq<T>, i: nat, r: seq<T>, compare: (T, T) --> int, ghost cmp: (T, T) -> int)
    returns (r': seq<T>)
    requires TotalPreorder(s, cmp) && ComparesAs(s, compare, cmp) && i < |s|
    requires multiset(r) == multiset(s[..i]) && Sorted(r, cmp)
    ensures multiset(r') == multiset(s[..i + 1]) && Sorted(r', cmp)
  {
    SameMembers(r, s[..i]);
    ComparesWithEarlier(s, compare, cmp, i, r);
    var j := FindPlace(r, s[i], compare, cmp);
    InsertSorted(s, r, cmp, s[i], j);
    InsertOne(s, r, i, j);
    r' := r[..j] + [s[i]] + r[j..];
  }

  lemma {:induction false} ComparesWithEarlier<T>(s: seq<T>, compare: (T, T) --> int, cmp: (T, T) -> int,
                                                  i: nat, r: seq<T>)
    requires i < |s| && ComparesAs(s, compare, cmp) && forall x :: x in r ==> x in s[..i]
    ensures forall k :: 0 <= k < |r| ==> compare.requires(s[i], r[k]) && compare(s[i], r[k]) == cmp(s[i], r[k])
  {
    forall k | 0 <= k < |r| ensures compare.requires(s[i], r[k]) && compare(s[i], r[k]) == cmp(s[i], r[k]) {
      assert r[k] in s[..i];
      var j :| 0 <= j < i && s[j] == r[k];
    }
  }

  /** The place after the last element that is not greater. */
  method FindPlace<T>(r: seq<T>, x: T, compare: (T, T) --> int, ghost cmp: (T, T) -> int) returns (j: nat)
    requires forall k :: 0 <= k < |r| ==> compare.requires(x, r[k]) && compare(x, r[k]) == cmp(x, r[k])
    ensures j <= |r| && (j > 0 ==> cmp(x, r[j - 1]) >= 0)
    ensures forall k :: j <= k < |r| ==> cmp(x, r[k]) < 0
  {
    j := |r|;
    while j > 0 && compare(x, r[j - 1]) < 0
      invariant 0 <= j <= |r|
      invariant forall k :: j <= k < |r| ==> cmp(x, r[k]) < 0
    {
      j := j - 1;
    }
  }

  lemma {:induction false} InsertOne<T>(s: seq<T>, r: seq<T>, i: nat, j: nat)
    requires i < |s| && j <= |r| && multiset(r) == multiset(s[..i])
    ensures multiset(r[..j] + [s[i]] + r[j..]) == multiset(s[..i + 1])
  {
    assert s[..i + 1] == s[..i] + [s[i]];
    assert r == r[..j] + r[j..];
  }

  lemma {:induction false} InsertSorted<T>(s: seq<T>, r: seq<T>, cmp: (T, T) -> int, x: T, j: nat)
    requires TotalPreorder(s, cmp) && x in s && forall y :: y in r ==> y in s
    requires Sorted(r, cmp) && j <= |r|
    requires forall k :: j <= k < |r| ==> cmp(x, r[k]) < 0
    requires j > 0 ==> cmp(x, r[j - 1]) >= 0
    ensures Sorted(r[..j] + [x] + r[j..], cmp)
  {
    forall k | 0 <= k < j ensures cmp(r[k], x) <= 0 {
      BeforeInsertion(s, cmp, r[k], r[j - 1], x);
    }
    SortedWithOne(r, cmp, x, j);
  }

  lemma {:induction false} SortedWithOne<T>(r: seq<T>, cmp: (T, T) -> int, x: T, j: nat)
    requires Sorted(r, cmp) && j <= |r|
    requires forall k :: 0 <= k < j ==> cmp(r[k], x) <= 0
    requires forall k :: j <= k < |r| ==> cmp(x, r[k]) <= 0
    ensures Sorted(r[..j] + [x] + r[j..], cmp)
  {
    var t := r[..j] + [x] + r[j..];
    forall i, k | 0 <= i < k < |t| ensures cmp(t[i], t[k]) <= 0 {
      assert t[i] == if i < j then r[i] else if i == j then x else r[i - 1];
      assert t[k] == if k < j then r[k] else if k == j then x else r[k - 1];
    }
  }

  lemma {:induction false} BeforeInsertion<T>(s: seq<T>, cmp: (T, T) -> int, y: T, last: T, x: T)
    requires TotalPreorder(s, cmp) && x in s && y in s && last in s
    requires y == last || cmp(y, last) <= 0
    requires cmp(x, last) >= 0
    ensures cmp(y, x) <= 0
  {
  }

  /** Sorting fixes the result up to ties, whatever the input order was. */
  lemma {:induction false} SortedUpToTies<T>(a: seq<T>, b: seq<T>, cmp: (T, T) -> int)
    requires TotalPreorder(a, cmp) && multiset(a) == multiset(b)
    requires Sorted(a, cmp) && Sorted(b, cmp)
    ensures |a| == |b| && forall i :: 0 <= i < |a| ==> cmp(a[i], b[i]) == 0
    decreases |a|
  {
    SameSize(a, b);
    SameMembers(a, b);
    if a != [] {
      var j := TakeOut(b, a[0]);
      var rest := b[..j] + b[j + 1..];
      TailMatches(a, b, rest);
      WithoutOne(b, cmp, j);
      PreorderOnPart(a, a[1..], cmp);
      SortedTail(a, cmp);
      SortedUpToTies(a[1..], rest, cmp);
      AllTied(a, b, cmp, j);
    }
  }

  /** Elements that tie can change places: sorting does not choose between them. */
  lemma {:induction false} TiedCanSwap<T>(s: seq<T>, cmp: (T, T) -> int, p: nat, q: nat)
    requires TotalPreorder(s, cmp) && Sorted(s, cmp) && p < q < |s| && cmp(s[p], s[q]) == 0
    ensures var t := s[p := s[q]][q := s[p]]; Sorted(t, cmp) && multiset(t) == multiset(s)
  {
    var t := s[p := s[q]][q := s[p]];
    forall i, j | 0 <= i < j < |t| ensures cmp(t[i], t[j]) <= 0 {
      TiedAround(s, cmp, p, q, i);
      TiedAround(s, cmp, p, q, j);
    }
  }

  /** What is before the second of two tied elements is before the first, or between them and tied as well. */
  lemma {:induction false} TiedAround<T>(s: seq<T>, cmp: (T, T) -> int, p: nat, q: nat, i: nat)
    requires TotalPreorder(s, cmp) && Sorted(s, cmp) && p < q < |s| && cmp(s[p], s[q]) == 0 && i < |s|
    ensures i <= q ==> cmp(s[i], s[p]) <= 0 && cmp(s[i], s[q]) <= 0
    ensures i >= p ==> cmp(s[p], s[i]) <= 0 && cmp(s[q], s[i]) <= 0
  {
    assert s[i] in s && s[p] in s && s[q] in s;
    assert cmp(s[q], s[p]) <= 0 && cmp(s[p], s[p]) <= 0 && cmp(s[q], s[q]) <= 0;
    if i <= q {
      assert i == q || cmp(s[i], s[q]) <= 0;
    }
    if i >= p {
      assert i == p || cmp(s[p], s[i]) <= 0;
    }
  }

  lemma {:induction false} SameSize<T>(a: seq<T>, b: seq<T>)
    requires multiset(a) == multiset(b)
    ensures |a| == |b|
  {
    assert |a| == |multiset(a)| == |multiset(b)| == |b|;
  }

  lemma {:induction false} TailMatches<T>(a: seq<T>, b: seq<T>, rest: seq<T>)
    requires a != [] && multiset(a) == multiset(b) && multiset(rest) == multiset(b) - multiset{a[0]}
    ensures multiset(a[1..]) == multiset(rest)
  {
    assert a == [a[0]] + a[1..];
  }

  lemma {:induction false} AllTied<T>(a: seq<T>, b: seq<T>, cmp: (T, T) -> int, j: nat)
    requires TotalPreorder(a, cmp) && Sorted(a, cmp) && Sorted(b, cmp)
    requires |a| == |b| && (forall x :: x in b ==> x in a)
    requires j < |b| && b[j] == a[0]
    requires var rest := b[..j] + b[j + 1..]; forall k :: 0 <= k < |a| - 1 ==> cmp(a[1..][k], rest[k]) == 0
    ensures forall i :: 0 <= i < |a| ==> cmp(a[i], b[i]) == 0
  {
    forall i | 0 <= i < |a| ensures cmp(a[i], b[i]) == 0 {
      TiedAt(a, b, cmp, j, i);
    }
  }

  lemma {:induction false} PreorderOnPart<T>(s: seq<T>, t: seq<T>, cmp: (T, T) -> int)
    requires TotalPreorder(s, cmp) && forall x :: x in t ==> x in s
    ensures TotalPreorder(t, cmp)
  {
  }

  lemma {:induction false} SortedTail<T>(a: seq<T>, cmp: (T, T) -> int)
    requires Sorted(a, cmp) && a != []
    ensures Sorted(a[1..], cmp)
  {
  }

  lemma {:induction false} WithoutOne<T>(b: seq<T>, cmp: (T, T) -> int, j: nat)
    requires Sorted(b, cmp) && j < |b|
    ensures Sorted(b[..j] + b[j + 1..], cmp)
  {
    var t := b[..j] + b[j + 1..];
    forall i, k | 0 <= i < k < |t| ensures cmp(t[i], t[k]) <= 0 {
      assert t[i] == if i < j then b[i] else b[i + 1];
      assert t[k] == if k < j then b[k] else b[k + 1];
    }
  }

  /** Up to the position of the least element everything ties with it. */
  lemma {:induction false} TiedWithLeast<T>(a: seq<T>, b: seq<T>, cmp: (T, T) -> int, j: nat, i: nat)
    requires TotalPreorder(a, cmp) && Sorted(a, cmp) && Sorted(b, cmp)
    requires a != [] && i <= j < |b| && b[j] == a[0] && b[i] in a
    ensures cmp(b[i], a[0]) == 0 && cmp(a[0], b[i]) == 0
  {
    var k :| 0 <= k < |a| && a[k] == b[i];
    assert k > 0 ==> cmp(a[0], a[k]) <= 0;
    assert i < j ==> cmp(b[i], b[j]) <= 0;
    assert cmp(a[0], a[0]) == 0;
  }

  lemma {:induction false} TiedAt<T>(a: seq<T>, b: seq<T>, cmp: (T, T) -> int, j: nat, i: nat)
    requires TotalPreorder(a, cmp) && Sorted(a, cmp) && Sorted(b, cmp)
    requires |a| == |b| && (forall x :: x in b ==> x in a)
    requires j < |b| && b[j] == a[0] && i < |a|
    requires var rest := b[..j] + b[j + 1..]; forall k :: 0 <= k < |a| - 1 ==> cmp(a[1..][k], rest[k]) == 0
    ensures cmp(a[i], b[i]) == 0
  {
    var rest := b[..j] + b[j + 1..];
    if i > 0 {
      assert cmp(a[1..][i - 1], rest[i - 1]) == 0 && a[1..][i - 1] == a[i];
    }
    if i > j {
      assert rest[i - 1] == b[i];
    } else {
      assert i > 0 ==> rest[i - 1] == b[i - 1];
      TiedBefore(a, b, cmp, j, i);
    }
  }

  lemma {:induction false} TiedBefore<T>(a: seq<T>, b: seq<T>, cmp: (T, T) -> int, j: nat, i: nat)
    requires TotalPreorder(a, cmp) && Sorted(a, cmp) && Sorted(b, cmp)
    requires |a| == |b| && (forall x :: x in b ==> x in a)
    requires i <= j < |b| && b[j] == a[0]
    requires i > 0 ==> cmp(a[i], b[i - 1]) == 0
    ensures cmp(a[i], b[i]) == 0
  {
    assert b[i] in b && a[i] in a && a[0] in a;
    TiedWithLeast(a, b, cmp, j, i);
    if i > 0 {
      assert b[i - 1] in b;
      TiedWithLeast(a, b, cmp, j, i - 1);
      Ties(a, cmp, a[i], b[i - 1], a[0]);
      Ties(a, cmp, a[i], a[0], b[i]);
    }
  }

  lemma {:induction false} SameMembers<T>(a: seq<T>, b: seq<T>)
    requires multiset(a) == multiset(b)
    ensures forall x :: x in a <==> x in b
  {
    forall x ensures x in a <==> x in b {
      assert x in a <==> x in multiset(a);
      assert x in b <==> x in multiset(b);
    }
  }

  lemma {:induction false} Ties<T>(s: seq<T>, cmp: (T, T) -> int, x: T, y: T, z: T)
    requires TotalPreorder(s, cmp) && x in s && y in s && z in s
    requires cmp(x, y) == 0 && (cmp(y, z) == 0 || cmp(z, y) == 0)
    ensures cmp(x, z) == 0
  {
  }

  /** Without ties the sorted sequence is unique. */
  lemma {:induction false} SortedUnique<T>(a: seq<T>, b: seq<T>, cmp: (T, T) -> int)
    requires TotalPreorder(a, cmp) && multiset(a) == multiset(b)
    requires Sorted(a, cmp) && Sorted(b, cmp)
    requires forall x, y :: x in a && y in a && cmp(x, y) == 0 ==> x == y
    ensures a == b
  {
    SortedUpToTies(a, b, cmp);
    SameMembers(a, b);
  }
}
