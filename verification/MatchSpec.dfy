/** What a lookup over names finds, independently of how it is computed (manifest/image/alias.go). */
module MatchSpec {
  import opened Text
  import opened AliasSpec

  /** The full names among the first `n` that `hit` selects, each once and in order. */
  function Picked(all: seq<seq<string>>, hit: seq<string> -> bool, n: nat): seq<string>
    requires n <= |all|
  {
    if n == 0 then []
    else Picked(all, hit, n - 1) + (if hit(all[n - 1]) then [Join(all[n - 1])] else [])
  }

  /** The copies of a name when the query is that name in full, else the names that end with the query. */
  ghost function Found(all: seq<seq<string>>, query: string): seq<string> {
    if exists p :: p in all && Join(p) == query then Picked(all, p => Join(p) == query, |all|)
    else Picked(all, p => EndsWith(p, Split(query)), |all|)
  }

  /** What the lookup does with its candidates: a single one is the answer. */
  function Verdict(candidates: seq<string>): (string, seq<string>, bool) {
    if |candidates| == 1 then (candidates[0], [], true)
    else if |candidates| == 0 then ("", [], false)
    else ("", candidates, false)
  }

  /** Whether a query asks for a name: by the full name if it is one of them, else by a part-suffix of it. */
  ghost predicate Answers(all: seq<seq<string>>, query: string, p: seq<string>) {
    if exists q :: q in all && Join(q) == query then Join(p) == query
    else exists k :: 0 <= k <= |p| && p[k..] == Split(query)
  }

  /** The candidates are the full names at the places `at`, in increasing order. */
  ghost predicate NamesAt(all: seq<seq<string>>, at: seq<nat>, candidates: seq<string>) {
    && |candidates| == |at|
    && (forall i, j :: 0 <= i < j < |at| ==> at[i] < at[j])
    && (forall i :: 0 <= i < |at| ==> at[i] < |all| && candidates[i] == Join(all[at[i]]))
  }

  lemma {:induction false} NamesAtGrow(all: seq<seq<string>>, at: seq<nat>, candidates: seq<string>, n: nat)
    requires NamesAt(all, at, candidates) && n < |all| && forall i :: i in at ==> i < n
    ensures NamesAt(all, at + [n], candidates + [Join(all[n])])
    ensures forall i :: i in at + [n] <==> i in at || i == n
  {
    assert forall i :: 0 <= i < |at| ==> at[i] in at;
  }

  /** Picking yields the names at exactly the places that are selected. */
  lemma {:induction false} PickedAt(all: seq<seq<string>>, hit: seq<string> -> bool, n: nat) returns (at: seq<nat>)
    requires n <= |all|
    ensures NamesAt(all, at, Picked(all, hit, n))
    ensures forall i :: i in at <==> 0 <= i < n && hit(all[i])
  {
    if n == 0 {
      at := [];
    } else {
      at := PickedAt(all, hit, n - 1);
      if hit(all[n - 1]) {
        NamesAtGrow(all, at, Picked(all, hit, n - 1), n - 1);
        at := at + [n - 1];
      }
    }
  }

  lemma {:induction false} EndsWithSplit(p: seq<string>, s: seq<string>)
    ensures EndsWith(p, s) <==> exists k :: 0 <= k <= |p| && p[k..] == s
  {
    if EndsWith(p, s) {
      assert p[|p| - |s|..] == s;
    }
  }

  /** Exactly the names that the query asks for are found, each once and in the order of the list. */
  lemma {:induction false} FoundAt(all: seq<seq<string>>, query: string) returns (at: seq<nat>)
    ensures NamesAt(all, at, Found(all, query))
    ensures forall i :: i in at <==> 0 <= i < |all| && Answers(all, query, all[i])
  {
    if exists q :: q in all && Join(q) == query {
      at := PickedAt(all, p => Join(p) == query, |all|);
    } else {
      at := PickedAt(all, p => EndsWith(p, Split(query)), |all|);
      forall i | 0 <= i < |all| ensures EndsWith(all[i], Split(query)) <==> Answers(all, query, all[i]) {
        EndsWithSplit(all[i], Split(query));
      }
    }
  }

  lemma {:induction false} PickedSame(all: seq<seq<string>>, f: seq<string> -> bool, g: seq<string> -> bool, n: nat)
    requires n <= |all| && forall p :: p in all ==> f(p) == g(p)
    ensures Picked(all, f, n) == Picked(all, g, n)
  {
    if n > 0 {
      PickedSame(all, f, g, n - 1);
      assert all[n - 1] in all;
    }
  }

  lemma {:induction false} PickedSome(all: seq<seq<string>>, f: seq<string> -> bool, n: nat)
    requires n <= |all|
    ensures Picked(all, f, n) == [] <==> forall i :: 0 <= i < n ==> !f(all[i])
  {
    if n > 0 {
      PickedSome(all, f, n - 1);
      if f(all[n - 1]) {
        assert |Picked(all, f, n)| > 0;
      }
    }
  }

  /** A name is picked as often as it occurs. */
  lemma {:induction false} PickedCopies(all: seq<seq<string>>, p: seq<string>, n: nat)
    requires n <= |all|
    ensures var c := Picked(all, q => q == p, n);
      |c| == multiset(all[..n])[p] && forall i :: 0 <= i < |c| ==> c[i] == Join(p)
  {
    if n > 0 {
      PickedCopies(all, p, n - 1);
      assert all[..n] == all[..n - 1] + [all[n - 1]];
    }
  }

  lemma {:induction false} SuffixIsName(all: seq<seq<string>>, p: seq<string>, k: nat, q: seq<string>)
    requires p in all && q in all && Separated(p) && Separated(q)
    requires AliasLength(all, p) <= k <= |p| && Join(Suffix(p, k)) == Join(q)
    ensures p == q && k == |p|
  {
    assert Separated(Suffix(p, k));
    JoinInjective(Suffix(p, k), q);
    LongSuffixIdentifies(all, p, k, q);
    assert |Suffix(p, k)| == k;
  }

  /** A part-suffix at least as long as the alias of a name finds that name's copies and nothing else. */
  lemma {:induction false} LongSuffixFinds(all: seq<seq<string>>, p: seq<string>, k: nat)
    requires p in all && Separated(p) && forall q :: q in all ==> Separated(q)
    requires AliasLength(all, p) <= k <= |p|
    ensures var c := Found(all, Join(Suffix(p, k)));
      |c| == multiset(all)[p] && forall i :: 0 <= i < |c| ==> c[i] == Join(p)
    ensures multiset(all)[p] == 1 ==> Verdict(Found(all, Join(Suffix(p, k)))) == (Join(p), [], true)
  {
    var query := Join(Suffix(p, k));
    assert Separated(Suffix(p, k));
    SplitJoin(Suffix(p, k));
    PickedCopies(all, p, |all|);
    assert all[..|all|] == all;
    if q :| q in all && Join(q) == query {
      SuffixIsName(all, p, k, q);
      assert Suffix(p, k) == p;
      forall r | r in all ensures (Join(r) == query) == (r == p) {
        if Join(r) == query { JoinInjective(r, p); }
      }
      PickedSame(all, r => Join(r) == query, r => r == p, |all|);
    } else {
      assert Suffix(p, |p|) == p;
      forall r | r in all ensures EndsWith(r, Suffix(p, k)) == (r == p) {
        if EndsWith(r, Suffix(p, k)) { LongSuffixIdentifies(all, p, k, r); }
      }
      PickedSame(all, r => EndsWith(r, Split(query)), r => r == p, |all|);
    }
  }

  predicate FullOrAlias(all: seq<seq<string>>, query: string, p: seq<string>) {
    Join(p) == query || (p != [] && Alias(all, p) == query)
  }

  lemma {:induction false} FullNameHits(all: seq<seq<string>>, query: string, q: seq<string>)
    requires forall p :: p in all ==> Separated(p)
    requires q in all && Join(q) == query
    ensures forall p :: p in all ==> FullOrAlias(all, query, p) == (Join(p) == query)
  {
    forall p | p in all ensures FullOrAlias(all, query, p) == (Join(p) == query) {
      if Alias(all, p) == query {
        SuffixIsName(all, p, AliasLength(all, p), q);
      }
    }
  }

  lemma {:induction false} AliasHits(all: seq<seq<string>>, query: string, q: seq<string>)
    requires forall p :: p in all ==> Separated(p) && Join(p) != query
    requires q in all && q != [] && Alias(all, q) == query
    ensures forall p :: p in all ==> FullOrAlias(all, query, p) == EndsWith(p, Split(query))
  {
    var k := AliasLength(all, q);
    assert Separated(Suffix(q, k));
    SplitJoin(Suffix(q, k));
    assert Suffix(q, |q|) == q;
    forall p | p in all ensures FullOrAlias(all, query, p) == EndsWith(p, Split(query)) {
      if EndsWith(p, Split(query)) {
        LongSuffixIdentifies(all, q, k, p);
      } else if Alias(all, p) == query {
        AliasInjective(all, p, q);
      }
    }
  }

  /** Looking at aliases and full names first, and at all part-suffixes only when that finds nothing,
      is the same as looking for full names first. */
  lemma {:induction false} AliasesAreRedundant(all: seq<seq<string>>, query: string)
    requires forall q :: q in all ==> Separated(q)
    ensures
      var first := Picked(all, p => FullOrAlias(all, query, p), |all|);
      Found(all, query) == if first != [] then first else Picked(all, p => EndsWith(p, Split(query)), |all|)
  {
    PickedSome(all, p => FullOrAlias(all, query, p), |all|);
    if q :| q in all && Join(q) == query {
      FullNameHits(all, query, q);
      PickedSame(all, p => FullOrAlias(all, query, p), p => Join(p) == query, |all|);
    } else if q :| q in all && FullOrAlias(all, query, q) {
      AliasHits(all, query, q);
      PickedSame(all, p => FullOrAlias(all, query, p), p => EndsWith(p, Split(query)), |all|);
    }
  }
}
