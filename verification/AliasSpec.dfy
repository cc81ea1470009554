/** What an alias is, independently of how it is found (manifest/image/alias.go). */
module AliasSpec {
  import opened Text
  import opened Images

  /** The last `k` parts of a name. */
  function Suffix(p: seq<string>, k: nat): seq<string>
    requires k <= |p|
  {
    p[|p| - k..]
  }

  predicate EndsWith(q: seq<string>, s: seq<string>) {
    |s| <= |q| && q[|q| - |s|..] == s
  }

  /** Some name other than `p` also ends with the last `k` parts of `p`. */
  predicate Shared(all: seq<seq<string>>, p: seq<string>, k: nat)
    requires k <= |p|
  {
    exists q :: q in all && q != p && EndsWith(q, Suffix(p, k))
  }

  /** `k` parts are enough to tell `p` from every differing name (or are all there is), and fewer are not. */
  predicate IsAliasLength(all: seq<seq<string>>, p: seq<string>, k: nat) {
    && 1 <= k <= |p|
    && (k < |p| ==> !Shared(all, p, k))
    && (1 < k ==> Shared(all, p, k - 1))
  }

  function LengthFrom(all: seq<seq<string>>, p: seq<string>, k: nat): (n: nat)
    requires 1 <= k <= |p|
    requires 1 < k ==> Shared(all, p, k - 1)
    ensures IsAliasLength(all, p, n)
    decreases |p| - k
  {
    if k == |p| || !Shared(all, p, k) then k else LengthFrom(all, p, k + 1)
  }

  /** The number of parts in the alias of `p` among the names `all`. */
  function AliasLength(all: seq<seq<string>>, p: seq<string>): (n: nat)
    requires |p| > 0
    ensures IsAliasLength(all, p, n)
  {
    LengthFrom(all, p, 1)
  }

  /** The parts of the original names of images. */
  function NamesOf(images: seq<Image>): (all: seq<seq<string>>)
    ensures |all| == |images| && forall i :: 0 <= i < |images| ==> all[i] == Split(images[i].originalName)
  {
    seq(|images|, i requires 0 <= i < |images| => Split(images[i].originalName))
  }

  function Alias(all: seq<seq<string>>, p: seq<string>): string
    requires |p| > 0
  {
    Join(Suffix(p, AliasLength(all, p)))
  }

  lemma {:induction false} EndsWithSame(q: seq<string>, p: seq<string>, k: nat)
    requires k <= |p| && k <= |q|
    ensures EndsWith(q, Suffix(p, k)) <==> Suffix(p, k) == Suffix(q, k)
  {
  }

  lemma {:induction false} SuffixesDiffer(p: seq<string>, j: nat, q: seq<string>, k: nat)
    requires j <= |p| && k <= |q|
    ensures Suffix(p, j) == Suffix(q, k) ==> j == k
  {
    assert |Suffix(p, j)| == j && |Suffix(q, k)| == k;
  }

  lemma {:induction false} EndsWithShorter(q: seq<string>, p: seq<string>, j: nat, k: nat)
    requires j <= k <= |p|
    requires EndsWith(q, Suffix(p, k))
    ensures EndsWith(q, Suffix(p, j))
  {
    assert Suffix(p, j) == Suffix(p, k)[k - j..];
  }

  lemma {:induction false} SharedShorter(all: seq<seq<string>>, p: seq<string>, j: nat, k: nat)
    requires j <= k <= |p|
    requires Shared(all, p, k)
    ensures Shared(all, p, j)
  {
    var q :| q in all && q != p && EndsWith(q, Suffix(p, k));
    EndsWithShorter(q, p, j, k);
  }

  /** The specification pins the length down. */
  lemma {:induction false} AliasLengthUnique(all: seq<seq<string>>, p: seq<string>, j: nat, k: nat)
    requires IsAliasLength(all, p, j) && IsAliasLength(all, p, k)
    ensures j == k
  {
    if j < k {
      SharedShorter(all, p, j, k - 1);
    } else if k < j {
      SharedShorter(all, p, k, j - 1);
    }
  }

  /** Only which names occur matters: not their order, not how often each occurs. */
  lemma {:induction false} AliasOfSameNames(all: seq<seq<string>>, all': seq<seq<string>>, p: seq<string>)
    requires |p| > 0
    requires forall q :: q in all <==> q in all'
    ensures AliasLength(all, p) == AliasLength(all', p)
    ensures Alias(all, p) == Alias(all', p)
  {
    forall k: nat | k <= |p| ensures Shared(all, p, k) == Shared(all', p, k) {}
    AliasLengthUnique(all, p, AliasLength(all, p), AliasLength(all', p));
  }

  /** A suffix at least as long as the alias belongs to one name alone. */
  lemma {:induction false} LongSuffixIdentifies(all: seq<seq<string>>, p: seq<string>, k: nat, q: seq<string>)
    requires p in all && q in all && |p| > 0
    requires AliasLength(all, p) <= k <= |p|
    requires EndsWith(q, Suffix(p, k))
    ensures p == q || (k == |p| && |p| < |q|)
  {
    if p != q {
      if k < |p| {
        EndsWithShorter(q, p, AliasLength(all, p), k);
        assert false;
      }
      assert Suffix(p, k) == p;
    }
  }

  /** Differing names get differing aliases. */
  lemma {:induction false} AliasInjective(all: seq<seq<string>>, p: seq<string>, q: seq<string>)
    requires p in all && q in all
    requires Separated(p) && Separated(q)
    ensures Alias(all, p) == Alias(all, q) <==> p == q
  {
    if Alias(all, p) == Alias(all, q) {
      var j, k := AliasLength(all, p), AliasLength(all, q);
      assert Separated(Suffix(p, j)) && Separated(Suffix(q, k));
      JoinInjective(Suffix(p, j), Suffix(q, k));
      assert j == |Suffix(p, j)| == |Suffix(q, k)| == k;
      LongSuffixIdentifies(all, p, j, q);
      LongSuffixIdentifies(all, q, k, p);
    }
  }

  /** The length of the longest common part-suffix. */
  function CommonSuffix(p: seq<string>, q: seq<string>): nat {
    if p == [] || q == [] || p[|p| - 1] != q[|q| - 1] then 0
    else 1 + CommonSuffix(p[..|p| - 1], q[..|q| - 1])
  }

  lemma {:induction false} EndsWithStep(q: seq<string>, s: seq<string>)
    requires q != [] && s != []
    ensures EndsWith(q, s) <==>
            q[|q| - 1] == s[|s| - 1] && EndsWith(q[..|q| - 1], s[..|s| - 1])
  {
    if |s| <= |q| {
      var t := q[|q| - |s|..];
      assert t == t[..|s| - 1] + [t[|s| - 1]] && s == s[..|s| - 1] + [s[|s| - 1]];
      assert t[..|s| - 1] == q[..|q| - 1][|q| - |s|..];
    }
  }

  lemma {:induction false} CommonSuffixMeaning(p: seq<string>, q: seq<string>, k: nat)
    requires k <= |p|
    ensures k <= CommonSuffix(p, q) <==> EndsWith(q, Suffix(p, k))
  {
    if k > 0 && q != [] {
      var p', q' := p[..|p| - 1], q[..|q| - 1];
      CommonSuffixMeaning(p', q', k - 1);
      EndsWithStep(q, Suffix(p, k));
      assert Suffix(p, k)[..k - 1] == Suffix(p', k - 1);
    }
  }

  /** The longest part-suffix that `p` has in common with any differing name. */
  function LongestCommon(all: seq<seq<string>>, p: seq<string>): nat {
    if all == [] then 0
    else
      var rest := LongestCommon(all[1..], p);
      if all[0] != p && CommonSuffix(p, all[0]) > rest then CommonSuffix(p, all[0]) else rest
  }

  lemma {:induction false} LongestCommonMeaning(all: seq<seq<string>>, p: seq<string>, k: nat)
    requires 1 <= k <= |p|
    ensures k <= LongestCommon(all, p) <==> Shared(all, p, k)
  {
    if all != [] {
      LongestCommonMeaning(all[1..], p, k);
      CommonSuffixMeaning(p, all[0], k);
      forall q ensures q in all <==> q == all[0] || q in all[1..] {}
    }
  }

  /** The closed form of the alias length. */
  lemma {:induction false} AliasLengthClosedForm(all: seq<seq<string>>, p: seq<string>)
    requires |p| > 0
    ensures AliasLength(all, p) == if 1 + LongestCommon(all, p) < |p| then 1 + LongestCommon(all, p) else |p|
  {
    var n := AliasLength(all, p);
    LongestCommonMeaning(all, p, n);
    if 1 < n {
      LongestCommonMeaning(all, p, n - 1);
    }
  }
}
