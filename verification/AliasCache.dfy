/** The alias loop and the lookup over aliased names (manifest/image/alias.go). */
module AliasCache {
  import opened Text
  import opened AliasSpec
  import opened Images
  import opened MatchSpec

  class ImageName {
    const parts: seq<string>
    const tag: string
    const digest: string
    const last: nat
    var current: nat

    constructor (name: string, tag: string, digest: string)
      ensures Valid() && parts == Split(name) && this.tag == tag && this.digest == digest
      ensures Length() == 1
    {
      var nameParts := Split(name);
      this.parts := nameParts;
      this.tag := tag;
      this.digest := digest;
      this.last := |nameParts| - 1;
      this.current := |nameParts| - 1;
    }

    ghost predicate Valid()
      reads this
    {
      Separated(parts) && last == |parts| - 1 && current <= last
    }

    /** How many parts the alias has now. */
    ghost function Length(): nat
      reads this
      requires Valid()
    {
      |parts| - current
    }

    function Shortest(): string
      requires last < |parts|
    {
      parts[last]
    }

    function Longest(): string {
      Text.Join(parts)
    }

    function Join(): string
      reads this
      requires current <= |parts|
    {
      Text.Join(parts[current..])
    }

    predicate Extendable()
      reads this
    {
      current > 0
    }

    method Extend() returns (ok: bool)
      requires Valid()
      modifies this
      ensures Valid()
      ensures ok == (old(Length()) < |parts|)
      ensures Length() == if ok then old(Length()) + 1 else old(Length())
    {
      if !Extendable() {
        return false;
      }
      current := current - 1;
      return true;
    }
  }

  predicate EqualParts(a: ImageName, b: ImageName) {
    a.parts == b.parts
  }

  /** Where `a` stops when it is lengthened past every suffix of `b` shorter than `bound` parts: the last
      part-suffix it leaves behind is shared with `b`, and so are all shorter ones; the one it stops at is not,
      or is not shorter than `bound`, or is the whole name. */
  ghost predicate SlidesTo(a: seq<string>, b: seq<string>, bound: nat, start: nat, end: nat) {
    && start <= end <= |a|
    && (start < end ==> end <= bound && EndsWith(b, Suffix(a, end - 1)))
    && (end < |a| && end < bound ==> !EndsWith(b, Suffix(a, end)))
  }

  /** Whether `a` with one more part equals the alias of `b`. */
  predicate OffByOne(a: seq<string>, lenA: nat, b: seq<string>, lenB: nat)
    requires lenA <= |a| && lenB <= |b|
  {
    lenA < |a| && Suffix(a, lenA + 1) == Suffix(b, lenB)
  }

  /** How the two suffix rules change the lengths `j` and `k` of the aliases of `a` and `b`. */
  ghost predicate SuffixRules(a: seq<string>, j: nat, b: seq<string>, k: nat, j': nat, k': nat)
    requires j <= |a| && k <= |b|
  {
    if j == |a| then j' == j && k' == k
    else if OffByOne(a, j, b, k) then k' == OneMore(b, k) && SlidesTo(a, b, k', j + 1, j')
    else k' == k && SlidesTo(a, b, k', j, j')
  }

  /** How the rule for equal aliases changes them. */
  ghost predicate EqualRule(a: seq<string>, j: nat, b: seq<string>, k: nat, j': nat, k': nat)
    requires j <= |a| && k <= |b|
  {
    if Suffix(a, j) == Suffix(b, k) then j' == OneMore(a, j) && k' == OneMore(b, k) else j' == j && k' == k
  }

  function OneMore(p: seq<string>, k: nat): nat {
    if k < |p| then k + 1 else k
  }

  /** If the alias grows from `j` to `j'` parts, then because `b` also ends with one part less than that. */
  ghost predicate Forced(a: seq<string>, j: nat, j': nat, b: seq<string>) {
    j <= j' <= |a| && (j < j' ==> EndsWith(b, Suffix(a, j' - 1)))
  }

  /** An alias that is one part short of another name's alias is a suffix the two names share. */
  lemma {:induction false} OffByOneShares(a: seq<string>, j: nat, b: seq<string>, k: nat)
    requires j <= |a| && k <= |b| && OffByOne(a, j, b, k)
    ensures k == j + 1
    ensures EndsWith(b, Suffix(a, j + 1)) && EndsWith(b, Suffix(a, j)) && EndsWith(a, Suffix(b, k))
  {
    SuffixesDiffer(a, j + 1, b, k);
    EndsWithSame(b, a, j + 1);
    EndsWithSame(a, b, k);
    EndsWithShorter(b, a, j, j + 1);
  }

  lemma {:induction false} SlideIsForced(a: seq<string>, b: seq<string>, bound: nat, start: nat, end: nat, j: nat)
    requires j <= start && SlidesTo(a, b, bound, start, end)
    requires j < start ==> j == start - 1 && EndsWith(b, Suffix(a, j))
    ensures Forced(a, j, end, b)
  {
  }

  lemma {:induction false} GrowthIsForced(a: seq<string>, b: seq<string>, k: nat)
    requires k <= |b| && EndsWith(a, Suffix(b, k))
    ensures Forced(b, k, OneMore(b, k), a)
  {
  }

  /** Every step of the suffix rules is forced by a common suffix. */
  lemma {:induction false} SuffixRulesAreForced(a: seq<string>, j: nat, b: seq<string>, k: nat, j': nat, k': nat)
    requires j <= |a| && k <= |b| && SuffixRules(a, j, b, k, j', k')
    ensures Forced(a, j, j', b) && Forced(b, k, k', a)
    ensures j' == j && k' == k && j < |a| && j < k ==> !EndsWith(b, Suffix(a, j))
  {
    if j < |a| {
      if OffByOne(a, j, b, k) {
        OffByOneShares(a, j, b, k);
        SlideIsForced(a, b, k', j + 1, j', j);
        GrowthIsForced(a, b, k);
      } else {
        SlideIsForced(a, b, k, j, j', j);
      }
    }
  }

  /** What the three rules amount to for two differing names: every step is forced by a common
      suffix, and when there is no step the names are told apart. */
  lemma {:induction false} RulesAreForced(a: seq<string>, j: nat, b: seq<string>, k: nat, j1: nat, k1: nat, j2: nat,
                                          k2: nat)
    requires a != b && j <= |a| && k <= |b|
    requires EqualRule(a, j, b, k, j1, k1) && SuffixRules(a, j1, b, k1, j2, k2)
    ensures Forced(a, j, j2, b) && Forced(b, k, k2, a)
    ensures j2 == j && k2 == k ==> Quiet(a, j, b, k)
  {
    SuffixRulesAreForced(a, j1, b, k1, j2, k2);
    if Suffix(a, j) == Suffix(b, k) {
      EqualAliasesGrow(a, j, b, k);
    }
  }

  /** Two names with equal aliases share them as suffixes, and one of the names has a part to add. */
  lemma {:induction false} EqualAliasesGrow(a: seq<string>, j: nat, b: seq<string>, k: nat)
    requires a != b && j <= |a| && k <= |b| && Suffix(a, j) == Suffix(b, k)
    ensures j == k && EndsWith(b, Suffix(a, j)) && EndsWith(a, Suffix(b, k))
    ensures OneMore(a, j) > j || OneMore(b, k) > k
  {
    SuffixesDiffer(a, j, b, k);
    EndsWithSame(b, a, j);
    EndsWithSame(a, b, j);
    if j == |a| && k == |b| {
      WholeSuffix(a);
      WholeSuffix(b);
    }
  }

  lemma {:induction false} WholeSuffix(a: seq<string>)
    ensures Suffix(a, |a|) == a
  {
  }

  /** One more suffix of `b`, of `k` parts, is compared with the alias of `a`. */
  lemma {:induction false} SlideOn(a: seq<string>, b: seq<string>, k: nat, start: nat, end: nat)
    requires k < |b| && SlidesTo(a, b, k, start, end)
    ensures SlidesTo(a, b, k + 1, start, if Suffix(a, end) == Suffix(b, k) then OneMore(a, end) else end)
  {
    SuffixesDiffer(a, end, b, k);
    if end == k {
      EndsWithSame(b, a, k);
    }
  }

  method ExtendIfSuffixMatches(a: ImageName, b: ImageName) returns (mutated: bool)
    requires a != b && a.Valid() && b.Valid()
    modifies a, b
    ensures a.Valid() && b.Valid()
    ensures SuffixRules(a.parts, old(a.Length()), b.parts, old(b.Length()), a.Length(), b.Length())
    ensures mutated == (a.Length() != old(a.Length()) || b.Length() != old(b.Length()))
  {
    if !a.Extendable() {
      return false;
    }
    var off := ExtendOffByOne(a, b);
    var slid := Slide(a, b);
    mutated := off || slid;
  }

  /** The rule for an alias that is one part short of the other. */
  method ExtendOffByOne(a: ImageName, b: ImageName) returns (mutated: bool)
    requires a != b && a.Valid() && b.Valid() && a.Length() < |a.parts|
    modifies a, b
    ensures a.Valid() && b.Valid()
    ensures mutated == OffByOne(a.parts, old(a.Length()), b.parts, old(b.Length()))
    ensures a.Length() == if mutated then old(a.Length()) + 1 else old(a.Length())
    ensures b.Length() == if mutated then OneMore(b.parts, old(b.Length())) else old(b.Length())
  {
    mutated := false;
    if a.parts[a.current - 1..] == b.parts[b.current..] {
      var ok := a.Extend();
      if ok {
        mutated := true;
      }
      ok := b.Extend();
      if ok {
        mutated := true;
      }
    }
  }

  /** The loop over the suffixes of `b` that are shorter than its alias, the shortest first. */
  method Slide(a: ImageName, b: ImageName) returns (mutated: bool)
    requires a != b && a.Valid() && b.Valid()
    modifies a
    ensures a.Valid()
    ensures SlidesTo(a.parts, b.parts, b.Length(), old(a.Length()), a.Length())
    ensures mutated == (a.Length() != old(a.Length()))
  {
    mutated := false;
    ghost var start := a.Length();
    var i := b.last;
    while i > b.current
      invariant b.current <= i <= b.last
      invariant a.Valid() && start <= a.Length()
      invariant SlidesTo(a.parts, b.parts, |b.parts| - i, start, a.Length())
      invariant mutated == (a.Length() != start)
    {
      var moved := SlidePast(a, b, i, start);
      mutated := mutated || moved;
      i := i - 1;
    }
  }

  /** One round of that loop, for the suffix of `b` that starts at part `i`. */
  method SlidePast(a: ImageName, b: ImageName, i: nat, ghost start: nat) returns (mutated: bool)
    requires a != b && a.Valid() && b.Valid() && b.current < i <= b.last
    requires SlidesTo(a.parts, b.parts, |b.parts| - i, start, a.Length())
    modifies a
    ensures a.Valid() && a.Length() >= old(a.Length())
    ensures SlidesTo(a.parts, b.parts, |b.parts| - i + 1, start, a.Length())
    ensures mutated == (a.Length() != old(a.Length()))
  {
    mutated := false;
    SlideOn(a.parts, b.parts, |b.parts| - i, start, a.Length());
    SameFrom(a.parts, a.current, b.parts, i);
    if a.parts[a.current..] == b.parts[i..] {
      var ok := a.Extend();
      if ok {
        mutated := true;
      }
    }
  }

  lemma {:induction false} SameFrom(a: seq<string>, i: nat, b: seq<string>, j: nat)
    requires i <= |a| && j <= |b|
    ensures a[i..] == b[j..] <==> Suffix(a, |a| - i) == Suffix(b, |b| - j)
  {
  }

  /** What a slice of freshly allocated names is: valid and pairwise distinct objects. */
  ghost predicate IsCache(l: seq<ImageName>)
    reads l
  {
    && (forall i :: 0 <= i < |l| ==> l[i].Valid())
    && (forall i, j :: 0 <= i < j < |l| ==> l[i] != l[j])
  }

  function PartsOf(l: seq<ImageName>): (all: seq<seq<string>>)
    ensures |all| == |l| && forall i :: 0 <= i < |l| ==> all[i] == l[i].parts
  {
    seq(|l|, i requires 0 <= i < |l| => l[i].parts)
  }

  ghost function Sum(s: seq<nat>): nat {
    if s == [] then 0 else s[0] + Sum(s[1..])
  }

  lemma {:induction false} SumLess(s: seq<nat>, t: seq<nat>)
    requires |s| == |t| && forall i :: 0 <= i < |s| ==> s[i] <= t[i]
    ensures Sum(s) <= Sum(t)
    ensures s != t ==> Sum(s) < Sum(t)
  {
    if s != [] {
      assert s == [s[0]] + s[1..] && t == [t[0]] + t[1..];
      SumLess(s[1..], t[1..]);
    }
  }

  /** `NewAliasCache` on a list of images. */
  method NewFromImages(images: seq<Image>) returns (l: seq<ImageName>)
    ensures IsCache(l) && PartsOf(l) == NamesOf(images)
    ensures forall i :: 0 <= i < |l| ==> fresh(l[i]) && l[i].current == l[i].last
    ensures forall i :: 0 <= i < |l| ==> l[i].tag == images[i].originalTag && l[i].digest == images[i].digest
  {
    l := [];
    for i := 0 to |images|
      invariant |l| == i && IsCache(l)
      invariant forall j :: 0 <= j < i ==> fresh(l[j]) && l[j].parts == Split(images[j].originalName)
      invariant forall j :: 0 <= j < i ==> l[j].current == l[j].last
      invariant forall j :: 0 <= j < i ==> l[j].tag == images[j].originalTag && l[j].digest == images[j].digest
    {
      var name := new ImageName(images[i].originalName, images[i].originalTag, images[i].digest);
      l := l + [name];
    }
  }

  /** The name was made from the reference. */
  ghost predicate MadeFrom(name: ImageName, ref: string) {
    && name.parts == Split(SplitReference(ref).0)
    && name.tag == SplitReference(ref).1 && name.digest == SplitReference(ref).2
  }

  /** `NewAliasCache` on a list of references. */
  method NewFromReferences(refs: seq<string>) returns (l: seq<ImageName>)
    ensures IsCache(l) && |l| == |refs|
    ensures forall i :: 0 <= i < |l| ==> fresh(l[i]) && l[i].current == l[i].last && MadeFrom(l[i], refs[i])
  {
    l := [];
    for i := 0 to |refs|
      invariant |l| == i && IsCache(l)
      invariant forall j :: 0 <= j < i ==> fresh(l[j]) && l[j].current == l[j].last && MadeFrom(l[j], refs[j])
    {
      var name := NewFromReference(refs[i]);
      l := l + [name];
    }
  }

  method NewFromReference(ref: string) returns (name: ImageName)
    ensures fresh(name) && name.Valid() && name.current == name.last && MadeFrom(name, ref)
  {
    var (n, tag, digest) := SplitReference(ref);
    name := new ImageName(n, tag, digest);
  }

  ghost function AliasesOf(l: seq<ImageName>): (names: seq<string>)
    reads l
    requires IsCache(l)
    ensures |names| == |l| && forall i :: 0 <= i < |l| ==> names[i] == l[i].Join()
  {
    seq(|l|, i requires 0 <= i < |l| && l[i].Valid() reads l => l[i].Join())
  }

  /** The full names among the first `n` whose alias or full name is the query. */
  function Exact(all: seq<seq<string>>, aliases: seq<string>, query: string, n: nat): seq<string>
    requires n <= |all| == |aliases|
  {
    if n == 0 then []
    else Exact(all, aliases, query, n - 1)
         + (if query == aliases[n - 1] || query == Text.Join(all[n - 1]) then [Text.Join(all[n - 1])] else [])
  }

  /** The names among the first `n` for which the flag is set. */
  function Flagged(all: seq<seq<string>>, flags: seq<bool>, n: nat): seq<string>
    requires n <= |all| == |flags|
  {
    if n == 0 then [] else Flagged(all, flags, n - 1) + (if flags[n - 1] then [Text.Join(all[n - 1])] else [])
  }

  lemma {:induction false} ExactFlagged(all: seq<seq<string>>, aliases: seq<string>, query: string, flags: seq<bool>,
                                        n: nat)
    requires n <= |all| == |aliases| == |flags|
    requires forall i :: 0 <= i < |all| ==> flags[i] == (query == aliases[i] || query == Text.Join(all[i]))
    ensures Exact(all, aliases, query, n) == Flagged(all, flags, n)
  {
    if n > 0 {
      ExactFlagged(all, aliases, query, flags, n - 1);
    }
  }

  lemma {:induction false} PickedFlagged(all: seq<seq<string>>, hit: seq<string> -> bool, flags: seq<bool>, n: nat)
    requires n <= |all| == |flags|
    requires forall i :: 0 <= i < |all| ==> flags[i] == hit(all[i])
    ensures Picked(all, hit, n) == Flagged(all, flags, n)
  {
    if n > 0 {
      PickedFlagged(all, hit, flags, n - 1);
    }
  }

  lemma {:induction false} ExactOnAliases(all: seq<seq<string>>, aliases: seq<string>, query: string)
    requires |all| == |aliases|
    requires forall i :: 0 <= i < |all| ==> all[i] != [] && aliases[i] == Alias(all, all[i])
    ensures Exact(all, aliases, query, |all|) == Picked(all, p => FullOrAlias(all, query, p), |all|)
  {
    var flags := seq(|all|, i requires 0 <= i < |all| => query == aliases[i] || query == Text.Join(all[i]));
    ExactFlagged(all, aliases, query, flags, |all|);
    PickedFlagged(all, p => FullOrAlias(all, query, p), flags, |all|);
  }

  /** What is found by alias or full name, and failing that by part-suffix. */
  function FoundInStages(all: seq<seq<string>>, aliases: seq<string>, query: string): seq<string>
    requires |all| == |aliases|
  {
    var first := Exact(all, aliases, query, |all|);
    if first != [] then first else Picked(all, p => EndsWith(p, Split(query)), |all|)
  }

  lemma {:induction false} AliasesDecide(all: seq<seq<string>>, aliases: seq<string>, query: string)
    requires |aliases| == |all| && forall p :: p in all ==> Separated(p)
    requires forall i :: 0 <= i < |all| ==> all[i] != [] && aliases[i] == Alias(all, all[i])
    ensures FoundInStages(all, aliases, query) == Found(all, query)
  {
    ExactOnAliases(all, aliases, query);
    AliasesAreRedundant(all, query);
  }

  lemma {:induction false} AliasedCacheFinds(l: seq<ImageName>, query: string)
    requires IsCache(l) && forall i :: 0 <= i < |l| ==> l[i].Length() == AliasLength(PartsOf(l), l[i].parts)
    ensures FoundInStages(PartsOf(l), AliasesOf(l), query) == Found(PartsOf(l), query)
  {
    var all := PartsOf(l);
    forall i | 0 <= i < |l| ensures AliasesOf(l)[i] == Alias(all, all[i]) {
      assert Suffix(all[i], l[i].Length()) == l[i].parts[l[i].current..];
    }
    AliasesDecide(all, AliasesOf(l), query);
  }

  ghost predicate IsAliased(l: seq<ImageName>)
    reads l
    requires IsCache(l)
  {
    forall i :: 0 <= i < |l| ==> l[i].Length() == AliasLength(PartsOf(l), l[i].parts)
  }

  /** Whether an entry is a candidate: by its alias or full name if that gives any, else by a part-suffix. */
  ghost predicate Candidate(l: seq<ImageName>, query: string, i: nat)
    reads l
    requires IsCache(l) && i < |l|
  {
    if exists j :: 0 <= j < |l| && (l[j].Join() == query || l[j].Longest() == query)
    then l[i].Join() == query || l[i].Longest() == query
    else exists k :: 0 <= k <= |l[i].parts| && l[i].parts[k..] == Split(query)
  }

  lemma {:induction false} FlaggedAt(all: seq<seq<string>>, flags: seq<bool>, n: nat) returns (at: seq<nat>)
    requires n <= |all| == |flags|
    ensures NamesAt(all, at, Flagged(all, flags, n)) && AreFlagged(flags, n, at)
  {
    if n == 0 {
      at := [];
    } else {
      var front := FlaggedAt(all, flags, n - 1);
      FlagsGrow(flags, n - 1, front);
      at := if flags[n - 1] then front + [n - 1] else front;
      FlaggedNamesGrow(all, flags, n, front);
    }
  }

  lemma {:induction false} FlaggedNamesGrow(all: seq<seq<string>>, flags: seq<bool>, n: nat, front: seq<nat>)
    requires 0 < n <= |all| == |flags| && NamesAt(all, front, Flagged(all, flags, n - 1))
    requires forall i :: i in front ==> i < n - 1
    ensures NamesAt(all, if flags[n - 1] then front + [n - 1] else front, Flagged(all, flags, n))
  {
    FlaggedStep(all, flags, n);
    if flags[n - 1] {
      NamesAtGrow(all, front, Flagged(all, flags, n - 1), n - 1);
    }
  }

  lemma {:induction false} FlaggedStep(all: seq<seq<string>>, flags: seq<bool>, n: nat)
    requires 0 < n <= |all| == |flags|
    ensures Flagged(all, flags, n) ==
            if flags[n - 1] then Flagged(all, flags, n - 1) + [Text.Join(all[n - 1])] else Flagged(all, flags, n - 1)
  {
  }

  lemma {:induction false} FlagsGrow(flags: seq<bool>, n: nat, at: seq<nat>)
    requires n < |flags| && AreFlagged(flags, n, at)
    ensures AreFlagged(flags, n + 1, if flags[n] then at + [n] else at)
    ensures forall i :: i in at ==> i < n
  {
    var at' := if flags[n] then at + [n] else at;
    forall i ensures i in at' <==> 0 <= i < n + 1 && flags[i] {
      assert i in at' <==> i in at || (flags[n] && i == n);
    }
  }

  ghost predicate AreFlagged(flags: seq<bool>, n: nat, at: seq<nat>)
    requires n <= |flags|
  {
    forall i :: i in at <==> 0 <= i < n && flags[i]
  }

  lemma {:induction false} ExactAt(all: seq<seq<string>>, aliases: seq<string>, query: string) returns (at: seq<nat>)
    requires |all| == |aliases|
    ensures NamesAt(all, at, Exact(all, aliases, query, |all|))
    ensures forall i :: i in at <==> 0 <= i < |all| && (aliases[i] == query || Text.Join(all[i]) == query)
  {
    var flags := seq(|all|, i requires 0 <= i < |all| => query == aliases[i] || query == Text.Join(all[i]));
    ExactFlagged(all, aliases, query, flags, |all|);
    at := FlaggedAt(all, flags, |all|);
  }

  lemma {:induction false} CandidatesAt(l: seq<ImageName>, query: string) returns (at: seq<nat>)
    requires IsCache(l)
    ensures NamesAt(PartsOf(l), at, FoundInStages(PartsOf(l), AliasesOf(l), query))
    ensures forall i :: i in at <==> 0 <= i < |l| && Candidate(l, query, i)
  {
    at := ExactAt(PartsOf(l), AliasesOf(l), query);
    if at == [] {
      at := SuffixCandidatesAt(l, query);
    } else {
      assert at[0] in at;
    }
  }

  lemma {:induction false} SuffixCandidatesAt(l: seq<ImageName>, query: string) returns (at: seq<nat>)
    requires IsCache(l) && forall j :: 0 <= j < |l| ==> AliasesOf(l)[j] != query && Text.Join(PartsOf(l)[j]) != query
    ensures NamesAt(PartsOf(l), at, Picked(PartsOf(l), p => EndsWith(p, Split(query)), |l|))
    ensures forall i :: i in at <==> 0 <= i < |l| && Candidate(l, query, i)
  {
    var all := PartsOf(l);
    at := PickedAt(all, p => EndsWith(p, Split(query)), |all|);
    forall i | 0 <= i < |all| ensures EndsWith(all[i], Split(query)) <==> Candidate(l, query, i) {
      EndsWithSplit(all[i], Split(query));
    }
  }

  /** The lookup: by alias or full name, and only when that finds nothing by part-suffix. A single candidate is
      the answer; of several none is chosen, and all are handed back. */
  method Match(l: seq<ImageName>, name: string)
    returns (found: string, others: seq<string>, ok: bool, ghost at: seq<nat>)
    requires IsCache(l)
    ensures forall i, j :: 0 <= i < j < |at| ==> at[i] < at[j]
    ensures forall i :: 0 <= i < |at| ==> at[i] < |l|
    ensures forall i :: i in at <==> 0 <= i < |l| && Candidate(l, name, i)
    ensures IsAliased(l) ==> forall i :: i in at <==> 0 <= i < |l| && Answers(PartsOf(l), name, l[i].parts)
    ensures ok <==> |at| == 1
    ensures ok ==> found == l[at[0]].Longest() && others == []
    ensures !ok ==> found == "" && |others| == |at|
    ensures !ok ==> forall i :: 0 <= i < |at| ==> others[i] == l[at[i]].Longest()
    ensures (found, others, ok) == Verdict(FoundInStages(PartsOf(l), AliasesOf(l), name))
    ensures IsAliased(l) ==> (found, others, ok) == Verdict(Found(PartsOf(l), name))
  {
    var candidates := ExactMatches(l, name);
    if |candidates| == 0 {
      candidates := SuffixMatches(l, Split(name));
    }
    at := CandidatesAt(l, name);
    AnswersOnAliased(l, name);
    assert forall i :: 0 <= i < |at| ==> at[i] in at;
    if |candidates| == 1 {
      return candidates[0], [], true, at;
    } else if |candidates| == 0 {
      return "", [], false, at;
    }
    return "", candidates, false, at;
  }

  /** On an aliased cache the candidates are the names that the query asks for, and no others. */
  lemma {:induction false} AnswersOnAliased(l: seq<ImageName>, query: string)
    requires IsCache(l)
    ensures IsAliased(l) ==> FoundInStages(PartsOf(l), AliasesOf(l), query) == Found(PartsOf(l), query)
    ensures IsAliased(l) ==> forall i :: 0 <= i < |l| ==>
      (Candidate(l, query, i) <==> Answers(PartsOf(l), query, l[i].parts))
  {
    if IsAliased(l) {
      AliasedCacheFinds(l, query);
      CandidatesAnswer(l, query);
    }
  }

  lemma {:induction false} ByNameOrAlias(l: seq<ImageName>, query: string, i: nat)
    requires IsCache(l) && IsAliased(l) && i < |l|
    ensures (l[i].Join() == query || l[i].Longest() == query) <==> FullOrAlias(PartsOf(l), query, l[i].parts)
  {
    assert Suffix(PartsOf(l)[i], l[i].Length()) == l[i].parts[l[i].current..];
  }

  lemma {:induction false} CandidatesAnswer(l: seq<ImageName>, query: string)
    requires IsCache(l) && IsAliased(l)
    ensures forall i :: 0 <= i < |l| ==> (Candidate(l, query, i) <==> Answers(PartsOf(l), query, l[i].parts))
  {
    var all := PartsOf(l);
    forall i | 0 <= i < |l|
      ensures (l[i].Join() == query || l[i].Longest() == query) <==> FullOrAlias(all, query, l[i].parts)
    {
      ByNameOrAlias(l, query, i);
    }
    forall i | 0 <= i < |l| ensures EndsWith(all[i], Split(query)) <==>
      exists k :: 0 <= k <= |l[i].parts| && l[i].parts[k..] == Split(query)
    {
      EndsWithSplit(all[i], Split(query));
    }
    if q :| q in all && Text.Join(q) == query {
      FullNameHits(all, query, q);
    } else if j :| 0 <= j < |l| && FullOrAlias(all, query, l[j].parts) {
      AliasHits(all, query, l[j].parts);
    }
  }

  method ExactMatches(l: seq<ImageName>, name: string) returns (candidates: seq<string>)
    requires IsCache(l)
    ensures candidates == Exact(PartsOf(l), AliasesOf(l), name, |l|)
  {
    candidates := [];
    for i := 0 to |l|
      invariant candidates == Exact(PartsOf(l), AliasesOf(l), name, i)
    {
      if name == l[i].Join() || name == l[i].Longest() {
        candidates := candidates + [l[i].Longest()];
      }
    }
  }

  method SuffixMatches(l: seq<ImageName>, parts: seq<string>) returns (candidates: seq<string>)
    requires parts != []
    ensures candidates == Picked(PartsOf(l), p => EndsWith(p, parts), |l|)
  {
    candidates := [];
    for i := 0 to |l|
      invariant candidates == Picked(PartsOf(l), p => EndsWith(p, parts), i)
    {
      ghost var before := candidates;
      for j := 0 to |l[i].parts|
        invariant candidates == before + (if Hit(l[i].parts, parts, j) then [Text.Join(l[i].parts)] else [])
      {
        if l[i].parts[j..] == parts {
          candidates := candidates + [l[i].Longest()];
        }
      }
    }
  }

  /** The query is the part-suffix that starts at one of the first `j` parts. */
  ghost predicate Hit(p: seq<string>, query: seq<string>, j: nat) {
    |query| <= |p| && |p| - |query| < j && EndsWith(p, query)
  }

  /** No alias has more parts than a common suffix with a differing name forces on it. */
  ghost predicate Justified(all: seq<seq<string>>, cur: seq<nat>) {
    && |cur| == |all|
    && forall i :: 0 <= i < |all| && cur[i] + 1 < |all[i]| ==> Shared(all, all[i], |all[i]| - cur[i] - 1)
  }

  /** The names stand at the parts `cur`. */
  ghost predicate At(l: seq<ImageName>, cur: seq<nat>)
    reads l
  {
    |cur| == |l| && forall i :: 0 <= i < |l| ==> l[i].current == cur[i]
  }

  /** `names` shows the aliases that start at the parts `cur`. */
  ghost predicate Shown(all: seq<seq<string>>, names: seq<string>, cur: seq<nat>) {
    && |names| == |cur| == |all|
    && forall i :: 0 <= i < |all| ==> cur[i] < |all[i]| && names[i] == Text.Join(all[i][cur[i]..])
  }

  /** What the loop keeps: `names` shows the current aliases, and each of them is justified. */
  ghost predicate Good(l: seq<ImageName>, names: seq<string>, cur: seq<nat>)
    reads l
  {
    IsCache(l) && At(l, cur) && Sound(PartsOf(l), names, cur)
  }

  ghost predicate Sound(all: seq<seq<string>>, names: seq<string>, cur: seq<nat>) {
    Shown(all, names, cur) && Justified(all, cur)
  }

  /** A pair of names that one comparison leaves alone. */
  ghost predicate Quiet(p: seq<string>, a: nat, q: seq<string>, b: nat) {
    && a <= |p| && b <= |q|
    && (p != q ==>
         && Suffix(p, a) != Suffix(q, b)
         && (a < |p| && a < b ==> !EndsWith(q, Suffix(p, a))))
  }

  lemma {:induction false} QuietBothWays(p: seq<string>, a: nat, q: seq<string>, b: nat)
    requires p != q && Quiet(p, a, q, b) && Quiet(q, b, p, a)
    ensures a < |p| ==> !EndsWith(q, Suffix(p, a))
  {
    if a < |p| && EndsWith(q, Suffix(p, a)) && b < a {
      EndsWithShorter(q, p, b, a);
      assert false;
    }
  }

  /** The rules that lengthen the aliases of two differing names, as far as the two names go. */
  method LengthenPair(a: ImageName, b: ImageName, nameA: string, nameB: string)
    returns (nameA': string, nameB': string, mutated: bool)
    requires a != b && a.Valid() && b.Valid() && !EqualParts(a, b)
    requires nameA == a.Join() && nameB == b.Join()
    modifies a, b
    ensures a.Valid() && b.Valid()
    ensures nameA' == a.Join() && nameB' == b.Join()
    ensures Forced(a.parts, old(a.Length()), a.Length(), b.parts)
    ensures Forced(b.parts, old(b.Length()), b.Length(), a.parts)
    ensures mutated == (a.current != old(a.current) || b.current != old(b.current))
    ensures !mutated ==> Quiet(a.parts, a.Length(), b.parts, b.Length())
  {
    ghost var j, k := a.Length(), b.Length();
    nameA', nameB', mutated := LengthenEqual(a, b, nameA, nameB);
    ghost var j1, k1 := a.Length(), b.Length();
    var moved := ExtendIfSuffixMatches(a, b);
    RulesAreForced(a.parts, j, b.parts, k, j1, k1, a.Length(), b.Length());
    if moved {
      nameA' := a.Join();
      nameB' := b.Join();
      mutated := true;
    }
  }

  /** The rule for equal aliases. */
  method LengthenEqual(a: ImageName, b: ImageName, nameA: string, nameB: string)
    returns (nameA': string, nameB': string, mutated: bool)
    requires a != b && a.Valid() && b.Valid()
    requires nameA == a.Join() && nameB == b.Join()
    modifies a, b
    ensures a.Valid() && b.Valid()
    ensures nameA' == a.Join() && nameB' == b.Join()
    ensures EqualRule(a.parts, old(a.Length()), b.parts, old(b.Length()), a.Length(), b.Length())
    ensures mutated == (a.Length() != old(a.Length()) || b.Length() != old(b.Length()))
  {
    nameA', nameB', mutated := nameA, nameB, false;
    if nameA' == nameB' {
      JoinInjective(Suffix(a.parts, a.Length()), Suffix(b.parts, b.Length()));
      var ok := a.Extend();
      if ok {
        nameA' := a.Join();
        mutated := true;
      }
      ok := b.Extend();
      if ok {
        nameB' := b.Join();
        mutated := true;
      }
    }
  }

  lemma {:induction false} JustifiedAfterPair(all: seq<seq<string>>, cur: seq<nat>, m: nat, n: nat, j: nat, k: nat)
    requires Justified(all, cur) && m < |all| && n < |all| && all[m] != all[n]
    requires j <= cur[m] < |all[m]| && k <= cur[n] < |all[n]|
    requires Forced(all[m], |all[m]| - cur[m], |all[m]| - j, all[n])
    requires Forced(all[n], |all[n]| - cur[n], |all[n]| - k, all[m])
    ensures Justified(all, cur[m := j][n := k])
  {
    assert all[m] in all && all[n] in all;
  }

  lemma {:induction false} ShownAfterPair(all: seq<seq<string>>, names: seq<string>, cur: seq<nat>, m: nat, n: nat,
                                          j: nat, k: nat, nameA: string, nameB: string)
    requires Shown(all, names, cur) && m < |all| && n < |all| && m != n
    requires j < |all[m]| && nameA == Text.Join(all[m][j..])
    requires k < |all[n]| && nameB == Text.Join(all[n][k..])
    ensures Shown(all, names[m := nameA][n := nameB], cur[m := j][n := k])
  {
  }

  lemma {:induction false} SoundAfterPair(all: seq<seq<string>>, names: seq<string>, cur: seq<nat>, m: nat, n: nat,
                                          j: nat, k: nat, nameA: string, nameB: string)
    requires Sound(all, names, cur) && m < |all| && n < |all| && all[m] != all[n]
    requires j <= cur[m] && nameA == Text.Join(all[m][j..])
    requires k <= cur[n] && nameB == Text.Join(all[n][k..])
    requires Forced(all[m], |all[m]| - cur[m], |all[m]| - j, all[n])
    requires Forced(all[n], |all[n]| - cur[n], |all[n]| - k, all[m])
    ensures Sound(all, names[m := nameA][n := nameB], cur[m := j][n := k])
  {
    JustifiedAfterPair(all, cur, m, n, j, k);
    ShownAfterPair(all, names, cur, m, n, j, k, nameA, nameB);
  }

  /** The body of the inner loop. */
  method CompareNames(l: seq<ImageName>, names: seq<string>, ghost cur: seq<nat>, m: nat, n: nat)
    returns (names': seq<string>, mutated: bool, ghost cur': seq<nat>)
    requires Good(l, names, cur) && m < |l| && n < |l|
    modifies l
    ensures Good(l, names', cur')
    ensures forall i :: 0 <= i < |l| ==> cur'[i] <= cur[i]
    ensures mutated == (cur' != cur)
    ensures !mutated ==> QuietAt(PartsOf(l), cur, m, n)
  {
    if m == n || EqualParts(l[m], l[n]) {
      return names, false, cur;
    }
    names', mutated, cur' := CompareDiffering(l, names, cur, m, n);
  }

  method CompareDiffering(l: seq<ImageName>, names: seq<string>, ghost cur: seq<nat>, m: nat, n: nat)
    returns (names': seq<string>, mutated: bool, ghost cur': seq<nat>)
    requires Good(l, names, cur) && m < |l| && n < |l| && m != n && !EqualParts(l[m], l[n])
    modifies l
    ensures Good(l, names', cur')
    ensures forall i :: 0 <= i < |l| ==> cur'[i] <= cur[i]
    ensures mutated == (cur' != cur)
    ensures !mutated ==> QuietAt(PartsOf(l), cur, m, n)
  {
    ghost var all := PartsOf(l);
    var nameA, nameB;
    ghost var j, k;
    nameA, nameB, mutated, j, k := LengthenTwo(l, all, cur, m, n, names[m], names[n]);
    names' := names[m := nameA][n := nameB];
    cur' := cur[m := j][n := k];
    SoundAfterPair(all, names, cur, m, n, j, k, nameA, nameB);
    LoweredAtTwo(cur, m, n, j, k);
  }

  lemma {:induction false} LoweredAtTwo(cur: seq<nat>, m: nat, n: nat, j: nat, k: nat)
    requires m < |cur| && n < |cur| && m != n && j <= cur[m] && k <= cur[n]
    ensures var cur' := cur[m := j][n := k];
      && (forall i :: 0 <= i < |cur| ==> cur'[i] <= cur[i])
      && (cur' == cur <==> j == cur[m] && k == cur[n])
  {
    var cur' := cur[m := j][n := k];
    assert cur'[m] == j && cur'[n] == k;
  }

  /** Lengthens two of the names and leaves the others alone. */
  method LengthenTwo(l: seq<ImageName>, ghost all: seq<seq<string>>, ghost cur: seq<nat>, m: nat, n: nat,
                     nameA: string, nameB: string)
    returns (nameA': string, nameB': string, mutated: bool, ghost j: nat, ghost k: nat)
    requires IsCache(l) && At(l, cur) && all == PartsOf(l)
    requires m < |l| && n < |l| && m != n && all[m] != all[n] && cur[m] < |all[m]| && cur[n] < |all[n]|
    requires nameA == Text.Join(all[m][cur[m]..]) && nameB == Text.Join(all[n][cur[n]..])
    modifies l
    ensures IsCache(l) && At(l, cur[m := j][n := k])
    ensures j <= cur[m] && k <= cur[n]
    ensures nameA' == Text.Join(all[m][j..]) && nameB' == Text.Join(all[n][k..])
    ensures Forced(all[m], |all[m]| - cur[m], |all[m]| - j, all[n])
    ensures Forced(all[n], |all[n]| - cur[n], |all[n]| - k, all[m])
    ensures mutated == (j != cur[m] || k != cur[n])
    ensures !mutated ==> QuietAt(all, cur, m, n)
  {
    nameA', nameB', mutated := LengthenPair(l[m], l[n], nameA, nameB);
    j, k := l[m].current, l[n].current;
  }

  ghost predicate QuietAt(all: seq<seq<string>>, cur: seq<nat>, m: nat, n: nat)
    requires |all| == |cur| && m < |all| && n < |all|
    requires cur[m] <= |all[m]| && cur[n] <= |all[n]|
  {
    Quiet(all[m], |all[m]| - cur[m], all[n], |all[n]| - cur[n])
  }

  /** A justified cache that a whole round leaves alone carries exactly the specified aliases. */
  lemma {:induction false} QuietRoundIsFinal(all: seq<seq<string>>, cur: seq<nat>)
    requires Justified(all, cur)
    requires forall i :: 0 <= i < |all| ==> cur[i] < |all[i]|
    requires forall n, m | 0 <= n < |all| && 0 <= m < |all| :: QuietAt(all, cur, m, n)
    ensures forall i :: 0 <= i < |all| ==> |all[i]| - cur[i] == AliasLength(all, all[i])
  {
    forall i | 0 <= i < |all| ensures |all[i]| - cur[i] == AliasLength(all, all[i]) {
      var k := |all[i]| - cur[i];
      if k < |all[i]| && Shared(all, all[i], k) {
        var q :| q in all && q != all[i] && EndsWith(q, Suffix(all[i], k));
        var j :| 0 <= j < |all| && all[j] == q;
        assert QuietAt(all, cur, i, j) && QuietAt(all, cur, j, i);
        QuietBothWays(all[i], k, q, |q| - cur[j]);
      }
      AliasLengthUnique(all, all[i], k, AliasLength(all, all[i]));
    }
  }

  /** How far a round has got: the pairs up to row `n`, column `m` are behind it. */
  ghost predicate Round(all: seq<seq<string>>, start: seq<nat>, cur: seq<nat>, mutated: bool, n: nat, m: nat) {
    && |start| == |cur| == |all| && n <= |all| && m <= |all|
    && (forall i :: 0 <= i < |all| ==> cur[i] <= start[i] < |all[i]|)
    && (mutated <==> cur != start)
    && (!mutated ==> forall i, j | 0 <= i < |all| && 0 <= j < n :: QuietAt(all, start, i, j))
    && (!mutated && n < |all| ==> forall i | 0 <= i < m :: QuietAt(all, start, i, n))
  }

  lemma {:induction false} RoundStep(all: seq<seq<string>>, start: seq<nat>, cur: seq<nat>, mutated: bool, n: nat,
                                     m: nat, cur': seq<nat>, moved: bool)
    requires Round(all, start, cur, mutated, n, m) && n < |all| && m < |all|
    requires |cur'| == |cur| && forall i :: 0 <= i < |all| ==> cur'[i] <= cur[i]
    requires moved == (cur' != cur)
    requires !moved ==> QuietAt(all, cur, m, n)
    ensures Round(all, start, cur', mutated || moved, n, m + 1)
  {
    if cur' == start {
      forall i | 0 <= i < |all| ensures cur'[i] == cur[i] {}
      assert cur' == cur;
    }
  }

  lemma {:induction false} RoundRow(all: seq<seq<string>>, start: seq<nat>, cur: seq<nat>, mutated: bool, n: nat)
    requires Round(all, start, cur, mutated, n, |all|) && n < |all|
    ensures Round(all, start, cur, mutated, n + 1, 0)
  {
  }

  function Lasts(l: seq<ImageName>): (s: seq<nat>)
    ensures |s| == |l| && forall i :: 0 <= i < |l| ==> s[i] == l[i].last
  {
    seq(|l|, i requires 0 <= i < |l| => l[i].last)
  }

  /** One round over all ordered pairs of names. */
  method CompareAll(l: seq<ImageName>, names: seq<string>, ghost cur: seq<nat>)
    returns (names': seq<string>, mutated: bool, ghost cur': seq<nat>)
    requires Good(l, names, cur) && forall i :: 0 <= i < |l| ==> cur[i] < |l[i].parts|
    modifies l
    ensures Good(l, names', cur') && Round(PartsOf(l), cur, cur', mutated, |l|, 0)
  {
    ghost var all := PartsOf(l);
    names', mutated, cur' := names, false, cur;
    for n := 0 to |names|
      invariant Good(l, names', cur')
      invariant Round(all, cur, cur', mutated, n, 0)
    {
      for m := 0 to |names|
        invariant Good(l, names', cur')
        invariant Round(all, cur, cur', mutated, n, m)
      {
        var moved;
        ghost var next;
        names', moved, next := CompareNames(l, names', cur', m, n);
        RoundStep(all, cur, cur', mutated, n, m, next, moved);
        if moved {
          mutated := true;
        }
        cur' := next;
      }
      RoundRow(all, cur, cur', mutated, n);
    }
  }

  method ShortestNames(l: seq<ImageName>) returns (names: seq<string>)
    requires IsCache(l) && forall i :: 0 <= i < |l| ==> l[i].current == l[i].last
    ensures Shown(PartsOf(l), names, Lasts(l))
  {
    names := [];
    for i := 0 to |l|
      invariant |names| == i && forall j :: 0 <= j < i ==> names[j] == Text.Join(l[j].parts[l[j].last..])
    {
      assert l[i].parts[l[i].last..] == [l[i].parts[l[i].last]];
      names := names + [l[i].Shortest()];
    }
  }

  lemma {:induction false} FinalNames(all: seq<seq<string>>, names: seq<string>, cur: seq<nat>)
    requires Shown(all, names, cur) && Justified(all, cur)
    requires forall n, m | 0 <= n < |all| && 0 <= m < |all| :: QuietAt(all, cur, m, n)
    ensures forall i :: 0 <= i < |all| ==> |all[i]| - cur[i] == AliasLength(all, all[i])
    ensures forall i :: 0 <= i < |all| ==> names[i] == Alias(all, all[i])
  {
    QuietRoundIsFinal(all, cur);
    forall i | 0 <= i < |all| ensures names[i] == Alias(all, all[i]) {
      assert Suffix(all[i], |all[i]| - cur[i]) == all[i][cur[i]..];
    }
  }

  /** Lengthens aliases round by round until a round changes nothing. */
  method MakeAliasesForNames(l: seq<ImageName>) returns (names: seq<string>, ghost rounds: nat)
    requires IsCache(l)
    requires forall i :: 0 <= i < |l| ==> l[i].current == l[i].last
    modifies l
    ensures IsCache(l)
    ensures |names| == |l|
    ensures forall i :: 0 <= i < |l| ==> l[i].Length() == AliasLength(PartsOf(l), l[i].parts)
    ensures forall i :: 0 <= i < |l| ==> names[i] == Alias(PartsOf(l), l[i].parts)
    ensures rounds <= 1 + Sum(Lasts(l))
  {
    names := ShortestNames(l);
    rounds := 0;
    ghost var cur := Lasts(l);
    while true
      invariant Good(l, names, cur)
      invariant rounds + Sum(cur) <= Sum(Lasts(l))
      decreases Sum(cur)
    {
      var mutated;
      ghost var next;
      names, mutated, next := CompareAll(l, names, cur);
      SumLess(next, cur);
      rounds := rounds + 1;
      if !mutated {
        FinalNames(PartsOf(l), names, cur);
        break;
      }
      cur := next;
    }
  }
}
