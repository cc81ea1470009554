/** What merging, grouping and relating the images of a list mean (manifest/image/list.go). */
module ImageListSpec {
  import opened Images
  import opened Seqs
  import opened Sorting
  import opened Paths
  import opened AliasSpec
  import opened Wrappers
  import Text

  type Key = (string, string)

  /** Items are merged when they agree on the original reference of their first source and on the digest. */
  function KeyOf(image: Image): Key {
    (if image.sources == [] then "" else image.OriginalRef(), image.digest)
  }

  predicate SameDetails(a: Image, b: Image) {
    && a.originalName == b.originalName && a.originalTag == b.originalTag && a.digest == b.digest
    && a.newName == b.newName && a.newTag == b.newTag
  }

  function SourcesOf(image: Image): seq<Source> {
    image.sources
  }

  function AllSources(images: seq<Image>): seq<Source> {
    FlatMap(images, SourcesOf)
  }

  function CompareSources(a: Source, b: Source): int {
    if Text.Compare(a.manifest, b.manifest) != 0 then Text.Compare(a.manifest, b.manifest)
    else if Text.CompareInt(a.line, b.line) != 0 then Text.CompareInt(a.line, b.line)
    else Text.CompareInt(a.column, b.column)
  }

  lemma {:induction false} SourcesArePreordered(s: seq<Source>)
    ensures TotalPreorder(s, CompareSources)
  {
    forall x, y | x in s && y in s ensures CompareSources(x, y) <= 0 <==> CompareSources(y, x) >= 0 {
      Text.CompareAntisymmetric(x.manifest, y.manifest);
    }
    forall x, y, z | x in s && y in s && z in s && CompareSources(x, y) <= 0 && CompareSources(y, z) <= 0
      ensures CompareSources(x, z) <= 0
    {
      Text.CompareTransitive(x.manifest, y.manifest, z.manifest);
      Text.CompareAntisymmetric(x.manifest, y.manifest);
    }
  }

  /** Sources by manifest, then line, then column. */
  ghost predicate InSourceOrder(s: seq<Source>) {
    forall i, j :: 0 <= i < j < |s| ==>
      && !Text.Before(s[j].manifest, s[i].manifest)
      && (s[i].manifest == s[j].manifest ==> s[i].line <= s[j].line)
      && (s[i].manifest == s[j].manifest && s[i].line == s[j].line ==> s[i].column <= s[j].column)
  }

  lemma {:induction false} SortedSourcesInOrder(s: seq<Source>)
    requires Sorted(s, CompareSources)
    ensures InSourceOrder(s)
  {
    forall i, j | 0 <= i < j < |s|
      ensures !Text.Before(s[j].manifest, s[i].manifest)
      ensures s[i].manifest == s[j].manifest ==> s[i].line <= s[j].line
      ensures s[i].manifest == s[j].manifest && s[i].line == s[j].line ==> s[i].column <= s[j].column
    {
      assert CompareSources(s[i], s[j]) <= 0;
      Text.CompareMeaning(s[i].manifest, s[j].manifest);
    }
  }

  /** `y` stands for all of `xs`: the details of the last of them, the sources of all of them. */
  ghost predicate IsMerge(xs: seq<Image>, y: Image) {
    && xs != [] && SameDetails(xs[|xs| - 1], y)
    && multiset(y.sources) == multiset(AllSources(xs))
  }

  function WithAliases(images: seq<Image>): (r: seq<Image>)
    ensures |r| == |images|
    ensures forall i :: 0 <= i < |r| ==>
      r[i] == images[i].(alias := Some(Alias(NamesOf(images), Text.Split(images[i].originalName))))
  {
    seq(|images|, i requires 0 <= i < |images| =>
      images[i].(alias := Some(Alias(NamesOf(images), Text.Split(images[i].originalName)))))
  }

  lemma {:induction false} WithAliasesIdempotent(images: seq<Image>)
    ensures WithAliases(WithAliases(images)) == WithAliases(images)
  {
    assert NamesOf(WithAliases(images)) == NamesOf(images);
  }

  /** `ks` lists the keys of `images`, each once. */
  ghost predicate ListsKeys(images: seq<Image>, ks: seq<Key>) {
    && NoDuplicates(ks)
    && (forall k :: k in ks ==> WithKey(images, KeyOf, k) != [])
    && (forall x :: x in images ==> KeyOf(x) in ks)
  }

  /** The list `after` holds, in the order of the keys `ks`, one merge of the items of each key. */
  ghost predicate Merged(before: seq<Image>, after: seq<Image>, ks: seq<Key>) {
    && ListsKeys(before, ks)
    && |after| == |ks|
    && (forall i :: 0 <= i < |ks| ==> IsMerge(WithKey(before, KeyOf, ks[i]), after[i]))
    && (forall i :: 0 <= i < |ks| ==> Sorted(after[i].sources, CompareSources))
  }

  ghost predicate Deduped(before: seq<Image>, after: seq<Image>, ks: seq<Key>) {
    Merged(before, after, ks) && after == WithAliases(after)
  }

  lemma {:induction false} MergedThenAliased(before: seq<Image>, after: seq<Image>, ks: seq<Key>)
    requires Merged(before, after, ks)
    ensures Deduped(before, WithAliases(after), ks)
  {
    WithAliasesIdempotent(after);
  }

  /** Two items with the same digest whose first sources have the same original reference. */
  ghost predicate SameReference(x: Image, y: Image) {
    x.sources != [] && y.sources != [] && x.digest == y.digest && x.sources[0].originalRef == y.sources[0].originalRef
  }

  /** The merged item `z` has the names of `x`, and all sources of the items with the same reference as `x`. */
  ghost predicate StandsFor(images: seq<Image>, z: Image, x: Image) {
    && z.originalName == x.originalName && z.originalTag == x.originalTag && z.digest == x.digest
    && z.newName == x.newName && z.newTag == x.newTag
    && (forall s :: s in z.sources <==> exists y :: y in images && SameReference(x, y) && s in y.sources)
    && InSourceOrder(z.sources)
  }

  /** The list `after` has one item for each reference and digest in `before`: it stands for all items with these. */
  ghost predicate MergesReferences(before: seq<Image>, after: seq<Image>) {
    exists reps :: ArePickedFor(before, after, reps)
  }

  ghost predicate ArePickedFor(before: seq<Image>, after: seq<Image>, reps: seq<Image>) {
    && |reps| == |after|
    && (forall i :: 0 <= i < |after| ==> reps[i] in before && StandsFor(before, after[i], reps[i]))
    && (forall i, j :: 0 <= i < j < |reps| ==> !SameReference(reps[i], reps[j]))
    && (forall x :: x in before ==> exists i :: 0 <= i < |reps| && SameReference(reps[i], x))
  }

  /** Each merged item stands for the items of one reference and digest; every item is stood for, and by one only. */
  lemma {:induction false} MergedMeaning(before: seq<Image>, after: seq<Image>, ks: seq<Key>)
    requires Merged(before, after, ks) && forall x :: x in before ==> x.sources != []
    ensures MergesReferences(before, after)
  {
    var reps := seq(|ks|, i requires 0 <= i < |ks| => LastWith(before, ks[i], after[i]));
    RepsStand(before, after, ks, reps);
    RepsCover(before, ks, reps);
    assert ArePickedFor(before, after, reps);
  }

  lemma {:induction false} RepsStand(before: seq<Image>, after: seq<Image>, ks: seq<Key>, reps: seq<Image>)
    requires Merged(before, after, ks) && forall x :: x in before ==> x.sources != []
    requires |reps| == |ks| && forall i :: 0 <= i < |ks| ==> reps[i] == LastWith(before, ks[i], after[i])
    ensures forall i :: 0 <= i < |ks| ==> KeyOf(reps[i]) == ks[i]
    ensures forall i :: 0 <= i < |ks| ==> reps[i] in before && StandsFor(before, after[i], reps[i])
    ensures forall x :: x in reps ==> x.sources != []
  {
    forall i | 0 <= i < |ks|
      ensures reps[i] in before && KeyOf(reps[i]) == ks[i] && StandsFor(before, after[i], reps[i])
    {
      RepStandsFor(before, after, ks, i);
    }
  }

  lemma {:induction false} MergedInOrder(before: seq<Image>, after: seq<Image>, ks: seq<Key>)
    requires Merged(before, after, ks)
    ensures forall x :: x in after ==> InSourceOrder(x.sources)
  {
    forall x | x in after ensures InSourceOrder(x.sources) {
      SortedSourcesInOrder(x.sources);
    }
  }

  /** The last item with a key. */
  function LastWith(images: seq<Image>, k: Key, none: Image): Image {
    var xs := WithKey(images, KeyOf, k);
    if xs == [] then none else xs[|xs| - 1]
  }

  lemma {:induction false} RepsCover(before: seq<Image>, ks: seq<Key>, reps: seq<Image>)
    requires ListsKeys(before, ks) && |reps| == |ks|
    requires forall x :: x in before || x in reps ==> x.sources != []
    requires forall i :: 0 <= i < |ks| ==> KeyOf(reps[i]) == ks[i]
    ensures forall i, j :: 0 <= i < j < |reps| ==> !SameReference(reps[i], reps[j])
    ensures forall x :: x in before ==> exists i :: 0 <= i < |reps| && SameReference(reps[i], x)
  {
    forall x | x in before ensures exists i :: 0 <= i < |reps| && SameReference(reps[i], x) {
      var i :| 0 <= i < |ks| && ks[i] == KeyOf(x);
      assert reps[i] in reps && SameReference(reps[i], x);
    }
    forall i, j | 0 <= i < j < |reps| ensures !SameReference(reps[i], reps[j]) {
      assert KeyOf(reps[i]) != KeyOf(reps[j]);
      assert reps[i] in reps && reps[j] in reps;
    }
  }

  lemma {:induction false} RepStandsFor(before: seq<Image>, after: seq<Image>, ks: seq<Key>, i: nat)
    requires Merged(before, after, ks) && i < |ks| && forall x :: x in before ==> x.sources != []
    ensures var x := LastWith(before, ks[i], after[i]);
      x in before && KeyOf(x) == ks[i] && StandsFor(before, after[i], x)
  {
    var xs := WithKey(before, KeyOf, ks[i]);
    var x := xs[|xs| - 1];
    assert x in xs;
    SortedSourcesInOrder(after[i].sources);
    MergeMembers(before, ks[i], x, after[i]);
  }

  lemma {:induction false} MergeMembers(before: seq<Image>, k: Key, x: Image, z: Image)
    requires IsMerge(WithKey(before, KeyOf, k), z) && x in before && KeyOf(x) == k
    requires forall y :: y in before ==> y.sources != []
    ensures forall s :: s in z.sources <==> exists y :: y in before && SameReference(x, y) && s in y.sources
  {
    var xs := WithKey(before, KeyOf, k);
    SameMembers(z.sources, AllSources(xs));
    FlatMapMembers(xs, SourcesOf);
    forall s ensures s in AllSources(xs) <==> exists y :: y in before && SameReference(x, y) && s in y.sources {
      if y :| y in xs && s in SourcesOf(y) {
        assert SameReference(x, y);
      }
      if y :| y in before && SameReference(x, y) && s in y.sources {
        assert KeyOf(y) == k && y in xs;
        assert s in SourcesOf(y);
      }
    }
  }

  /** The map from keys to merges, after the items `done`. */
  ghost predicate MergesOf(done: seq<Image>, unique: map<Key, Image>) {
    && (forall k :: k in unique <==> WithKey(done, KeyOf, k) != [])
    && (forall k :: k in unique ==> IsMerge(WithKey(done, KeyOf, k), unique[k]))
  }

  lemma {:induction false} WithKeyGrows(done: seq<Image>, x: Image, k: Key)
    ensures WithKey(done + [x], KeyOf, k) == WithKey(done, KeyOf, k) + (if k == KeyOf(x) then [x] else [])
  {
    WithKeyAppend(done, [x], KeyOf, k);
    WithKeyOne(x, KeyOf, k);
  }

  lemma {:induction false} MergeGrows(xs: seq<Image>, sources: seq<Source>, x: Image, y: Image)
    requires multiset(sources) == multiset(AllSources(xs)) && SameDetails(x, y)
    requires y.sources == x.sources + sources
    ensures IsMerge(xs + [x], y)
  {
    FlatMapAppend(xs, [x], SourcesOf);
    FlatMapOne(x, SourcesOf);
  }

  lemma {:induction false} OneMoreMerge(done: seq<Image>, unique: map<Key, Image>, x: Image, y: Image)
    requires MergesOf(done, unique) && SameDetails(x, y)
    requires y.sources == x.sources + (if KeyOf(x) in unique then unique[KeyOf(x)].sources else [])
    ensures MergesOf(done + [x], unique[KeyOf(x) := y])
  {
    var k := KeyOf(x);
    MergeGrows(WithKey(done, KeyOf, k), if k in unique then unique[k].sources else [], x, y);
    var unique' := unique[k := y];
    forall j ensures j in unique' <==> WithKey(done + [x], KeyOf, j) != [] {
      WithKeyGrows(done, x, j);
    }
    forall j | j in unique' ensures IsMerge(WithKey(done + [x], KeyOf, j), unique'[j]) {
      WithKeyGrows(done, x, j);
      assert j != k ==> WithKey(done + [x], KeyOf, j) == WithKey(done, KeyOf, j);
    }
  }

  /** The merges of a map, listed in the order of the keys `ks`, with their sources sorted. */
  ghost predicate Listed(unique: map<Key, Image>, images: seq<Image>, ks: seq<Key>) {
    && NoDuplicates(ks) && |images| == |ks|
    && (forall k :: k in ks <==> k in unique)
    && (forall i :: 0 <= i < |ks| ==> SortedCopy(unique[ks[i]], images[i]))
  }

  ghost predicate SortedCopy(x: Image, y: Image) {
    SameDetails(x, y) && multiset(y.sources) == multiset(x.sources) && Sorted(y.sources, CompareSources)
  }

  lemma {:induction false} ListedIsMerged(before: seq<Image>, unique: map<Key, Image>, images: seq<Image>, ks: seq<Key>)
    requires MergesOf(before, unique) && Listed(unique, images, ks)
    ensures Merged(before, images, ks)
  {
    forall x | x in before ensures KeyOf(x) in ks {
      assert x in WithKey(before, KeyOf, KeyOf(x));
    }
    forall i | 0 <= i < |ks| ensures IsMerge(WithKey(before, KeyOf, ks[i]), images[i]) {
      assert ks[i] in unique && SortedCopy(unique[ks[i]], images[i]);
    }
  }

  /** The details of an item are determined by its key. */
  ghost predicate Consistent(images: seq<Image>) {
    forall x, y :: x in images && y in images && KeyOf(x) == KeyOf(y) ==> SameDetails(x, y)
  }

  /** No two sources of a key are at the same place. */
  ghost predicate PlacedApart(images: seq<Image>) {
    forall k :: AllPlacedApart(AllSources(WithKey(images, KeyOf, k)))
  }

  ghost predicate AllPlacedApart(s: seq<Source>) {
    forall x, y :: x in s && y in s && CompareSources(x, y) == 0 ==> x == y
  }

  /** All sources of an item were found under one reference. */
  ghost predicate Uniform(images: seq<Image>) {
    forall x :: x in images ==> x.sources != [] && UniformItem(x)
  }

  ghost predicate UniformItem(image: Image) {
    forall s :: s in image.sources ==> s.originalRef == KeyOf(image).0
  }

  lemma {:induction false} GroupPermuted(before: seq<Image>, before': seq<Image>, k: Key)
    requires multiset(before) == multiset(before')
    ensures multiset(WithKey(before, KeyOf, k)) == multiset(WithKey(before', KeyOf, k))
  {
    WithKeyPermuted(before, before', KeyOf, k);
  }

  /** The merges of one group, from two permutations of it, are the same up to the alias. */
  lemma {:induction false} MergesAgree(xs: seq<Image>, xs': seq<Image>, y: Image, y': Image)
    requires multiset(xs) == multiset(xs')
    requires forall a, b :: a in xs && b in xs ==> SameDetails(a, b)
    requires AllPlacedApart(AllSources(xs))
    requires IsMerge(xs, y) && IsMerge(xs', y')
    requires Sorted(y.sources, CompareSources) && Sorted(y'.sources, CompareSources)
    ensures SameDetails(y, y') && y.sources == y'.sources
  {
    LastsAgree(xs, xs');
    FlatMapPermuted(xs, xs', SourcesOf);
    SourcesAgree(AllSources(xs), y.sources, y'.sources);
  }

  lemma {:induction false} LastsAgree(xs: seq<Image>, xs': seq<Image>)
    requires multiset(xs) == multiset(xs') && xs != [] && xs' != []
    requires forall a, b :: a in xs && b in xs ==> SameDetails(a, b)
    ensures SameDetails(xs[|xs| - 1], xs'[|xs'| - 1])
  {
    SameMembers(xs, xs');
    assert xs[|xs| - 1] in xs && xs'[|xs'| - 1] in xs;
  }

  lemma {:induction false} SourcesAgree(all: seq<Source>, s: seq<Source>, t: seq<Source>)
    requires multiset(s) == multiset(t) == multiset(all) && AllPlacedApart(all)
    requires Sorted(s, CompareSources) && Sorted(t, CompareSources)
    ensures s == t
  {
    SourcesArePreordered(s);
    SameMembers(s, all);
    SortedUnique(s, t, CompareSources);
  }

  lemma {:induction false} SameNames(a: seq<Image>, ks: seq<Key>, b: seq<Image>, ls: seq<Key>)
    requires |a| == |ks| && |b| == |ls| && (forall k :: k in ks ==> k in ls)
    requires forall i, j | 0 <= i < |ks| && 0 <= j < |ls| && ks[i] == ls[j] :: SameDetails(a[i], b[j])
    ensures forall q :: q in NamesOf(a) ==> q in NamesOf(b)
  {
    forall q | q in NamesOf(a) ensures q in NamesOf(b) {
      var i :| 0 <= i < |a| && NamesOf(a)[i] == q;
      assert ks[i] in ls;
      var j :| 0 <= j < |ls| && ls[j] == ks[i];
      assert NamesOf(b)[j] == q;
    }
  }

  lemma {:induction false} SameKeys(before: seq<Image>, ks: seq<Key>, before': seq<Image>, ks': seq<Key>)
    requires ListsKeys(before, ks) && ListsKeys(before', ks')
    requires multiset(before) == multiset(before')
    ensures forall k :: k in ks <==> k in ks'
  {
    SameMembers(before, before');
    forall k ensures k in ks <==> k in ks' {
      if k in ks { assert WithKey(before, KeyOf, k)[0] in before'; }
      if k in ks' { assert WithKey(before', KeyOf, k)[0] in before; }
    }
  }

  lemma {:induction false} DedupItemsAgree(before: seq<Image>, after: seq<Image>, ks: seq<Key>,
                        before': seq<Image>, after': seq<Image>, ks': seq<Key>, i: nat, j: nat)
    requires Deduped(before, after, ks) && Deduped(before', after', ks')
    requires multiset(before) == multiset(before') && Consistent(before) && PlacedApart(before)
    requires i < |ks| && j < |ks'| && ks[i] == ks'[j]
    ensures SameDetails(after[i], after'[j]) && after[i].sources == after'[j].sources
  {
    var xs, xs' := WithKey(before, KeyOf, ks[i]), WithKey(before', KeyOf, ks[i]);
    GroupPermuted(before, before', ks[i]);
    assert AllPlacedApart(AllSources(xs));
    MergesAgree(xs, xs', after[i], after'[j]);
  }

  lemma {:induction false} AliasesAgree(after: seq<Image>, after': seq<Image>, i: nat, j: nat)
    requires i < |after| && j < |after'|
    requires after == WithAliases(after) && after' == WithAliases(after')
    requires forall q :: q in NamesOf(after) <==> q in NamesOf(after')
    requires SameDetails(after[i], after'[j]) && after[i].sources == after'[j].sources
    ensures after[i] == after'[j]
  {
    AliasOfSameNames(NamesOf(after), NamesOf(after'), Text.Split(after[i].originalName));
    assert after[i] == WithAliases(after)[i] && after'[j] == WithAliases(after')[j];
  }

  /** The result does not depend on the order of the items, nor on the order in which a map is ranged over. */
  lemma {:induction false} DedupCanonical(before: seq<Image>, after: seq<Image>, ks: seq<Key>,
                       before': seq<Image>, after': seq<Image>, ks': seq<Key>)
    requires Deduped(before, after, ks) && Deduped(before', after', ks')
    requires multiset(before) == multiset(before') && Consistent(before) && PlacedApart(before)
    ensures multiset(after) == multiset(after')
  {
    SameKeys(before, ks, before', ks');
    forall i, j | 0 <= i < |ks| && 0 <= j < |ks'| && ks[i] == ks'[j]
      ensures SameDetails(after[i], after'[j]) && after[i].sources == after'[j].sources
    {
      DedupItemsAgree(before, after, ks, before', after', ks', i, j);
    }
    SameNames(after, ks, after', ks');
    SameNames(after', ks', after, ks);
    forall i, j | 0 <= i < |ks| && 0 <= j < |ks'| && ks[i] == ks'[j] ensures after[i] == after'[j] {
      AliasesAgree(after, after', i, j);
    }
    PairedPermuted(ks, after, ks', after');
  }

  lemma {:induction false} MergeIsUniform(xs: seq<Image>, y: Image, k: Key)
    requires IsMerge(xs, y) && Uniform(xs) && forall x :: x in xs ==> KeyOf(x) == k
    ensures y.sources != [] && UniformItem(y) && KeyOf(y) == k
  {
    assert xs[0] in xs && xs[|xs| - 1] in xs;
    SameMembers(y.sources, AllSources(xs));
    FlatMapMembers(xs, SourcesOf);
    assert xs[0].sources[0] in SourcesOf(xs[0]);
    assert xs[0].sources[0] in y.sources;
    forall s | s in y.sources ensures s.originalRef == k.0 {
      var x :| x in xs && s in SourcesOf(x);
    }
    assert y.sources[0] in y.sources;
  }

  /** The merged list has one item for each key, under that key. */
  lemma {:induction false} DedupKeys(before: seq<Image>, after: seq<Image>, ks: seq<Key>)
    requires Deduped(before, after, ks) && Uniform(before)
    ensures Uniform(after) && forall i :: 0 <= i < |ks| ==> KeyOf(after[i]) == ks[i]
  {
    forall i | 0 <= i < |ks|
      ensures after[i].sources != [] && UniformItem(after[i]) && KeyOf(after[i]) == ks[i]
    {
      MergeIsUniform(WithKey(before, KeyOf, ks[i]), after[i], ks[i]);
    }
  }

  lemma {:induction false} LastWithKey(before: seq<Image>, x: Image)
    ensures var xs := WithKey(before + [x], KeyOf, KeyOf(x)); xs != [] && xs[|xs| - 1] == x
  {
    WithKeyGrows(before, x, KeyOf(x));
  }

  lemma {:induction false} KeyIsListed(before: seq<Image>, x: Image, ks: seq<Key>) returns (i: nat)
    requires ListsKeys(before + [x], ks)
    ensures i < |ks| && ks[i] == KeyOf(x)
  {
    assert (before + [x])[|before|] == x;
    i :| 0 <= i < |ks| && ks[i] == KeyOf(x);
  }

  lemma {:induction false} MergeEndsWith(xs: seq<Image>, x: Image, y: Image)
    requires IsMerge(xs, y) && xs != [] && xs[|xs| - 1] == x
    ensures SameDetails(y, x)
  {
  }

  /** The merge of a key takes its details from the last item with that key. */
  lemma {:induction false} LastItemDecides(before: seq<Image>, x: Image, after: seq<Image>, ks: seq<Key>)
    returns (i: nat)
    requires Deduped(before + [x], after, ks)
    ensures i < |ks| == |after| && ks[i] == KeyOf(x) && SameDetails(after[i], x)
  {
    i := KeyIsListed(before, x, ks);
    LastWithKey(before, x);
    MergeEndsWith(WithKey(before + [x], KeyOf, ks[i]), x, after[i]);
  }

  /** Nor does the sorting choose: two differing sources of a key at one place leave two differing results. */
  lemma {:induction false} TiedSourcesLeaveAChoice(before: seq<Image>, after: seq<Image>, ks: seq<Key>,
                                                   k: Key, x: Source, y: Source)
    returns (after': seq<Image>)
    requires Deduped(before, after, ks) && x != y && CompareSources(x, y) == 0
    requires x in AllSources(WithKey(before, KeyOf, k)) && y in AllSources(WithKey(before, KeyOf, k))
    ensures Deduped(before, after', ks) && multiset(after') != multiset(after)
  {
    var i := SourceHasKey(before, ks, k, x);
    var t := OtherOrder(AllSources(WithKey(before, KeyOf, k)), after[i].sources, x, y);
    after' := Resorted(after, i, t);
    ResortedIsMerged(before, after, ks, i, t);
    ResortedIsAliased(after, i, t);
    UpdateShows(after, i, after[i].(sources := t));
  }

  lemma {:induction false} SourceHasKey(before: seq<Image>, ks: seq<Key>, k: Key, x: Source) returns (i: nat)
    requires ListsKeys(before, ks) && x in AllSources(WithKey(before, KeyOf, k))
    ensures i < |ks| && ks[i] == k
  {
    FlatMapMembers(WithKey(before, KeyOf, k), SourcesOf);
    var z :| z in WithKey(before, KeyOf, k) && x in SourcesOf(z);
    assert KeyOf(z) in ks;
    i :| 0 <= i < |ks| && ks[i] == k;
  }

  /** The list with another order of the sources of one item. */
  function Resorted(images: seq<Image>, i: nat, sources: seq<Source>): seq<Image>
    requires i < |images|
  {
    images[i := images[i].(sources := sources)]
  }

  lemma {:induction false} ResortedIsMerged(before: seq<Image>, after: seq<Image>, ks: seq<Key>,
                                            i: nat, t: seq<Source>)
    requires Merged(before, after, ks) && i < |ks| && Sorted(t, CompareSources)
    requires multiset(t) == multiset(AllSources(WithKey(before, KeyOf, ks[i])))
    ensures Merged(before, Resorted(after, i, t), ks)
  {
  }

  lemma {:induction false} AliasedMeans(images: seq<Image>)
    ensures images == WithAliases(images) <==>
            forall j :: 0 <= j < |images| ==> images[j].alias == WithAliases(images)[j].alias
  {
  }

  lemma {:induction false} AliasesOfSameNames(images: seq<Image>, images': seq<Image>)
    requires |images| == |images'|
    requires forall j :: 0 <= j < |images| ==> images[j].originalName == images'[j].originalName
    ensures forall j :: 0 <= j < |images| ==> WithAliases(images)[j].alias == WithAliases(images')[j].alias
  {
    assert NamesOf(images') == NamesOf(images);
  }

  lemma {:induction false} ResortedIsAliased(images: seq<Image>, i: nat, t: seq<Source>)
    requires i < |images| && images == WithAliases(images)
    ensures Resorted(images, i, t) == WithAliases(Resorted(images, i, t))
  {
    AliasedMeans(images);
    AliasesOfSameNames(images, Resorted(images, i, t));
    AliasedMeans(Resorted(images, i, t));
  }

  lemma {:induction false} OtherOrder(all: seq<Source>, s: seq<Source>, x: Source, y: Source) returns (t: seq<Source>)
    requires multiset(s) == multiset(all) && Sorted(s, CompareSources)
    requires x in all && y in all && x != y && CompareSources(x, y) == 0
    ensures multiset(t) == multiset(all) && Sorted(t, CompareSources) && t != s
  {
    SourcesArePreordered(s);
    SameMembers(s, all);
    var i :| 0 <= i < |s| && s[i] == x;
    var j :| 0 <= j < |s| && s[j] == y;
    TieBothWays(x, y);
    var p, q := if i < j then i else j, if i < j then j else i;
    TiedCanSwap(s, CompareSources, p, q);
    t := s[p := s[q]][q := s[p]];
    assert t[p] != s[p];
  }

  lemma {:induction false} TieBothWays(x: Source, y: Source)
    requires CompareSources(x, y) == 0
    ensures CompareSources(y, x) == 0
  {
  }

  lemma {:induction false} OnePerKey(images: seq<Image>, ks: seq<Key>, j: nat, x: Image)
    requires |images| == |ks| && NoDuplicates(ks) && forall i :: 0 <= i < |ks| ==> KeyOf(images[i]) == ks[i]
    requires j < |ks| && x in images && KeyOf(x) == ks[j]
    ensures x == images[j]
  {
    var m :| 0 <= m < |images| && images[m] == x;
  }

  /** Conversely, when two items of one key differ in their details, the order of the items shows:
      the result with the one item last is not the result with the other item last. */
  lemma {:induction false} OrderShowsConflicts(before: seq<Image>, x: Image, after: seq<Image>, ks: seq<Key>,
                                               before': seq<Image>, y: Image, after': seq<Image>, ks': seq<Key>)
    requires Deduped(before + [x], after, ks) && Deduped(before' + [y], after', ks')
    requires Uniform(before + [x]) && Uniform(before' + [y])
    requires KeyOf(x) == KeyOf(y) && !SameDetails(x, y)
    ensures multiset(after) != multiset(after')
  {
    var i := LastItemDecides(before, x, after, ks);
    var j := LastItemDecides(before', y, after', ks');
    DedupKeys(before + [x], after, ks);
    DedupKeys(before' + [y], after', ks');
    if multiset(after) == multiset(after') {
      SameMembers(after, after');
      assert after[i] in after';
      OnePerKey(after', ks', j, after[i]);
    }
  }

  /** Distinct keys make every group a single item. */
  lemma {:induction false} AloneWithKey(images: seq<Image>, i: nat)
    requires i < |images| && NoDuplicates(Map(images, KeyOf))
    ensures WithKey(images, KeyOf, KeyOf(images[i])) == [images[i]]
  {
    var k := KeyOf(images[i]);
    var a, b := images[..i], images[i + 1..];
    assert images == a + ([images[i]] + b);
    WithKeyAppend(a, [images[i]] + b, KeyOf, k);
    WithKeyAppend([images[i]], b, KeyOf, k);
    WithKeyOne(images[i], KeyOf, k);
    OthersDiffer(images, i);
    NoneWithKey(a, k);
    NoneWithKey(b, k);
  }

  lemma {:induction false} OthersDiffer(images: seq<Image>, i: nat)
    requires i < |images| && NoDuplicates(Map(images, KeyOf))
    ensures forall x :: x in images[..i] || x in images[i + 1..] ==> KeyOf(x) != KeyOf(images[i])
  {
    var ms := Map(images, KeyOf);
    forall x | x in images[..i] || x in images[i + 1..] ensures KeyOf(x) != KeyOf(images[i]) {
      if x in images[..i] {
        var j :| 0 <= j < i && images[j] == x;
        assert ms[j] != ms[i];
      } else {
        var j :| i < j < |images| && images[j] == x;
        assert ms[j] != ms[i];
      }
    }
  }

  lemma {:induction false} NoneWithKey(images: seq<Image>, k: Key)
    requires forall x :: x in images ==> KeyOf(x) != k
    ensures WithKey(images, KeyOf, k) == []
  {
    HasMember(WithKey(images, KeyOf, k));
  }

  /** A merged list is a merge of itself: merging it again changes nothing but, perhaps, the order. */
  lemma {:induction false} DedupFixpoint(before: seq<Image>, after: seq<Image>, ks: seq<Key>)
    requires Deduped(before, after, ks) && Uniform(before)
    ensures Deduped(after, after, ks) && Consistent(after)
  {
    DedupKeys(before, after, ks);
    assert Map(after, KeyOf) == ks;
    SelfDeduped(after, ks);
  }

  lemma {:induction false} SelfDeduped(images: seq<Image>, ks: seq<Key>)
    requires NoDuplicates(ks) && ks == Map(images, KeyOf)
    requires forall i :: 0 <= i < |images| ==> Sorted(images[i].sources, CompareSources)
    requires images == WithAliases(images)
    ensures Deduped(images, images, ks) && Consistent(images)
  {
    DistinctIsConsistent(images);
    forall i | 0 <= i < |ks| ensures IsMerge(WithKey(images, KeyOf, ks[i]), images[i]) {
      MergeOfItself(images, i);
    }
    OwnKeysListed(images);
  }

  lemma {:induction false} OwnKeysListed(images: seq<Image>)
    requires NoDuplicates(Map(images, KeyOf))
    ensures ListsKeys(images, Map(images, KeyOf))
  {
    var ks := Map(images, KeyOf);
    DistinctIsConsistent(images);
    forall k | k in ks ensures WithKey(images, KeyOf, k) != [] {
      var i :| 0 <= i < |ks| && ks[i] == k;
      AloneWithKey(images, i);
    }
  }

  lemma {:induction false} MergeOfItself(images: seq<Image>, i: nat)
    requires i < |images| && NoDuplicates(Map(images, KeyOf))
    ensures IsMerge(WithKey(images, KeyOf, KeyOf(images[i])), images[i])
  {
    AloneWithKey(images, i);
    FlatMapOne(images[i], SourcesOf);
  }

  lemma {:induction false} DistinctIsConsistent(images: seq<Image>)
    requires NoDuplicates(Map(images, KeyOf))
    ensures Consistent(images)
    ensures forall x :: x in images ==> KeyOf(x) in Map(images, KeyOf)
  {
    forall x | x in images ensures KeyOf(x) in Map(images, KeyOf) {
      MapMember(images, KeyOf, x);
    }
    forall x, y | x in images && y in images && KeyOf(x) == KeyOf(y) ensures SameDetails(x, y) {
      MapSeparates(images, KeyOf, x, y);
    }
  }

  lemma {:induction false} MergeStaysApart(xs: seq<Image>, y: Image)
    requires IsMerge(xs, y) && AllPlacedApart(AllSources(xs))
    ensures AllPlacedApart(AllSources([y]))
  {
    FlatMapOne(y, SourcesOf);
    SameMembers(y.sources, AllSources(xs));
  }

  lemma {:induction false} PlacedAfterDedup(before: seq<Image>, after: seq<Image>, ks: seq<Key>, k: Key)
    requires Deduped(before, after, ks) && PlacedApart(before)
    requires Map(after, KeyOf) == ks
    ensures AllPlacedApart(AllSources(WithKey(after, KeyOf, k)))
  {
    if k in ks {
      var i :| 0 <= i < |ks| && ks[i] == k;
      AloneWithKey(after, i);
      assert AllPlacedApart(AllSources(WithKey(before, KeyOf, k)));
      MergeStaysApart(WithKey(before, KeyOf, k), after[i]);
    } else {
      forall x | x in after ensures KeyOf(x) != k {
        var i :| 0 <= i < |after| && after[i] == x;
        assert ks[i] == KeyOf(x);
      }
      NoneWithKey(after, k);
    }
  }

  lemma {:induction false} DedupIdempotent(before: seq<Image>, after: seq<Image>, ks: seq<Key>, again: seq<Image>,
                                           ks': seq<Key>)
    requires Deduped(before, after, ks) && Uniform(before) && PlacedApart(before)
    requires Deduped(after, again, ks')
    ensures multiset(again) == multiset(after)
  {
    DedupFixpoint(before, after, ks);
    DedupKeys(before, after, ks);
    assert Map(after, KeyOf) == ks;
    forall k ensures AllPlacedApart(AllSources(WithKey(after, KeyOf, k))) {
      PlacedAfterDedup(before, after, ks, k);
    }
    DedupCanonical(after, after, ks, after, again, ks');
  }

  /** An image that keeps one source only. */
  function Single(image: Image, source: Source): Image {
    Image([source], image.originalName, image.originalTag, image.digest, image.newName, image.newTag, None)
  }

  predicate InManifest(dir: string, path: string, source: Source) {
    FilepathJoin(dir, source.manifest) == path
  }

  /** The single-source images that one image contributes to the manifest at `path`. */
  function Contribution(dir: string, path: string, image: Image, sources: seq<Source>): seq<Image> {
    FlatMap(sources, s => if InManifest(dir, path, s) then [Single(image, s)] else [])
  }

  /** The group of the manifest at `path`: one single-source image for each source there, in order. */
  function GroupOf(dir: string, path: string, images: seq<Image>): seq<Image> {
    FlatMap(images, (x: Image) => Contribution(dir, path, x, x.sources))
  }

  lemma {:induction false} ContributionAppend(dir: string, path: string, image: Image, s: seq<Source>, t: seq<Source>)
    ensures Contribution(dir, path, image, s + t) ==
      Contribution(dir, path, image, s) + Contribution(dir, path, image, t)
  {
    FlatMapAppend(s, t, x => if InManifest(dir, path, x) then [Single(image, x)] else []);
  }

  /** A single-source image with the names of its item and no alias yet. */
  ghost predicate Keeps(y: Image, x: Image, s: Source) {
    && y.sources == [s] && y.alias == None
    && y.originalName == x.originalName && y.originalTag == x.originalTag && y.digest == x.digest
    && y.newName == x.newName && y.newTag == x.newTag
  }

  /** The images keep the item and its sources at these places, in order. */
  ghost predicate KeepSources(image: Image, sources: seq<Source>, at: seq<nat>, images: seq<Image>) {
    && |images| == |at| && (forall i, j :: 0 <= i < j < |at| ==> at[i] < at[j])
    && (forall i :: 0 <= i < |at| ==> at[i] < |sources| && Keeps(images[i], image, sources[at[i]]))
  }

  ghost predicate AreInManifest(dir: string, path: string, sources: seq<Source>, at: seq<nat>) {
    forall i :: i in at <==> 0 <= i < |sources| && FilepathJoin(dir, sources[i].manifest) == path
  }

  lemma {:induction false} ContributionMeaning(dir: string, path: string, image: Image, sources: seq<Source>)
    returns (at: seq<nat>)
    ensures KeepSources(image, sources, at, Contribution(dir, path, image, sources))
    ensures AreInManifest(dir, path, sources, at)
    decreases |sources|
  {
    if sources == [] {
      at := [];
    } else {
      var n := |sources| - 1;
      at := ContributionMeaning(dir, path, image, sources[..n]);
      var front := Contribution(dir, path, image, sources[..n]);
      ContributionOneMore(dir, path, image, sources);
      if InManifest(dir, path, sources[n]) {
        KeepOneMore(dir, path, image, sources, at, front);
        at := at + [n];
      } else {
        KeepNoMore(dir, path, image, sources, at, front);
      }
    }
  }

  lemma {:induction false} ContributionOneMore(dir: string, path: string, image: Image, sources: seq<Source>)
    requires sources != []
    ensures var n := |sources| - 1;
      Contribution(dir, path, image, sources) ==
      Contribution(dir, path, image, sources[..n])
      + (if InManifest(dir, path, sources[n]) then [Single(image, sources[n])] else [])
  {
    var n := |sources| - 1;
    PrefixGrows(sources, n);
    WholePrefix(sources);
    ContributionAppend(dir, path, image, sources[..n], [sources[n]]);
    ContributionOne(dir, path, image, sources[n]);
  }

  lemma {:induction false} KeepOneMore(dir: string, path: string, image: Image, sources: seq<Source>,
                                       at: seq<nat>, front: seq<Image>)
    requires sources != []
    requires var n := |sources| - 1;
      && KeepSources(image, sources[..n], at, front) && AreInManifest(dir, path, sources[..n], at)
      && InManifest(dir, path, sources[n])
    ensures var n := |sources| - 1;
      && KeepSources(image, sources, at + [n], front + [Single(image, sources[n])])
      && AreInManifest(dir, path, sources, at + [n])
  {
    var n := |sources| - 1;
    KeepSourcesGrow(image, sources, at, front, Single(image, sources[n]));
    ManifestGrows(dir, path, sources, at);
  }

  lemma {:induction false} KeepSourcesGrow(image: Image, sources: seq<Source>, at: seq<nat>, front: seq<Image>,
                                           y: Image)
    requires sources != [] && KeepSources(image, sources[..|sources| - 1], at, front)
    requires Keeps(y, image, sources[|sources| - 1])
    ensures KeepSources(image, sources, at + [|sources| - 1], front + [y])
  {
    var n := |sources| - 1;
    var at', front' := at + [n], front + [y];
    forall i | 0 <= i < |at'| ensures at'[i] < |sources| && Keeps(front'[i], image, sources[at'[i]]) {
      if i < |at| {
        assert sources[..n][at[i]] == sources[at[i]];
      }
    }
  }

  lemma {:induction false} ManifestGrows(dir: string, path: string, sources: seq<Source>, at: seq<nat>)
    requires sources != [] && InManifest(dir, path, sources[|sources| - 1])
    requires AreInManifest(dir, path, sources[..|sources| - 1], at)
    ensures AreInManifest(dir, path, sources, at + [|sources| - 1])
  {
    var n := |sources| - 1;
    forall i ensures i in at + [n] <==> 0 <= i < |sources| && FilepathJoin(dir, sources[i].manifest) == path {
      assert i in at + [n] <==> i in at || i == n;
      if 0 <= i < n {
        assert sources[..n][i] == sources[i];
      }
    }
  }

  lemma {:induction false} KeepNoMore(dir: string, path: string, image: Image, sources: seq<Source>,
                                      at: seq<nat>, front: seq<Image>)
    requires sources != []
    requires var n := |sources| - 1;
      && KeepSources(image, sources[..n], at, front) && AreInManifest(dir, path, sources[..n], at)
      && !InManifest(dir, path, sources[n])
    ensures KeepSources(image, sources, at, front) && AreInManifest(dir, path, sources, at)
  {
  }

  /** A place in a list: an item and one of its sources. */
  datatype Place = Place(item: nat, source: nat)

  ghost predicate IsPlace(dir: string, path: string, images: seq<Image>, p: Place) {
    && p.item < |images| && p.source < |images[p.item].sources|
    && FilepathJoin(dir, images[p.item].sources[p.source].manifest) == path
  }

  ghost predicate InPlaceOrder(at: seq<Place>) {
    forall i, j :: 0 <= i < j < |at| ==>
      at[i].item < at[j].item || (at[i].item == at[j].item && at[i].source < at[j].source)
  }

  /** The images come from these places, one each. */
  ghost predicate KeepPlaces(images: seq<Image>, at: seq<Place>, group: seq<Image>) {
    |group| == |at| && forall i :: 0 <= i < |at| ==> KeepsPlace(images, at[i], group[i])
  }

  ghost predicate KeepsPlace(images: seq<Image>, p: Place, y: Image) {
    && p.item < |images| && p.source < |images[p.item].sources|
    && Keeps(y, images[p.item], images[p.item].sources[p.source])
  }

  /** The group has one image for each place of the manifest in the list, in order. */
  ghost predicate HoldsPlaces(dir: string, path: string, images: seq<Image>, group: seq<Image>) {
    exists at ::
      InPlaceOrder(at) && (forall p :: p in at <==> IsPlace(dir, path, images, p)) && KeepPlaces(images, at, group)
  }

  /** A group holds one image for each source in the manifest, in the order of items and sources. */
  lemma {:induction false} GroupMeaning(dir: string, path: string, images: seq<Image>) returns (at: seq<Place>)
    ensures InPlaceOrder(at) && KeepPlaces(images, at, GroupOf(dir, path, images))
    ensures forall p :: p in at <==> IsPlace(dir, path, images, p)
    decreases |images|
  {
    if images == [] {
      at := [];
    } else {
      var n := |images| - 1;
      var front := GroupMeaning(dir, path, images[..n]);
      var js := ContributionMeaning(dir, path, images[n], images[n].sources);
      var back := seq(|js|, i requires 0 <= i < |js| => Place(n, js[i]));
      GroupOneMore(dir, path, images);
      PlacesGrow(dir, path, images, front, js, back);
      KeepPlacesGrow(images, front, GroupOf(dir, path, images[..n]), js, back,
                     Contribution(dir, path, images[n], images[n].sources));
      at := front + back;
    }
  }

  lemma {:induction false} KeepPlacesGrow(images: seq<Image>, front: seq<Place>, group: seq<Image>,
                                          js: seq<nat>, back: seq<Place>, more: seq<Image>)
    requires images != [] && KeepPlaces(images[..|images| - 1], front, group)
    requires KeepSources(images[|images| - 1], images[|images| - 1].sources, js, more)
    requires |back| == |js| && forall i :: 0 <= i < |js| ==> back[i] == Place(|images| - 1, js[i])
    ensures KeepPlaces(images, front + back, group + more)
  {
    forall i | 0 <= i < |front + back|
      ensures KeepsPlace(images, (front + back)[i], (group + more)[i])
    {
      if i < |front| {
        assert KeepsPlace(images[..|images| - 1], front[i], group[i]);
      } else {
        assert back[i - |front|] == Place(|images| - 1, js[i - |front|]);
      }
    }
  }

  lemma {:induction false} GroupHoldsPlaces(dir: string, path: string, images: seq<Image>)
    ensures HoldsPlaces(dir, path, images, GroupOf(dir, path, images))
    ensures GroupOf(dir, path, images) != [] <==> exists p :: IsPlace(dir, path, images, p)
  {
    var at := GroupMeaning(dir, path, images);
    if at != [] {
      assert at[0] in at;
    }
  }

  lemma {:induction false} GroupOneMore(dir: string, path: string, images: seq<Image>)
    requires images != []
    ensures var n := |images| - 1;
      GroupOf(dir, path, images) ==
      GroupOf(dir, path, images[..n]) + Contribution(dir, path, images[n], images[n].sources)
  {
    var n := |images| - 1;
    PrefixGrows(images, n);
    WholePrefix(images);
    GroupAppend(dir, path, images[..n], [images[n]]);
    FlatMapOne(images[n], (x: Image) => Contribution(dir, path, x, x.sources));
  }

  lemma {:induction false} PlacesGrow(dir: string, path: string, images: seq<Image>, front: seq<Place>,
                                      js: seq<nat>, back: seq<Place>)
    requires images != [] && InPlaceOrder(front)
    requires forall p :: p in front <==> IsPlace(dir, path, images[..|images| - 1], p)
    requires forall i, j :: 0 <= i < j < |js| ==> js[i] < js[j]
    requires AreInManifest(dir, path, images[|images| - 1].sources, js)
    requires |back| == |js| && forall i :: 0 <= i < |js| ==> back[i] == Place(|images| - 1, js[i])
    ensures InPlaceOrder(front + back)
    ensures forall p :: p in front + back <==> IsPlace(dir, path, images, p)
  {
    var n := |images| - 1;
    forall p ensures p in back <==> p.item == n && p.source in js {
      if p.item == n && p.source in js {
        var k :| 0 <= k < |js| && js[k] == p.source;
        assert back[k] == p;
      }
    }
    forall k | 0 <= k < |front| ensures front[k].item < n {
      assert front[k] in front;
    }
    forall p ensures IsPlace(dir, path, images, p) <==>
      if p.item == n then p.source in js else IsPlace(dir, path, images[..n], p)
    {
    }
  }

  lemma {:induction false} ContributionPermuted(dir: string, path: string, image: Image, s: seq<Source>, t: seq<Source>)
    requires multiset(s) == multiset(t)
    ensures multiset(Contribution(dir, path, image, s)) == multiset(Contribution(dir, path, image, t))
  {
    FlatMapPermuted(s, t, x => if InManifest(dir, path, x) then [Single(image, x)] else []);
  }

  lemma {:induction false} ContributionSame(dir: string, path: string, x: Image, y: Image, s: seq<Source>)
    requires SameDetails(x, y)
    ensures Contribution(dir, path, x, s) == Contribution(dir, path, y, s)
  {
    if s != [] {
      ContributionSame(dir, path, x, y, s[1..]);
      assert Single(x, s[0]) == Single(y, s[0]);
    }
  }

  lemma {:induction false} GroupAppend(dir: string, path: string, a: seq<Image>, b: seq<Image>)
    ensures GroupOf(dir, path, a + b) == GroupOf(dir, path, a) + GroupOf(dir, path, b)
  {
    FlatMapAppend(a, b, (x: Image) => Contribution(dir, path, x, x.sources));
  }

  /** Items with the same details contribute what one of them would with all their sources. */
  lemma {:induction false} GroupOfSameDetails(dir: string, path: string, xs: seq<Image>, y: Image)
    requires forall x :: x in xs ==> SameDetails(x, y)
    ensures GroupOf(dir, path, xs) == Contribution(dir, path, y, AllSources(xs))
  {
    if xs != [] {
      GroupOfSameDetails(dir, path, xs[1..], y);
      ContributionSame(dir, path, xs[0], y, xs[0].sources);
      ContributionAppend(dir, path, y, xs[0].sources, AllSources(xs[1..]));
    }
  }

  /** What a group holds after the items `done` and the sources `s` of one more item. */
  function Content(dir: string, path: string, done: seq<Image>, item: Image, s: seq<Source>): seq<Image> {
    GroupOf(dir, path, done) + Contribution(dir, path, item, s)
  }

  lemma {:induction false} ContentGrows(dir: string, path: string, done: seq<Image>, item: Image, s: seq<Source>,
                                        x: Source)
    ensures Content(dir, path, done, item, s + [x]) ==
            Content(dir, path, done, item, s) + (if InManifest(dir, path, x) then [Single(item, x)] else [])
  {
    ContributionAppend(dir, path, item, s, [x]);
    ContributionOne(dir, path, item, x);
    Regrouped(GroupOf(dir, path, done), Contribution(dir, path, item, s), Contribution(dir, path, item, [x]));
  }

  lemma {:induction false} ContributionOne(dir: string, path: string, item: Image, x: Source)
    ensures Contribution(dir, path, item, [x]) == if InManifest(dir, path, x) then [Single(item, x)] else []
  {
    FlatMapOne(x, (s: Source) => if InManifest(dir, path, s) then [Single(item, s)] else []);
  }

  lemma {:induction false} ContentOfItem(dir: string, path: string, done: seq<Image>, item: Image)
    ensures Content(dir, path, done, item, item.sources) == GroupOf(dir, path, done + [item])
  {
    GroupAppend(dir, path, done, [item]);
    FlatMapOne(item, (x: Image) => Contribution(dir, path, x, x.sources));
  }

  /** The groups of all manifests after the items `done` and the sources `s` of one more item. */
  ghost predicate IsGrouping(dir: string, view: map<string, seq<Image>>, done: seq<Image>, item: Image, s: seq<Source>)
  {
    forall p ::
      && (p in view <==> Content(dir, p, done, item, s) != [])
      && (p in view ==> view[p] == Content(dir, p, done, item, s))
  }

  function WithMember(view: map<string, seq<Image>>, path: string, image: Image): map<string, seq<Image>> {
    view[path := (if path in view then view[path] else []) + [image]]
  }

  lemma {:induction false} GroupingStep(dir: string, view: map<string, seq<Image>>,
                                        done: seq<Image>, item: Image, s: seq<Source>, x: Source)
    requires IsGrouping(dir, view, done, item, s)
    ensures IsGrouping(dir, WithMember(view, FilepathJoin(dir, x.manifest), Single(item, x)), done, item, s + [x])
  {
    forall p ensures Content(dir, p, done, item, s + [x]) ==
      Content(dir, p, done, item, s) + (if InManifest(dir, p, x) then [Single(item, x)] else [])
    {
      ContentGrows(dir, p, done, item, s, x);
    }
  }

  lemma {:induction false} GroupingItem(dir: string, view: map<string, seq<Image>>, done: seq<Image>, item: Image,
                                        next: Image)
    requires IsGrouping(dir, view, done, item, item.sources)
    ensures IsGrouping(dir, view, done + [item], next, [])
  {
    forall p ensures Content(dir, p, done, item, item.sources) == Content(dir, p, done + [item], next, []) {
      ContentOfItem(dir, p, done, item);
    }
  }

  lemma {:induction false} GroupingStart(dir: string, view: map<string, seq<Image>>, done: seq<Image>, item: Image,
                                         next: Image)
    requires IsGrouping(dir, view, done, item, [])
    ensures IsGrouping(dir, view, done, next, [])
  {
    forall p ensures Content(dir, p, done, item, []) == Content(dir, p, done, next, []) {}
  }

  lemma {:induction false} GroupingDone(dir: string, view: map<string, seq<Image>>, done: seq<Image>, item: Image)
    requires IsGrouping(dir, view, done, item, [])
    ensures forall p :: p in view <==> GroupOf(dir, p, done) != []
    ensures forall p :: p in view ==> view[p] == GroupOf(dir, p, done)
  {
    forall p ensures Content(dir, p, done, item, []) == GroupOf(dir, p, done) {}
  }

  lemma {:induction false} MergeContributes(dir: string, path: string, xs: seq<Image>, y: Image)
    requires IsMerge(xs, y) && forall a, b :: a in xs && b in xs ==> SameDetails(a, b)
    ensures multiset(GroupOf(dir, path, xs)) == multiset(GroupOf(dir, path, [y]))
  {
    assert xs[|xs| - 1] in xs;
    GroupOfSameDetails(dir, path, xs, y);
    ContributionPermuted(dir, path, y, AllSources(xs), y.sources);
    GroupOfSameDetails(dir, path, [y], y);
    FlatMapOne(y, SourcesOf);
  }

  lemma {:induction false} RegroupedGroup(dir: string, path: string, before: seq<Image>, after: seq<Image>,
                                          ks: seq<Key>)
    requires Consistent(before) && |after| == |ks|
    requires forall i :: 0 <= i < |ks| ==> IsMerge(WithKey(before, KeyOf, ks[i]), after[i])
    ensures multiset(GroupOf(dir, path, Regroup(before, KeyOf, ks))) == multiset(GroupOf(dir, path, after))
    decreases |ks|
  {
    if ks != [] {
      var xs := WithKey(before, KeyOf, ks[0]);
      RegroupedGroup(dir, path, before, after[1..], ks[1..]);
      MergeContributes(dir, path, xs, after[0]);
      GroupAppend(dir, path, xs, Regroup(before, KeyOf, ks[1..]));
      GroupAppend(dir, path, [after[0]], after[1..]);
      assert after == [after[0]] + after[1..];
    }
  }

  /** Splitting by manifest gives the same single-source images before and after merging. */
  lemma {:induction false} GroupingCommutes(dir: string, path: string, before: seq<Image>, after: seq<Image>,
                                            ks: seq<Key>)
    requires Deduped(before, after, ks) && Consistent(before)
    ensures multiset(GroupOf(dir, path, before)) == multiset(GroupOf(dir, path, after))
  {
    RegroupConserves(before, KeyOf, ks);
    FlatMapPermuted(before, Regroup(before, KeyOf, ks), (x: Image) => Contribution(dir, path, x, x.sources));
    RegroupedGroup(dir, path, before, after, ks);
  }

  /** The relation index and the items of a list that only grew by related images. */
  ghost predicate Linked(images: seq<Image>, relations: map<string, string>) {
    && NoDuplicates(Map(images, RefOf))
    && (forall k :: k in relations <==> k in Map(images, RefOf))
  }

  function RefOf(image: Image): string {
    image.Ref(true)
  }

  /** Name and tag are determined by the original reference. */
  ghost predicate NamedByRef(images: seq<Image>) {
    forall x, y :: x in images && y in images && KeyOf(x).0 == KeyOf(y).0 ==>
      x.originalName == y.originalName && x.originalTag == y.originalTag
  }

  /** Items as they are read from references: one source, name and tag split off its reference, nothing new yet. */
  ghost predicate ReadFromReferences(images: seq<Image>) {
    forall x :: x in images ==>
      && |x.sources| == 1 && x.newName == "" && x.newTag == ""
      && x.originalName == SplitReference(x.OriginalRef()).0 && x.originalTag == SplitReference(x.OriginalRef()).1
  }

  /** Such items meet what merging asks for, whatever digests they are given. */
  lemma {:induction false} ReferencesDetermineItems(images: seq<Image>)
    requires ReadFromReferences(images)
    ensures Consistent(images) && NamedByRef(images) && Uniform(images)
  {
  }

  lemma {:induction false} LinkedKeysDistinct(images: seq<Image>)
    requires NoDuplicates(Map(images, RefOf)) && NamedByRef(images)
    ensures NoDuplicates(Map(images, KeyOf))
  {
    forall i, j | 0 <= i < j < |images| ensures KeyOf(images[i]) != KeyOf(images[j]) {
      assert images[i] in images && images[j] in images;
      assert Map(images, RefOf)[i] != Map(images, RefOf)[j];
      if KeyOf(images[i]) == KeyOf(images[j]) {
        SameKeySameRef(images[i], images[j]);
      }
    }
  }

  lemma {:induction false} SameKeySameRef(x: Image, y: Image)
    requires KeyOf(x) == KeyOf(y) && x.originalName == y.originalName && x.originalTag == y.originalTag
    ensures RefOf(x) == RefOf(y)
  {
  }

  lemma {:induction false} FromBefore(before: seq<Image>, after: seq<Image>, ks: seq<Key>, i: nat) returns (j: nat)
    requires Deduped(before, after, ks) && i < |ks| && NoDuplicates(Map(before, KeyOf))
    ensures j < |before| && KeyOf(before[j]) == ks[i] && SameDetails(before[j], after[i])
    ensures multiset(after[i].sources) == multiset(before[j].sources)
  {
    var x := WithKey(before, KeyOf, ks[i])[0];
    assert x in before;
    j :| 0 <= j < |before| && before[j] == x;
    AloneWithKey(before, j);
    FlatMapOne(x, SourcesOf);
  }

  lemma {:induction false} DistinctKeysListed(images: seq<Image>, ks: seq<Key>)
    requires ListsKeys(images, ks) && NoDuplicates(Map(images, KeyOf))
    ensures multiset(ks) == multiset(Map(images, KeyOf)) && |ks| == |images|
    ensures forall k :: k in ks <==> k in Map(images, KeyOf)
  {
    var ls := Map(images, KeyOf);
    forall k ensures k in ks <==> k in ls {
      if k in ks {
        KeyHasItem(images, k);
      }
    }
    SameElements(ks, ls);
    SameSize(ks, ls);
  }

  lemma {:induction false} KeyHasItem(images: seq<Image>, k: Key)
    requires WithKey(images, KeyOf, k) != []
    ensures k in Map(images, KeyOf)
  {
    var x := WithKey(images, KeyOf, k)[0];
    assert x in WithKey(images, KeyOf, k);
    var j :| 0 <= j < |images| && images[j] == x;
    assert Map(images, KeyOf)[j] == k;
  }

  lemma {:induction false} RefsKept(before: seq<Image>, after: seq<Image>, ks: seq<Key>)
    requires Deduped(before, after, ks) && NoDuplicates(Map(before, KeyOf))
    ensures multiset(Map(after, RefOf)) == multiset(Map(before, RefOf))
  {
    var ls := Map(before, KeyOf);
    DistinctKeysListed(before, ks);
    var ra, rb := Map(after, RefOf), Map(before, RefOf);
    forall i, j | 0 <= i < |ks| && 0 <= j < |ls| && ks[i] == ls[j] ensures ra[i] == rb[j] {
      RefKept(before, after, ks, i, j);
    }
    PairedPermuted(ks, ra, ls, rb);
  }

  lemma {:induction false} RefKept(before: seq<Image>, after: seq<Image>, ks: seq<Key>, i: nat, j: nat)
    requires Deduped(before, after, ks) && NoDuplicates(Map(before, KeyOf))
    requires i < |ks| && j < |before| && ks[i] == KeyOf(before[j])
    ensures RefOf(after[i]) == RefOf(before[j])
  {
    var j' := FromBefore(before, after, ks, i);
    assert Map(before, KeyOf)[j'] == Map(before, KeyOf)[j];
    assert j' == j;
  }

  /** On a list that only grew by related images merging merges nothing,
      and every key of the relation index still stands for exactly one item. */
  lemma {:induction false} DedupKeepsLinks(before: seq<Image>, after: seq<Image>, ks: seq<Key>,
                                           relations: map<string, string>)
    requires Deduped(before, after, ks) && Linked(before, relations) && NamedByRef(before)
    ensures multiset(ks) == multiset(Map(before, KeyOf)) && |after| == |before|
    ensures multiset(Map(after, RefOf)) == multiset(Map(before, RefOf))
    ensures Linked(after, relations)
  {
    LinkedKeysDistinct(before);
    DistinctKeysListed(before, ks);
    RefsKept(before, after, ks);
    SameMembers(Map(after, RefOf), Map(before, RefOf));
    PermutedNoDuplicates(Map(after, RefOf), Map(before, RefOf));
  }

  /** The target that an item is related to. */
  function TargetOf(relations: map<string, string>, image: Image): string {
    if image.Ref(true) in relations then relations[image.Ref(true)] else ""
  }

  function RelatedItems(images: seq<Image>, relations: map<string, string>, ref: string): (r: seq<Image>)
    ensures forall x :: x in r <==> x in images && TargetOf(relations, x) == ref
  {
    WithKey(images, x => TargetOf(relations, x), ref)
  }

  /** What one lookup of related images returns, up to order. */
  ghost predicate IsRelatedTo(images: seq<Image>, relations: map<string, string>, ref: string, found: seq<Image>) {
    multiset(found) == multiset(RelatedItems(images, relations, ref))
  }

  function FirstByRef(images: seq<Image>, ref: string): Option<Image> {
    if images == [] then None
    else if images[0].Ref(true) == ref then Some(images[0])
    else FirstByRef(images[1..], ref)
  }

  /** The first item for each of the references, where there is one. */
  function FoundByRef(images: seq<Image>, refs: seq<string>): seq<Image> {
    if refs == [] then []
    else
      var item := FirstByRef(images, refs[|refs| - 1]);
      FoundByRef(images, refs[..|refs| - 1]) + (if item.Some? then [item.value] else [])
  }

  /** The first item with the reference, and none exactly when no item has it. */
  lemma {:induction false} FirstByRefMeaning(images: seq<Image>, ref: string)
    ensures var item := FirstByRef(images, ref);
      && (item.None? <==> forall i :: 0 <= i < |images| ==> images[i].Ref(true) != ref)
      && (item.Some? ==> exists i :: 0 <= i < |images| && images[i] == item.value && images[i].Ref(true) == ref
                                     && forall j :: 0 <= j < i ==> images[j].Ref(true) != ref)
  {
    if images != [] && images[0].Ref(true) != ref {
      FirstByRefMeaning(images[1..], ref);
      assert forall i :: 0 < i < |images| ==> images[i] == images[1..][i - 1];
      if i :| 0 <= i < |images[1..]| && Some(images[1..][i]) == FirstByRef(images, ref)
              && images[1..][i].Ref(true) == ref && forall j :: 0 <= j < i ==> images[1..][j].Ref(true) != ref {
        assert images[i + 1] == FirstByRef(images, ref).value;
      }
    }
  }

  /** On a linked list the related items are those whose reference has the target, as often as they occur. */
  lemma {:induction false} RelatedMeaning(images: seq<Image>, relations: map<string, string>, ref: string, x: Image)
    requires Linked(images, relations)
    ensures multiset(RelatedItems(images, relations, ref))[x] ==
            if x.Ref(true) in relations && relations[x.Ref(true)] == ref then multiset(images)[x] else 0
  {
    WithKeyCount(images, y => TargetOf(relations, y), ref, x);
    if x in images {
      ItemHasKey(images, relations, x);
    }
  }

  lemma {:induction false} FoundOneMore(images: seq<Image>, refs: seq<string>, ref: string)
    ensures var item := FirstByRef(images, ref);
      FoundByRef(images, refs + [ref]) == FoundByRef(images, refs) + (if item.Some? then [item.value] else [])
  {
    assert (refs + [ref])[..|refs|] == refs;
  }

  lemma {:induction false} FirstByRefFinds(images: seq<Image>, i: nat)
    requires i < |images| && NoDuplicates(Map(images, RefOf))
    ensures FirstByRef(images, RefOf(images[i])) == Some(images[i])
  {
    if i > 0 {
      var rs := Map(images, RefOf);
      assert rs[0] != rs[i];
      assert Map(images[1..], RefOf) == rs[1..];
      FirstByRefFinds(images[1..], i - 1);
    }
  }

  lemma {:induction false} RefFindsItem(images: seq<Image>, relations: map<string, string>, k: string)
    requires Linked(images, relations) && k in relations
    ensures var item := FirstByRef(images, k); item.Some? && item.value in images && RefOf(item.value) == k
  {
    assert k in Map(images, RefOf);
    var j :| 0 <= j < |images| && Map(images, RefOf)[j] == k;
    FirstByRefFinds(images, j);
  }

  /** On a linked list every related reference finds its one item. */
  lemma {:induction false} FoundInOrder(images: seq<Image>, relations: map<string, string>, refs: seq<string>)
    requires Linked(images, relations) && forall i :: 0 <= i < |refs| ==> refs[i] in relations
    ensures InOrder(images, refs, FoundByRef(images, refs))
    decreases |refs|
  {
    if refs != [] {
      var front, k := refs[..|refs| - 1], refs[|refs| - 1];
      FoundInOrder(images, relations, front);
      RefFindsItem(images, relations, k);
      FoundAppended(images, refs);
      PrefixGrows(refs, |refs| - 1);
      WholePrefix(refs);
      InOrderGrows(images, front, FoundByRef(images, front), k, FirstByRef(images, k).value);
    }
  }

  /** One item for each reference, in order. */
  ghost predicate InOrder(images: seq<Image>, refs: seq<string>, found: seq<Image>) {
    |found| == |refs| && forall i :: 0 <= i < |refs| ==> found[i] in images && RefOf(found[i]) == refs[i]
  }

  lemma {:induction false} InOrderGrows(images: seq<Image>, refs: seq<string>, found: seq<Image>, k: string, x: Image)
    requires InOrder(images, refs, found) && x in images && RefOf(x) == k
    ensures InOrder(images, refs + [k], found + [x])
  {
  }

  lemma {:induction false} FoundAppended(images: seq<Image>, refs: seq<string>)
    requires refs != [] && FirstByRef(images, refs[|refs| - 1]).Some?
    ensures FoundByRef(images, refs) ==
            FoundByRef(images, refs[..|refs| - 1]) + [FirstByRef(images, refs[|refs| - 1]).value]
  {
  }

  lemma {:induction false} RelatedKeptApart(images: seq<Image>, relations: map<string, string>, ref: string)
    requires NoDuplicates(Map(images, RefOf))
    ensures NoDuplicates(Map(RelatedItems(images, relations, ref), RefOf))
  {
    WithKeyKeptApart(images, x => TargetOf(relations, x), ref, RefOf);
  }

  lemma {:induction false} RefIdentifies(images: seq<Image>, x: Image, y: Image)
    requires NoDuplicates(Map(images, RefOf)) && x in images && y in images && RefOf(x) == RefOf(y)
    ensures x == y
  {
    MapSeparates(images, RefOf, x, y);
  }

  lemma {:induction false} RelatedRefs(images: seq<Image>, relations: map<string, string>, ref: string,
                                       related: seq<Image>, k: string)
    requires Linked(images, relations)
    requires forall x :: x in related <==> x in images && TargetOf(relations, x) == ref
    ensures k in Map(related, RefOf) <==> k in relations && relations[k] == ref
  {
    if k in relations && relations[k] == ref {
      RefFindsItem(images, relations, k);
      RelatedHasRef(related, FirstByRef(images, k).value);
    }
    if k in Map(related, RefOf) {
      var j :| 0 <= j < |related| && Map(related, RefOf)[j] == k;
      assert related[j] in related;
      ItemHasKey(images, relations, related[j]);
    }
  }

  lemma {:induction false} SameItemsFound(images: seq<Image>, refs: seq<string>, found: seq<Image>, related: seq<Image>)
    requires NoDuplicates(Map(images, RefOf)) && NoDuplicates(refs) && NoDuplicates(Map(related, RefOf))
    requires forall x :: x in related ==> x in images
    requires InOrder(images, refs, found)
    requires forall k :: k in refs <==> k in Map(related, RefOf)
    ensures multiset(found) == multiset(related)
  {
    var ls := Map(related, RefOf);
    forall i, j | 0 <= i < |refs| && 0 <= j < |ls| && refs[i] == ls[j] ensures found[i] == related[j] {
      assert related[j] in related;
      RefIdentifies(images, found[i], related[j]);
    }
    PairedPermuted(refs, found, ls, related);
  }

  /** Looking up every related reference of a linked list finds exactly the items related to the target. */
  lemma {:induction false} FoundAreRelated(images: seq<Image>, relations: map<string, string>, ref: string,
                                           refs: seq<string>)
    requires Linked(images, relations) && NoDuplicates(refs)
    requires forall k :: k in refs <==> k in relations && relations[k] == ref
    ensures IsRelatedTo(images, relations, ref, FoundByRef(images, refs))
  {
    var related := RelatedItems(images, relations, ref);
    FoundInOrder(images, relations, refs);
    RelatedKeptApart(images, relations, ref);
    forall k ensures k in refs <==> k in Map(related, RefOf) {
      RelatedRefs(images, relations, ref, related, k);
    }
    SameItemsFound(images, refs, FoundByRef(images, refs), related);
  }

  lemma {:induction false} RelatedHasRef(related: seq<Image>, x: Image)
    requires x in related
    ensures RefOf(x) in Map(related, RefOf)
  {
    MapMember(related, RefOf, x);
  }

  lemma {:induction false} ItemHasKey(images: seq<Image>, relations: map<string, string>, x: Image)
    requires Linked(images, relations) && x in images
    ensures RefOf(x) in relations
  {
    RelatedHasRef(images, x);
  }

  lemma {:induction false} LinkedGrows(images: seq<Image>, relations: map<string, string>, x: Image, target: string)
    requires RefOf(x) !in relations
    ensures Linked(images, relations) ==> Linked(images + [x], relations[RefOf(x) := target])
  {
    var rs, rs' := Map(images, RefOf), Map(images + [x], RefOf);
    assert rs' == rs + [RefOf(x)];
  }

  function Concat(parts: seq<seq<Image>>): seq<Image> {
    if parts == [] then [] else parts[0] + Concat(parts[1..])
  }

  lemma {:induction false} ConcatOfRelated(images: seq<Image>, relations: map<string, string>,
                                           targets: seq<string>, parts: seq<seq<Image>>)
    requires |parts| == |targets|
    requires forall i :: 0 <= i < |targets| ==> IsRelatedTo(images, relations, targets[i], parts[i])
    ensures multiset(Concat(parts)) == multiset(Regroup(images, x => TargetOf(relations, x), targets))
    decreases |parts|
  {
    if parts != [] {
      ConcatOfRelated(images, relations, targets[1..], parts[1..]);
      assert IsRelatedTo(images, relations, targets[0], parts[0]);
    }
  }

  /** Collecting the related images of every target gives every item of a linked list exactly once. */
  lemma {:induction false} CollectionsPartition(images: seq<Image>, relations: map<string, string>,
                             targets: seq<string>, parts: seq<seq<Image>>)
    requires Linked(images, relations)
    requires NoDuplicates(targets) && forall t :: t in targets <==> t in relations.Values
    requires |parts| == |targets|
    requires forall i :: 0 <= i < |targets| ==> IsRelatedTo(images, relations, targets[i], parts[i])
    ensures multiset(Concat(parts)) == multiset(images)
  {
    ConcatOfRelated(images, relations, targets, parts);
    var target := x => TargetOf(relations, x);
    forall x | x in images ensures target(x) in targets {
      var i :| 0 <= i < |images| && images[i] == x;
      assert Map(images, RefOf)[i] == x.Ref(true);
    }
    RegroupConserves(images, target, targets);
  }
}
