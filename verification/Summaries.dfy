/** Grouping of path check summaries by repository (attest/types/types.go, attest/vcs/git/git.go). */
module Summaries {
  import opened Wrappers
  import opened Seqs
  import opened Sorting
  import Text

  const PROVIDER_NAME := "git"

  datatype Common = Common(unmodified: bool, path: string, uri: string, isDir: bool, digest: string)

  datatype GitReference = GitReference(name: string, hash: string, kind: string, target: string)

  datatype GitSummary = GitSummary(
    objectHash: Option<string>,
    remotes: map<string, seq<string>>,
    reference: GitReference)

  /** The one kind of summary there is, made by the git checker. */
  datatype Summary = Summary(common: Common, git: Option<GitSummary>)
  {
    function ProviderName(): string {
      PROVIDER_NAME
    }

    /** The checks are tried in order; the first that finds a difference decides. */
    predicate SameRepo(other: Summary) {
      other.ProviderName() == PROVIDER_NAME
      && !(common.uri != other.common.uri
           || git.None? || other.git.None?
           || git.value.reference.hash != other.git.value.reference.hash
           || |git.value.remotes| != |other.git.value.remotes|)
    }
  }

  datatype Subject = Subject(name: string, digest: string)

  datatype Collection = Collection(providers: seq<string>, entryGroups: seq<seq<Summary>>)

  /** `SameRepo` is symmetric and transitive, and relates exactly the summaries with git data to themselves. */
  lemma {:induction false} SameRepoEquivalence(a: Summary, b: Summary, c: Summary)
    ensures a.SameRepo(a) <==> a.git.Some?
    ensures a.SameRepo(b) <==> b.SameRepo(a)
    ensures a.SameRepo(b) && b.SameRepo(c) ==> a.SameRepo(c)
  {
  }

  /** Both have git data, with the same endpoint, the same head and as many remotes. */
  ghost predicate InOneRepo(a: Summary, b: Summary) {
    && a.common.uri == b.common.uri && a.git.Some? && b.git.Some?
    && a.git.value.reference.hash == b.git.value.reference.hash
    && |a.git.value.remotes| == |b.git.value.remotes|
  }

  lemma {:induction false} SameRepoMeaning(a: Summary, b: Summary)
    ensures a.SameRepo(b) <==> InOneRepo(a, b)
  {
  }

  /** Adding a summary to the first group whose head it matches, or to a new one. */
  function Place(groups: seq<seq<Summary>>, s: Summary): seq<seq<Summary>> {
    if groups == [] then [[s]]
    else if groups[0] != [] && s.SameRepo(groups[0][0]) then [groups[0] + [s]] + groups[1..]
    else [groups[0]] + Place(groups[1..], s)
  }

  function Grouped(summaries: seq<Summary>): seq<seq<Summary>> {
    if summaries == [] then []
    else Place(Grouped(summaries[..|summaries| - 1]), summaries[|summaries| - 1])
  }

  function Flatten(groups: seq<seq<Summary>>): seq<Summary> {
    FlatMap(groups, (g: seq<Summary>) => g)
  }

  /** Groups as the classes of `SameRepo`: none empty, members match their head, heads do not match each other. */
  ghost predicate AreClasses(groups: seq<seq<Summary>>) {
    && (forall g :: 0 <= g < |groups| ==> IsClass(groups[g]))
    && (forall g, h :: 0 <= g < h < |groups| ==> !groups[h][0].SameRepo(groups[g][0]))
  }

  ghost predicate IsClass(group: seq<Summary>) {
    group != [] && forall j :: 0 < j < |group| ==> group[j].SameRepo(group[0])
  }

  /** Where a summary is placed: in the group `at`, or in a new one at the end. */
  ghost predicate PlacedAt(groups: seq<seq<Summary>>, s: Summary, at: nat, groups': seq<seq<Summary>>) {
    && at <= |groups|
    && (forall g :: 0 <= g < at ==> groups[g] != [] && !s.SameRepo(groups[g][0]))
    && (if at < |groups|
        then groups[at] != [] && s.SameRepo(groups[at][0]) && groups' == groups[at := groups[at] + [s]]
        else groups' == groups + [[s]])
  }

  lemma {:induction false} PlaceAt(groups: seq<seq<Summary>>, s: Summary, at: nat, groups': seq<seq<Summary>>)
    requires PlacedAt(groups, s, at, groups')
    ensures Place(groups, s) == groups'
    decreases |groups|
  {
    if groups != [] {
      if at > 0 {
        var rest := groups'[1..];
        assert PlacedAt(groups[1..], s, at - 1, rest) by {
          assert forall g :: 0 <= g < at - 1 ==> groups[1..][g] == groups[g + 1];
          if at < |groups| {
            assert rest == groups[1..][at - 1 := groups[at] + [s]];
          } else {
            assert rest == groups[1..] + [[s]];
          }
        }
        PlaceAt(groups[1..], s, at - 1, rest);
        assert groups' == [groups[0]] + rest;
      } else {
        assert groups' == [groups[0] + [s]] + groups[1..];
      }
    }
  }

  lemma {:induction false} PlaceSomewhere(groups: seq<seq<Summary>>, s: Summary) returns (at: nat)
    requires forall g :: 0 <= g < |groups| ==> groups[g] != []
    ensures PlacedAt(groups, s, at, Place(groups, s))
    decreases |groups|
  {
    if groups == [] || s.SameRepo(groups[0][0]) {
      at := 0;
      assert groups != [] ==> [groups[0] + [s]] + groups[1..] == groups[0 := groups[0] + [s]];
      assert groups == [] ==> groups + [[s]] == [[s]];
    } else {
      var i := PlaceSomewhere(groups[1..], s);
      at := i + 1;
      assert forall g :: 0 < g < |groups| ==> groups[g] == groups[1..][g - 1];
      if at < |groups| {
        assert [groups[0]] + groups[1..][i := groups[1..][i] + [s]] == groups[at := groups[at] + [s]];
      } else {
        assert [groups[0]] + (groups[1..] + [[s]]) == groups + [[s]];
      }
    }
  }

  lemma {:induction false} PlaceKeepsClasses(groups: seq<seq<Summary>>, s: Summary)
    requires AreClasses(groups)
    ensures AreClasses(Place(groups, s))
  {
    var at := PlaceSomewhere(groups, s);
  }

  lemma {:induction false} PlaceKeepsMembers(groups: seq<seq<Summary>>, s: Summary)
    ensures multiset(Flatten(Place(groups, s))) == multiset(Flatten(groups)) + multiset{s}
    decreases |groups|
  {
    if groups == [] {
      FlatMapOne([s], (g: seq<Summary>) => g);
    } else if !(groups[0] != [] && s.SameRepo(groups[0][0])) {
      PlaceKeepsMembers(groups[1..], s);
      assert ([groups[0]] + Place(groups[1..], s))[1..] == Place(groups[1..], s);
    } else {
      assert ([groups[0] + [s]] + groups[1..])[1..] == groups[1..];
    }
  }

  /** Greedy first-match grouping yields the classes of `SameRepo`: nothing lost, nothing twice. */
  lemma {:induction false} GroupedIsPartition(summaries: seq<Summary>)
    ensures AreClasses(Grouped(summaries))
    ensures multiset(Flatten(Grouped(summaries))) == multiset(summaries)
    decreases |summaries|
  {
    if summaries != [] {
      var front, s := summaries[..|summaries| - 1], summaries[|summaries| - 1];
      GroupedIsPartition(front);
      PlaceKeepsClasses(Grouped(front), s);
      PlaceKeepsMembers(Grouped(front), s);
      assert summaries == front + [s];
    }
  }

  /** Two members of different positions are in the same group exactly when they are in the same repository. */
  lemma {:induction false} ClassesSeparate(groups: seq<seq<Summary>>, g: nat, i: nat, h: nat, j: nat)
    requires AreClasses(groups)
    requires g < |groups| && h < |groups| && i < |groups[g]| && j < |groups[h]|
    requires g != h || i != j
    ensures groups[g][i].SameRepo(groups[h][j]) <==> g == h
  {
    var a, b, x, y := groups[g][i], groups[h][j], groups[g][0], groups[h][0];
    assert IsClass(groups[g]) && IsClass(groups[h]);
    SameRepoEquivalence(a, x, y);
    SameRepoEquivalence(b, y, x);
    SameRepoEquivalence(x, a, b);
    SameRepoEquivalence(x, b, y);
    SameRepoEquivalence(a, x, b);
    SameRepoEquivalence(a, b, a);
    SameRepoEquivalence(y, x, y);
  }

  function PathOf(s: Summary): string {
    s.common.path
  }

  function ComparePaths(a: Summary, b: Summary): int {
    Text.Compare(PathOf(a), PathOf(b))
  }

  /** Groups are ordered by the provider and the path of their heads. */
  function CompareGroups(a: seq<Summary>, b: seq<Summary>): int {
    if a == [] || b == [] then Text.CompareInt(|a|, |b|)
    else if Text.Compare(a[0].ProviderName(), b[0].ProviderName()) != 0
    then Text.Compare(a[0].ProviderName(), b[0].ProviderName())
    else ComparePaths(a[0], b[0])
  }

  lemma {:induction false} PathsArePreordered(s: seq<Summary>)
    ensures TotalPreorder(s, ComparePaths)
  {
    forall x, y | x in s && y in s ensures ComparePaths(x, y) <= 0 <==> ComparePaths(y, x) >= 0 {
      Text.CompareAntisymmetric(PathOf(x), PathOf(y));
    }
    forall x, y, z | x in s && y in s && z in s && ComparePaths(x, y) <= 0 && ComparePaths(y, z) <= 0
      ensures ComparePaths(x, z) <= 0
    {
      Text.CompareTransitive(PathOf(x), PathOf(y), PathOf(z));
    }
  }

  lemma {:induction false} GroupsArePreordered(s: seq<seq<Summary>>)
    requires forall g :: g in s ==> g != []
    ensures TotalPreorder(s, CompareGroups)
  {
    forall x, y | x in s && y in s ensures CompareGroups(x, y) <= 0 <==> CompareGroups(y, x) >= 0 {
      Text.CompareAntisymmetric(PathOf(x[0]), PathOf(y[0]));
    }
    forall x, y, z | x in s && y in s && z in s && CompareGroups(x, y) <= 0 && CompareGroups(y, z) <= 0
      ensures CompareGroups(x, z) <= 0
    {
      Text.CompareTransitive(PathOf(x[0]), PathOf(y[0]), PathOf(z[0]));
    }
  }

  /** `after` is `before` with the groups sorted by their heads and then every tail sorted by path. */
  ghost predicate Arranged(before: seq<seq<Summary>>, sorted: seq<seq<Summary>>, after: seq<seq<Summary>>) {
    && multiset(sorted) == multiset(before) && Sorted(sorted, CompareGroups)
    && |after| == |sorted|
    && forall g :: 0 <= g < |after| ==> TailSorted(sorted[g], after[g])
  }

  ghost predicate TailSorted(before: seq<Summary>, after: seq<Summary>) {
    && before != [] && after != [] && after[0] == before[0]
    && multiset(after[1..]) == multiset(before[1..]) && Sorted(after[1..], ComparePaths)
  }

  ghost predicate IsCollectionOf(summaries: seq<Summary>, c: Collection) {
    && (exists sorted :: Arranged(Grouped(summaries), sorted, c.entryGroups))
    && c.providers == [PROVIDER_NAME]
  }

  /** Different members are in one group exactly when they are in one repository; no group is empty. */
  ghost predicate ByRepository(groups: seq<seq<Summary>>) {
    && (forall g :: 0 <= g < |groups| ==> groups[g] != [])
    && (forall g, i, h, j |
          0 <= g < |groups| && 0 <= h < |groups| && 0 <= i < |groups[g]| && 0 <= j < |groups[h]| && (g != h || i != j)
          :: InOneRepo(groups[g][i], groups[h][j]) <==> g == h)
  }

  /** The head of each group is the first summary that is in its repository. */
  ghost predicate HeadsFirst(summaries: seq<Summary>, groups: seq<seq<Summary>>) {
    forall g :: 0 <= g < |groups| ==> groups[g] != [] && IsFirst(summaries, groups[g][0])
  }

  ghost predicate IsFirst(summaries: seq<Summary>, head: Summary) {
    exists i :: 0 <= i < |summaries| && summaries[i] == head
                && forall j :: 0 <= j < i ==> !InOneRepo(summaries[j], head)
  }

  /** Heads are in the order of their paths, and so is what follows the head in each group. */
  ghost predicate InPathOrder(groups: seq<seq<Summary>>) {
    && (forall g :: 0 <= g < |groups| ==> groups[g] != [])
    && (forall g, h :: 0 <= g < h < |groups| ==> !Text.Before(groups[h][0].common.path, groups[g][0].common.path))
    && (forall g, i, j :: 0 <= g < |groups| && 1 <= i < j < |groups[g]| ==>
          !Text.Before(groups[g][j].common.path, groups[g][i].common.path))
  }

  lemma {:induction false} PlaceKeepsHeadsFirst(front: seq<Summary>, s: Summary)
    requires HeadsFirst(front, Grouped(front))
    ensures HeadsFirst(front + [s], Place(Grouped(front), s))
  {
    GroupedIsPartition(front);
    var groups := Grouped(front);
    var at := PlaceSomewhere(groups, s);
    var groups' := Place(groups, s);
    forall g | 0 <= g < |groups'| ensures groups'[g] != [] && IsFirst(front + [s], groups'[g][0]) {
      if g < |groups| {
        assert groups'[g][0] == groups[g][0];
        FirstStays(front, s, groups[g][0]);
      } else {
        NewIsFirst(front, groups, s);
      }
    }
  }

  lemma {:induction false} FirstStays(front: seq<Summary>, s: Summary, head: Summary)
    requires IsFirst(front, head)
    ensures IsFirst(front + [s], head)
  {
    var i :| 0 <= i < |front| && front[i] == head && forall j :: 0 <= j < i ==> !InOneRepo(front[j], head);
    assert (front + [s])[i] == head;
  }

  /** A summary that no head matches is the first of its repository. */
  lemma {:induction false} NewIsFirst(front: seq<Summary>, groups: seq<seq<Summary>>, s: Summary)
    requires AreClasses(groups) && multiset(Flatten(groups)) == multiset(front)
    requires forall g :: 0 <= g < |groups| ==> !s.SameRepo(groups[g][0])
    ensures IsFirst(front + [s], s)
  {
    FlatMapMembers(groups, (g: seq<Summary>) => g);
    SameMembers(Flatten(groups), front);
    forall j | 0 <= j < |front| ensures !InOneRepo(front[j], s) {
      var x := front[j];
      assert x in front && x in Flatten(groups);
      var group :| group in groups && x in group;
      var g :| 0 <= g < |groups| && groups[g] == group;
      assert IsClass(group);
      SameRepoMeaning(x, s);
      SameRepoEquivalence(s, x, group[0]);
      SameRepoEquivalence(x, s, x);
    }
    assert (front + [s])[|front|] == s;
  }

  lemma {:induction false} GroupedHeadsFirst(summaries: seq<Summary>)
    ensures HeadsFirst(summaries, Grouped(summaries))
    decreases |summaries|
  {
    if summaries != [] {
      var front, s := summaries[..|summaries| - 1], summaries[|summaries| - 1];
      GroupedHeadsFirst(front);
      PlaceKeepsHeadsFirst(front, s);
      assert summaries == front + [s];
    }
  }

  /** What a collection is: all summaries, each once, by repository, with heads and tails in order. */
  lemma {:induction false} CollectionMeaning(summaries: seq<Summary>, c: Collection)
    requires IsCollectionOf(summaries, c)
    ensures multiset(Flatten(c.entryGroups)) == multiset(summaries)
    ensures ByRepository(c.entryGroups) && HeadsFirst(summaries, c.entryGroups) && InPathOrder(c.entryGroups)
  {
    CollectionIsPartition(summaries, c);
    ClassesByRepository(c.entryGroups);
    SortedInPathOrder(c.entryGroups);
    var sorted :| Arranged(Grouped(summaries), sorted, c.entryGroups);
    GroupedHeadsFirst(summaries);
    SameMembers(sorted, Grouped(summaries));
    forall g | 0 <= g < |c.entryGroups| ensures IsFirst(summaries, c.entryGroups[g][0]) {
      assert TailSorted(sorted[g], c.entryGroups[g]);
      assert sorted[g] in sorted;
    }
  }

  lemma {:induction false} ClassesByRepository(groups: seq<seq<Summary>>)
    requires AreClasses(groups)
    ensures ByRepository(groups)
  {
    forall g | 0 <= g < |groups| ensures groups[g] != [] {
      assert IsClass(groups[g]);
    }
    forall g, i, h, j | 0 <= g < |groups| && 0 <= h < |groups| && 0 <= i < |groups[g]| && 0 <= j < |groups[h]|
                        && (g != h || i != j)
      ensures InOneRepo(groups[g][i], groups[h][j]) <==> g == h
    {
      ClassesSeparate(groups, g, i, h, j);
      SameRepoMeaning(groups[g][i], groups[h][j]);
    }
  }

  lemma {:induction false} SortedInPathOrder(groups: seq<seq<Summary>>)
    requires AreClasses(groups) && Sorted(groups, CompareGroups)
    requires forall g :: 0 <= g < |groups| ==> groups[g] != [] ==> Sorted(groups[g][1..], ComparePaths)
    ensures InPathOrder(groups)
  {
    forall g | 0 <= g < |groups| ensures groups[g] != [] {
      assert IsClass(groups[g]);
    }
    forall g, h | 0 <= g < h < |groups|
      ensures !Text.Before(groups[h][0].common.path, groups[g][0].common.path)
    {
      assert CompareGroups(groups[g], groups[h]) <= 0;
      Text.CompareMeaning(groups[g][0].common.path, groups[h][0].common.path);
    }
    forall g, i, j | 0 <= g < |groups| && 1 <= i < j < |groups[g]|
      ensures !Text.Before(groups[g][j].common.path, groups[g][i].common.path)
    {
      var tail := groups[g][1..];
      assert tail[i - 1] == groups[g][i] && tail[j - 1] == groups[g][j];
      assert ComparePaths(tail[i - 1], tail[j - 1]) <= 0;
      Text.CompareMeaning(groups[g][i].common.path, groups[g][j].common.path);
    }
  }

  predicate Unrelated(a: seq<Summary>, b: seq<Summary>) {
    a != [] && b != [] && !b[0].SameRepo(a[0])
  }

  lemma {:induction false} ArrangedFlatten(sorted: seq<seq<Summary>>, after: seq<seq<Summary>>)
    requires |after| == |sorted| && forall g :: 0 <= g < |after| ==> TailSorted(sorted[g], after[g])
    ensures multiset(Flatten(after)) == multiset(Flatten(sorted))
    decreases |after|
  {
    if after != [] {
      ArrangedFlatten(sorted[1..], after[1..]);
      assert TailSorted(sorted[0], after[0]);
      assert sorted[0] == [sorted[0][0]] + sorted[0][1..] && after[0] == [after[0][0]] + after[0][1..];
    }
  }

  lemma {:induction false} TailSortedIsClass(before: seq<Summary>, after: seq<Summary>)
    requires TailSorted(before, after) && IsClass(before)
    ensures IsClass(after)
  {
    SameMembers(before[1..], after[1..]);
    forall j | 0 < j < |after| ensures after[j].SameRepo(after[0]) {
      assert after[1..][j - 1] == after[j];
      assert after[j] in after[1..];
      var i :| 0 <= i < |before[1..]| && before[1..][i] == after[j];
      assert before[i + 1] == after[j];
    }
  }

  /** A collection holds every summary once, in its class; groups and tails are sorted. */
  lemma {:induction false} CollectionIsPartition(summaries: seq<Summary>, c: Collection)
    requires IsCollectionOf(summaries, c)
    ensures multiset(Flatten(c.entryGroups)) == multiset(summaries)
    ensures AreClasses(c.entryGroups)
    ensures Sorted(c.entryGroups, CompareGroups)
    ensures forall g :: 0 <= g < |c.entryGroups| ==> Sorted(c.entryGroups[g][1..], ComparePaths)
  {
    var before, after := Grouped(summaries), c.entryGroups;
    var sorted :| Arranged(before, sorted, after);
    GroupedIsPartition(summaries);
    FlatMapPermuted(before, sorted, (g: seq<Summary>) => g);
    ArrangedFlatten(sorted, after);
    SameMembers(before, sorted);
    assert Pairwise(before, Unrelated) by {
      forall g, h | 0 <= g < h < |before| ensures Unrelated(before[g], before[h]) {
        assert IsClass(before[g]) && IsClass(before[h]);
      }
    }
    PairwisePermuted(before, sorted, Unrelated);
    forall g | 0 <= g < |after| ensures IsClass(after[g]) {
      assert TailSorted(sorted[g], after[g]);
      assert sorted[g] in before;
      TailSortedIsClass(sorted[g], after[g]);
    }
    forall g, h | 0 <= g < h < |after|
      ensures !after[h][0].SameRepo(after[g][0]) && CompareGroups(after[g], after[h]) <= 0
    {
      assert TailSorted(sorted[g], after[g]) && TailSorted(sorted[h], after[h]);
      assert Unrelated(sorted[g], sorted[h]) && CompareGroups(sorted[g], sorted[h]) <= 0;
    }
  }

  lemma {:induction false} GroupedTogether(base: Summary, rest: seq<Summary>)
    requires forall s :: s in rest ==> s.SameRepo(base)
    ensures Grouped([base] + rest) == [[base] + rest]
    decreases |rest|
  {
    var all := [base] + rest;
    if rest == [] {
      assert all == [base] && all[..0] == [];
    } else {
      var front := rest[..|rest| - 1];
      GroupedTogether(base, front);
      assert all[..|all| - 1] == [base] + front;
      assert ([base] + front) + [rest[|rest| - 1]] == all;
    }
  }

  /** When everything is in the repository of the base directory and the other paths differ, the collection
      does not depend on the order in which the others come, and the base directory is first. */
  lemma {:induction false} CollectionCanonical(base: Summary, rest: seq<Summary>, rest': seq<Summary>,
                                               c: Collection, c': Collection)
    requires multiset(rest) == multiset(rest')
    requires forall s :: s in rest ==> s.SameRepo(base)
    requires forall x, y :: x in rest && y in rest && PathOf(x) == PathOf(y) ==> x == y
    requires IsCollectionOf([base] + rest, c) && IsCollectionOf([base] + rest', c')
    ensures c == c' && |c.entryGroups| == 1 && c.entryGroups[0][..1] == [base]
    ensures multiset(c.entryGroups[0][1..]) == multiset(rest)
  {
    SameMembers(rest, rest');
    var t := OneGroup(base, rest, c);
    var t' := OneGroup(base, rest', c');
    SameMembers(t, rest);
    PathsArePreordered(t);
    SortedUnique(t, t', ComparePaths);
  }

  lemma {:induction false} OneGroup(base: Summary, rest: seq<Summary>, c: Collection) returns (tail: seq<Summary>)
    requires forall s :: s in rest ==> s.SameRepo(base)
    requires IsCollectionOf([base] + rest, c)
    ensures c.entryGroups == [[base] + tail] && multiset(tail) == multiset(rest) && Sorted(tail, ComparePaths)
  {
    GroupedTogether(base, rest);
    var sorted :| Arranged([[base] + rest], sorted, c.entryGroups);
    SameMembers(sorted, [[base] + rest]);
    assert |sorted| == |multiset(sorted)| == 1;
    assert sorted[0] in sorted && sorted[0] == [base] + rest;
    assert TailSorted(sorted[0], c.entryGroups[0]);
    tail := c.entryGroups[0][1..];
    assert sorted[0][1..] == rest;
    assert c.entryGroups[0] == [base] + tail;
  }

  /** The subjects of a collection: one for each summary with a digest, in the order of the groups. */
  function SubjectsOf(summaries: seq<Summary>): seq<Subject> {
    FlatMap(summaries, SubjectsOfOne)
  }

  function SubjectsOfOne(s: Summary): seq<Subject> {
    if s.common.digest == "" then [] else [Subject(s.common.path, s.common.digest)]
  }

  /** The subjects name, in order, the paths and digests of the summaries that have a digest, and of no others. */
  lemma {:induction false} SubjectsMeaning(summaries: seq<Summary>)
    ensures SubjectsOf(summaries) ==
            Map(Filter(summaries, (s: Summary) => s.common.digest != ""),
                (s: Summary) => Subject(s.common.path, s.common.digest))
  {
    if summaries != [] {
      SubjectsMeaning(summaries[1..]);
    }
  }

  lemma {:induction false} OneMoreSubject(summaries: seq<Summary>, s: Summary)
    ensures SubjectsOf(summaries + [s]) == SubjectsOf(summaries) + SubjectsOfOne(s)
  {
    FlatMapAppend(summaries, [s], SubjectsOfOne);
    FlatMapOne(s, SubjectsOfOne);
  }

  lemma {:induction false} OneMoreGroup(groups: seq<seq<Summary>>, group: seq<Summary>)
    ensures Flatten(groups + [group]) == Flatten(groups) + group
  {
    FlatMapAppend(groups, [group], (g: seq<Summary>) => g);
    FlatMapOne(group, (g: seq<Summary>) => g);
  }

  method SubjectOf(c: Collection) returns (subject: seq<Subject>)
    ensures subject == SubjectsOf(Flatten(c.entryGroups))
  {
    subject := [];
    for i := 0 to |c.entryGroups|
      invariant subject == SubjectsOf(Flatten(c.entryGroups[..i]))
    {
      ghost var before := Flatten(c.entryGroups[..i]);
      var group := c.entryGroups[i];
      assert before + group[..0] == before;
      for j := 0 to |group|
        invariant subject == SubjectsOf(before + group[..j])
      {
        OneMoreSubject(before + group[..j], group[j]);
        assert before + group[..j + 1] == before + group[..j] + [group[j]];
        var common := group[j].common;
        if common.digest == "" {
          continue;
        }
        subject := subject + [Subject(common.path, common.digest)];
      }
      OneMoreGroup(c.entryGroups[..i], group);
      assert group[..|group|] == group;
      assert c.entryGroups[..i + 1] == c.entryGroups[..i] + [group];
    }
    assert c.entryGroups[..|c.entryGroups|] == c.entryGroups;
  }

  /** What asking the checkers for their summaries yields: the first missing checker or failing summary ends it. */
  predicate AllSummarised(entries: seq<Option<Result<Summary>>>) {
    forall i :: 0 <= i < |entries| ==> entries[i].Some? && entries[i].value.Ok?
  }

  const NIL_ENTRY := "nil entry"

  /** The first entry without a summary, and why it has none. */
  ghost predicate FirstFailure(entries: seq<Option<Result<Summary>>>, i: nat, error: string) {
    && i < |entries| && AllSummarised(entries[..i])
    && (entries[i].None? ==> error == NIL_ENTRY)
    && (entries[i].Some? ==> entries[i].value == Err(error))
  }

  function SummariesOf(entries: seq<Option<Result<Summary>>>): (r: seq<Summary>)
    requires AllSummarised(entries)
    ensures |r| == |entries| && forall i :: 0 <= i < |r| ==> r[i] == entries[i].value.value
  {
    seq(|entries|, i requires 0 <= i < |entries| => entries[i].value.value)
  }

  /** The entries are checkers that may be absent, given by the summaries they make. */
  method MakePathCheckSummaryCollection(entries: seq<Option<Result<Summary>>>)
    returns (r: Result<Option<Collection>>)
    ensures r.Ok? <==> AllSummarised(entries)
    ensures r.Err? ==> exists i :: FirstFailure(entries, i, r.error)
    ensures r.Ok? ==> (r.value.None? <==> entries == [])
    ensures r.Ok? && r.value.Some? ==> IsCollectionOf(SummariesOf(entries), r.value.value)
    ensures r.Ok? && r.value.Some? ==>
      var groups := r.value.value.entryGroups;
      && multiset(Flatten(groups)) == multiset(SummariesOf(entries)) && ByRepository(groups)
      && HeadsFirst(SummariesOf(entries), groups) && InPathOrder(groups)
  {
    if |entries| == 0 {
      return Ok(None);
    }
    var summaries: seq<Summary> := [];
    for i := 0 to |entries|
      invariant |summaries| == i
      invariant forall j :: 0 <= j < i ==> entries[j] == Some(Ok(summaries[j]))
    {
      if entries[i].None? {
        assert FirstFailure(entries, i, NIL_ENTRY);
        return Err(NIL_ENTRY);
      }
      match entries[i].value {
        case Err(e) =>
          assert FirstFailure(entries, i, e);
          return Err(e);
        case Ok(summary) => summaries := summaries + [summary];
      }
    }
    assert summaries == SummariesOf(entries);
    var collection := Collect(summaries);
    CollectionMeaning(summaries, collection);
    return Ok(Some(collection));
  }

  method Collect(summaries: seq<Summary>) returns (c: Collection)
    requires summaries != []
    ensures IsCollectionOf(summaries, c)
  {
    var groups := GroupSummaries(summaries);
    GroupedIsPartition(summaries);
    SomeGroup(summaries);
    assert forall g :: 0 <= g < |groups| ==> IsClass(groups[g]);
    var providers := ProvidersOf(groups);
    GroupsArePreordered(groups);
    var sorted := SortFunc(groups, CompareGroups);
    SameMembers(groups, sorted);
    assert forall g :: 0 <= g < |sorted| ==> sorted[g] in sorted;
    var arranged := SortTails(sorted);
    assert Arranged(Grouped(summaries), sorted, arranged);
    c := Collection(providers, arranged);
  }

  lemma {:induction false} SomeGroup(summaries: seq<Summary>)
    requires summaries != []
    ensures Grouped(summaries) != []
  {
  }

  /** The greedy loop: every summary goes to the first group whose head it matches. */
  method GroupSummaries(summaries: seq<Summary>) returns (groups: seq<seq<Summary>>)
    ensures groups == Grouped(summaries)
  {
    groups := [];
    for s := 0 to |summaries|
      invariant groups == Grouped(summaries[..s])
    {
      assert summaries[..s + 1][..s] == summaries[..s];
      GroupedIsPartition(summaries[..s]);
      assert forall g :: 0 <= g < |groups| ==> IsClass(groups[g]);
      ghost var before := groups;
      var matched := false;
      for g := 0 to |groups|
        invariant !matched && groups == before
        invariant forall h :: 0 <= h < g ==> !summaries[s].SameRepo(groups[h][0])
      {
        if summaries[s].SameRepo(groups[g][0]) {
          groups := groups[g := groups[g] + [summaries[s]]];
          matched := true;
          PlaceAt(before, summaries[s], g, groups);
          break;
        }
      }
      if !matched {
        groups := groups + [[summaries[s]]];
        PlaceAt(before, summaries[s], |before|, groups);
      }
    }
    assert summaries[..|summaries|] == summaries;
  }

  /** The providers of the heads, each once and sorted. */
  method ProvidersOf(groups: seq<seq<Summary>>) returns (providers: seq<string>)
    requires forall g :: 0 <= g < |groups| ==> groups[g] != []
    ensures providers == if groups == [] then [] else [PROVIDER_NAME]
  {
    var names: set<string> := {};
    for g := 0 to |groups|
      invariant names == if g == 0 then {} else {PROVIDER_NAME}
    {
      names := names + {groups[g][0].ProviderName()};
    }
    var listed := InAnyOrder(names);
    StringsArePreordered(listed);
    providers := SortFunc(listed, Text.Compare);
    SameMembers(listed, providers);
    OnlyProvider(listed, providers, names);
  }

  lemma {:induction false} OnlyProvider(listed: seq<string>, providers: seq<string>, names: set<string>)
    requires NoDuplicates(listed) && multiset(listed) == multiset(providers)
    requires forall x :: x in listed <==> x in names
    requires names == {} || names == {PROVIDER_NAME}
    ensures providers == if names == {} then [] else [PROVIDER_NAME]
  {
    var expected := if names == {} then [] else [PROVIDER_NAME];
    SameElements(listed, expected);
    assert |providers| == |multiset(providers)| == |multiset(expected)| == |expected|;
    if names != {} {
      assert providers[0] in multiset(providers);
    }
  }

  lemma {:induction false} StringsArePreordered(s: seq<string>)
    ensures TotalPreorder(s, Text.Compare)
  {
    forall x, y | x in s && y in s ensures Text.Compare(x, y) <= 0 <==> Text.Compare(y, x) >= 0 {
      Text.CompareAntisymmetric(x, y);
    }
    forall x, y, z | x in s && y in s && z in s && Text.Compare(x, y) <= 0 && Text.Compare(y, z) <= 0
      ensures Text.Compare(x, z) <= 0
    {
      Text.CompareTransitive(x, y, z);
    }
  }

  method SortTails(groups: seq<seq<Summary>>) returns (r: seq<seq<Summary>>)
    requires forall g :: 0 <= g < |groups| ==> groups[g] != []
    ensures |r| == |groups| && forall g :: 0 <= g < |groups| ==> TailSorted(groups[g], r[g])
  {
    r := [];
    for g := 0 to |groups|
      invariant |r| == g && forall h :: 0 <= h < g ==> TailSorted(groups[h], r[h])
    {
      var group := groups[g];
      if |group| > 1 {
        PathsArePreordered(group[1..]);
        var tail := SortFunc(group[1..], ComparePaths);
        group := [group[0]] + tail;
        assert group[1..] == tail;
      }
      r := r + [group];
    }
  }
}
