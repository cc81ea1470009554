/** Updating the manifests and attesting what replaced the references (tape/app/package.go). */
module Packaging {
  import opened Wrappers
  import opened Images
  import opened Seqs
  import opened Paths
  import opened ImageListSpec
  import opened ImageLists
  import opened Summaries
  import opened Statements
  import opened Registry
  import opened Updater

  /** Manifest names as the loader gives them: clean, relative to the directory and below it. */
  ghost predicate PlainManifests(images: seq<Image>) {
    forall x, s :: x in images && s in x.sources ==> Plain(s.manifest)
  }

  /** Every group that the list splits into can be rewritten. */
  ghost predicate AllRewritten(dir: string, images: seq<Image>, rewrite: Rewriter) {
    forall p :: GroupOf(dir, p, images) != [] ==> Rewriting(rewrite, p, GroupOf(dir, p, images)).Ok?
  }

  /** A subject that names the manifest of some source and the digest of its new content. */
  ghost predicate AboutRewritten(dir: string, images: seq<Image>, rewrite: Rewriter, subject: Subject) {
    exists x, s :: x in images && s in x.sources && subject.name == s.manifest
      && (var p := FilepathJoin(dir, s.manifest); Rewriting(rewrite, p, GroupOf(dir, p, images)) == Ok(subject.digest))
  }

  lemma {:induction false} FirstOfGroup(dir: string, images: seq<Image>, x: Image, s: Source)
    requires x in images && s in x.sources && PlainManifests(images)
    ensures var group := GroupOf(dir, FilepathJoin(dir, s.manifest), images);
      group != [] && ManifestOf(group[0]) == s.manifest
  {
    var path := FilepathJoin(dir, s.manifest);
    GroupMembers(dir, path, images);
    var group := GroupOf(dir, path, images);
    assert InManifest(dir, path, s);
    assert Single(x, s) in group;
    assert group[0] in group;
    var y, t :| y in images && t in y.sources && InManifest(dir, path, t) && group[0] == Single(y, t);
    assert Plain(t.manifest) && Plain(s.manifest);
    JoinInjectiveOnClean(dir, t.manifest, s.manifest);
  }

  /** What was recorded about a rewritten manifest covers every statement about it. */
  lemma {:induction false} RewrittenIsRecorded(dir: string, images: seq<Image>, rewrite: Rewriter,
                                               groups: map<string, seq<Image>>, mutations: Mutations, subject: Subject)
    requires PlainManifests(images) && AboutRewritten(dir, images, rewrite, subject)
    requires forall p :: p in groups <==> GroupOf(dir, p, images) != []
    requires forall p :: p in groups ==> groups[p] == GroupOf(dir, p, images)
    requires HaveSources(groups) && Recorded(rewrite, groups, mutations)
    ensures Registry.Key(subject.name, subject.digest) in mutations
  {
    var x, s :| x in images && s in x.sources && subject.name == s.manifest
      && (var p := FilepathJoin(dir, s.manifest); Rewriting(rewrite, p, GroupOf(dir, p, images)) == Ok(subject.digest));
    var p := FilepathJoin(dir, s.manifest);
    FirstOfGroup(dir, images, x, s);
    assert RecordsOf(rewrite, groups)[p].key == Registry.Key(subject.name, subject.digest);
  }

  /** What an update recorded about the groups of a list. */
  ghost predicate Updated(dir: string, images: seq<Image>, rewrite: Rewriter,
                          groups: map<string, seq<Image>>, mutations: Mutations)
  {
    && (forall p :: p in groups <==> GroupOf(dir, p, images) != [])
    && (forall p :: p in groups ==> groups[p] == GroupOf(dir, p, images))
    && HaveSources(groups) && Recorded(rewrite, groups, mutations)
  }

  ghost predicate AllAboutRewritten(dir: string, images: seq<Image>, rewrite: Rewriter, subjects: seq<Subject>) {
    forall x :: x in subjects ==> AboutRewritten(dir, images, rewrite, x)
  }

  /** Every subject is under its name and digest in the mutation table. */
  ghost predicate Keyed(mutations: Mutations, subjects: seq<Subject>) {
    forall i :: 0 <= i < |subjects| ==> KeyOfSubject(subjects[i]) in mutations
  }

  lemma {:induction false} RewrittenAreKeyed(dir: string, images: seq<Image>, rewrite: Rewriter,
                                             groups: map<string, seq<Image>>, mutations: Mutations,
                                             subjects: seq<Subject>)
    requires PlainManifests(images) && Updated(dir, images, rewrite, groups, mutations)
    requires AllAboutRewritten(dir, images, rewrite, subjects)
    ensures Keyed(mutations, subjects)
  {
    forall i | 0 <= i < |subjects| ensures KeyOfSubject(subjects[i]) in mutations {
      assert subjects[i] in subjects;
      RewrittenIsRecorded(dir, images, rewrite, groups, mutations, subjects[i]);
    }
  }

  lemma {:induction false} KeyedAreRelevant(mutations: Mutations, allowed: set<Registry.Key>, root: string,
                                            subjects: seq<Subject>)
    requires Keyed(mutations, subjects) && Covers(allowed, root, mutations)
    ensures Relevant(allowed, root, subjects)
  {
    forall i | 0 <= i < |subjects| ensures Resolve(allowed, root, subjects[i]).Ok? {
      assert KeyOfSubject(subjects[i]) in mutations;
    }
  }

  /** Rewrites the manifests, tells the registry, and associates the statements about the new content. */
  method ReplaceReferences(updater: FileUpdater, registry: PathCheckerRegistry, images: ImageList,
                           rewrite: Rewriter, sts: seq<Statement>)
    returns (r: Result<()>)
    requires registry.Valid() && updater.mutations == map[] && PlainManifests(images.items)
    requires NoDuplicates(sts) && forall s :: s in sts ==> s !in registry.statements
    requires forall s :: s in sts ==> AllAboutRewritten(images.dir, images.items, rewrite, s.subjects)
    modifies updater, registry`mutatedPaths, registry`history, registry`statements, registry`admitted, sts
    ensures registry.Valid()
    ensures r.Ok? <==> AllRewritten(images.dir, images.items, rewrite)
    ensures registry.statements == old(registry.statements) + (if r.Ok? then sts else [])
  {
    r := UpdateManifests(updater, images, rewrite);
    if r.Err? {
      return r;
    }
    r := AssociateReplaced(updater.mutations, registry, sts);
  }

  /** After the update every subject about a rewritten manifest is keyed. */
  method UpdateManifests(updater: FileUpdater, images: ImageList, rewrite: Rewriter) returns (r: Result<()>)
    requires updater.mutations == map[] && PlainManifests(images.items)
    modifies updater
    ensures r.Ok? <==> AllRewritten(images.dir, images.items, rewrite)
    ensures r.Ok? ==> forall subjects :: AllAboutRewritten(images.dir, images.items, rewrite, subjects) ==>
      Keyed(updater.mutations, subjects)
  {
    ghost var groups;
    ghost var done;
    r, groups, done := updater.Update(images, rewrite);
    if r.Ok? {
      forall subjects | AllAboutRewritten(images.dir, images.items, rewrite, subjects)
        ensures Keyed(updater.mutations, subjects)
      {
        RewrittenAreKeyed(images.dir, images.items, rewrite, groups, updater.mutations, subjects);
      }
    }
  }

  method AssociateReplaced(mutations: Mutations, registry: PathCheckerRegistry, sts: seq<Statement>)
    returns (r: Result<()>)
    requires registry.Valid() && NoDuplicates(sts) && forall s :: s in sts ==> s !in registry.statements
    requires forall s :: s in sts ==> Keyed(mutations, s.subjects)
    modifies registry`mutatedPaths, registry`history, registry`statements, registry`admitted, sts
    ensures registry.Valid() && r.Ok? && registry.statements == old(registry.statements) + sts
  {
    registry.RegisterMutated(mutations);
    forall s | s in sts ensures Relevant(registry.Allowed(), registry.fromRepoRoot, s.subjects) {
      KeyedAreRelevant(mutations, registry.Allowed(), registry.fromRepoRoot, s.subjects);
    }
    r := registry.AssociateStatements(sts);
  }
}
