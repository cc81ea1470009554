/** Rewriting manifests and recording what changed (manifest/updater/updater.go). */
module Updater {
  import opened Wrappers
  import opened Images
  import opened Seqs
  import opened Paths
  import opened ImageListSpec
  import opened ImageLists
  import Registry

  /** What the rewriting pipeline is told to do about one image. */
  datatype ImageTag = ImageTag(name: string, newName: string, newTag: string, digest: string)

  function FilterFor(image: Image): ImageTag {
    ImageTag(image.originalName, image.newName, image.newTag, image.digest)
  }

  /** Rewriting the file at a path with some filters gives the digest of the new content, or fails. */
  type Rewriter = (string, seq<ImageTag>) -> Result<string>

  function Rewriting(rewrite: Rewriter, path: string, images: seq<Image>): Result<string> {
    rewrite(path, Map(images, FilterFor))
  }

  /** One filter for each image, in order: it looks for the original name and puts the new name, tag and digest. */
  ghost predicate AreFilters(images: seq<Image>, filters: seq<ImageTag>) {
    |filters| == |images| && forall i :: 0 <= i < |images| ==>
      && filters[i].name == images[i].originalName && filters[i].newName == images[i].newName
      && filters[i].newTag == images[i].newTag && filters[i].digest == images[i].digest
  }

  /** Rewriting the file with the filters of the images succeeds, and the new content has this digest. */
  ghost predicate RewritesTo(rewrite: Rewriter, path: string, images: seq<Image>, digest: string) {
    exists filters :: AreFilters(images, filters) && rewrite(path, filters) == Ok(digest)
  }

  lemma {:induction false} RewritingMeaning(rewrite: Rewriter, path: string, images: seq<Image>, digest: string)
    ensures Rewriting(rewrite, path, images) == Ok(digest) <==> RewritesTo(rewrite, path, images, digest)
  {
    assert AreFilters(images, Map(images, FilterFor));
    forall filters | AreFilters(images, filters) ensures filters == Map(images, FilterFor) {
      FiltersUnique(images, filters);
    }
  }

  lemma {:induction false} FiltersUnique(images: seq<Image>, filters: seq<ImageTag>)
    requires AreFilters(images, filters)
    ensures filters == Map(images, FilterFor)
  {
  }

  /** The manifest of an image with sources. */
  function ManifestOf(image: Image): string {
    if image.sources == [] then "" else image.Manifest()
  }

  /** The key that one rewritten group is recorded under: its manifest and the digest of the new content. */
  function MutationKey(rewrite: Rewriter, path: string, images: seq<Image>): Registry.Key
    requires images != []
  {
    var digest := Rewriting(rewrite, path, images);
    Registry.Key(ManifestOf(images[0]), if digest.Ok? then digest.value else "")
  }

  /** The groups are not empty, and each holds single-source images of manifests at its path. */
  ghost predicate IsGroup(dir: string, path: string, images: seq<Image>) {
    images != [] && forall i :: 0 <= i < |images| ==>
      images[i].sources != [] && FilepathJoin(dir, ManifestOf(images[i])) == path
  }

  lemma {:induction false} GroupMembers(dir: string, path: string, images: seq<Image>)
    ensures forall y :: y in GroupOf(dir, path, images) <==>
      exists x, s :: x in images && s in x.sources && InManifest(dir, path, s) && y == Single(x, s)
  {
    var f := (x: Image) => Contribution(dir, path, x, x.sources);
    FlatMapMembers(images, f);
    forall x: Image, y ensures y in f(x) <==>
      exists s :: s in x.sources && InManifest(dir, path, s) && y == Single(x, s)
    {
      FlatMapMembers(x.sources, (s: Source) => if InManifest(dir, path, s) then [Single(x, s)] else []);
    }
    forall y ensures y in GroupOf(dir, path, images) <==>
      exists x, s :: x in images && s in x.sources && InManifest(dir, path, s) && y == Single(x, s)
    {
      if x, s :| x in images && s in x.sources && InManifest(dir, path, s) && y == Single(x, s) {
        assert y in f(x);
      }
      if y in GroupOf(dir, path, images) {
        var x :| x in images && y in f(x);
        var s :| s in x.sources && InManifest(dir, path, s) && y == Single(x, s);
      }
    }
  }

  lemma {:induction false} GroupsAreGroups(dir: string, path: string, images: seq<Image>)
    ensures GroupOf(dir, path, images) != [] ==> IsGroup(dir, path, GroupOf(dir, path, images))
  {
    GroupMembers(dir, path, images);
    var group := GroupOf(dir, path, images);
    forall i | 0 <= i < |group| ensures group[i].sources != [] && FilepathJoin(dir, ManifestOf(group[i])) == path {
      assert group[i] in group;
    }
  }

  /** What one rewritten group is recorded as: its key, pointing at the old digest. */
  datatype Record = Record(key: Registry.Key, oldDigest: string)

  function RecordOf(rewrite: Rewriter, path: string, images: seq<Image>): Record
    requires images != [] && images[0].sources != []
  {
    Record(MutationKey(rewrite, path, images), images[0].ManifestDigest())
  }

  ghost function RecordsOf(rewrite: Rewriter, groups: map<string, seq<Image>>): (r: map<string, Record>)
    requires HaveSources(groups)
    ensures r.Keys == groups.Keys && forall p :: p in groups ==> r[p] == RecordOf(rewrite, p, groups[p])
  {
    map p | p in groups :: RecordOf(rewrite, p, groups[p])
  }

  ghost predicate HaveSources(groups: map<string, seq<Image>>) {
    forall p :: p in groups ==> groups[p] != [] && groups[p][0].sources != []
  }

  /** The records have keys of their own. */
  ghost predicate KeysApart(records: map<string, Record>) {
    forall p, q :: p in records && q in records && p != q ==> records[p].key != records[q].key
  }

  /** The mutations are these records, one each. */
  ghost predicate Holds(records: map<string, Record>, mutations: Registry.Mutations) {
    && (forall p :: p in records ==> records[p].key in mutations && mutations[records[p].key] == records[p].oldDigest)
    && (forall k :: k in mutations ==> exists p :: p in records && k == records[p].key)
    && KeysApart(records)
  }

  /** What rewritten groups are recorded as: one mutation each, pointing at the old digest. */
  ghost predicate Recorded(rewrite: Rewriter, groups: map<string, seq<Image>>, mutations: Registry.Mutations)
    requires HaveSources(groups)
  {
    Holds(RecordsOf(rewrite, groups), mutations)
  }

  /** A record of a group: under its manifest and the digest of the new content, the digest of the old content. */
  ghost predicate IsRecordOf(rewrite: Rewriter, path: string, images: seq<Image>, key: Registry.Key, old': string) {
    && images != [] && images[0].sources != []
    && key.path == images[0].sources[0].manifest && RewritesTo(rewrite, path, images, key.digest)
    && old' == images[0].sources[0].manifestDigest
  }

  ghost predicate HasRecord(rewrite: Rewriter, path: string, images: seq<Image>, mutations: Registry.Mutations) {
    exists k :: k in mutations && IsRecordOf(rewrite, path, images, k, mutations[k])
  }

  ghost predicate IsRecordOfSome(rewrite: Rewriter, groups: map<string, seq<Image>>, k: Registry.Key, old': string) {
    exists p :: p in groups && IsRecordOf(rewrite, p, groups[p], k, old')
  }

  ghost predicate GroupsHaveRecords(rewrite: Rewriter, groups: map<string, seq<Image>>,
                                    mutations: Registry.Mutations)
  {
    forall p :: p in groups ==> HasRecord(rewrite, p, groups[p], mutations)
  }

  ghost predicate RecordsHaveGroups(rewrite: Rewriter, groups: map<string, seq<Image>>,
                                    mutations: Registry.Mutations)
  {
    forall k :: k in mutations ==> IsRecordOfSome(rewrite, groups, k, mutations[k])
  }

  /** Every group has its record, and there are no other records. */
  ghost predicate RecordsGroups(rewrite: Rewriter, groups: map<string, seq<Image>>, mutations: Registry.Mutations) {
    GroupsHaveRecords(rewrite, groups, mutations) && RecordsHaveGroups(rewrite, groups, mutations)
  }

  lemma {:induction false} RecordMeaning(rewrite: Rewriter, path: string, images: seq<Image>)
    requires images != [] && images[0].sources != [] && Rewriting(rewrite, path, images).Ok?
    ensures var r := RecordOf(rewrite, path, images); IsRecordOf(rewrite, path, images, r.key, r.oldDigest)
  {
    RewritingMeaning(rewrite, path, images, Rewriting(rewrite, path, images).value);
  }

  lemma {:induction false} GroupHasRecord(rewrite: Rewriter, path: string, images: seq<Image>, r: Record,
                                          mutations: Registry.Mutations)
    requires images != [] && images[0].sources != [] && Rewriting(rewrite, path, images).Ok?
    requires r == RecordOf(rewrite, path, images) && r.key in mutations && mutations[r.key] == r.oldDigest
    ensures HasRecord(rewrite, path, images, mutations)
  {
    RecordMeaning(rewrite, path, images);
  }

  lemma {:induction false} RecordHasGroup(rewrite: Rewriter, groups: map<string, seq<Image>>, p: string,
                                          k: Registry.Key, old': string)
    requires p in groups && groups[p] != [] && groups[p][0].sources != [] && Rewriting(rewrite, p, groups[p]).Ok?
    requires RecordOf(rewrite, p, groups[p]) == Record(k, old')
    ensures IsRecordOfSome(rewrite, groups, k, old')
  {
    RecordMeaning(rewrite, p, groups[p]);
  }

  lemma {:induction false} RecordedGroup(rewrite: Rewriter, groups: map<string, seq<Image>>,
                                         records: map<string, Record>, mutations: Registry.Mutations, p: string)
    requires Describes(rewrite, groups, records) && Holds(records, mutations)
    requires p in groups && Rewriting(rewrite, p, groups[p]).Ok?
    ensures HasRecord(rewrite, p, groups[p], mutations)
  {
    assert p in records;
    GroupHasRecord(rewrite, p, groups[p], records[p], mutations);
  }

  lemma {:induction false} RecordedKey(rewrite: Rewriter, groups: map<string, seq<Image>>,
                                       records: map<string, Record>, mutations: Registry.Mutations, k: Registry.Key)
    requires Describes(rewrite, groups, records) && Holds(records, mutations) && k in mutations
    requires forall p :: p in groups ==> Rewriting(rewrite, p, groups[p]).Ok?
    ensures IsRecordOfSome(rewrite, groups, k, mutations[k])
  {
    var p :| p in records && k == records[p].key;
    RecordHasGroup(rewrite, groups, p, k, mutations[k]);
  }

  lemma {:induction false} RecordedGroups(rewrite: Rewriter, groups: map<string, seq<Image>>,
                                          records: map<string, Record>, mutations: Registry.Mutations)
    requires Describes(rewrite, groups, records) && Holds(records, mutations)
    requires forall p :: p in groups ==> Rewriting(rewrite, p, groups[p]).Ok?
    ensures GroupsHaveRecords(rewrite, groups, mutations)
  {
    forall p | p in groups ensures HasRecord(rewrite, p, groups[p], mutations) {
      RecordedGroup(rewrite, groups, records, mutations, p);
    }
  }

  lemma {:induction false} RecordedKeys(rewrite: Rewriter, groups: map<string, seq<Image>>,
                                        records: map<string, Record>, mutations: Registry.Mutations)
    requires Describes(rewrite, groups, records) && Holds(records, mutations)
    requires forall p :: p in groups ==> Rewriting(rewrite, p, groups[p]).Ok?
    ensures RecordsHaveGroups(rewrite, groups, mutations)
  {
    forall k | k in mutations ensures IsRecordOfSome(rewrite, groups, k, mutations[k]) {
      RecordedKey(rewrite, groups, records, mutations, k);
    }
  }

  lemma {:induction false} RecordedMeaning(rewrite: Rewriter, groups: map<string, seq<Image>>,
                                           records: map<string, Record>, mutations: Registry.Mutations)
    requires Describes(rewrite, groups, records) && Holds(records, mutations)
    requires forall p :: p in groups ==> Rewriting(rewrite, p, groups[p]).Ok?
    ensures RecordsGroups(rewrite, groups, mutations)
  {
    RecordedGroups(rewrite, groups, records, mutations);
    RecordedKeys(rewrite, groups, records, mutations);
  }

  /** No two groups are about one manifest. */
  ghost predicate ManifestsApart(groups: map<string, seq<Image>>)
    requires HaveSources(groups)
  {
    forall p, q :: p in groups && q in groups && p != q ==>
      groups[p][0].sources[0].manifest != groups[q][0].sources[0].manifest
  }

  lemma {:induction false} GroupManifestsApart(dir: string, groups: map<string, seq<Image>>)
    requires AreGroups(dir, groups) && HaveSources(groups)
    ensures ManifestsApart(groups)
  {
    forall p | p in groups ensures FilepathJoin(dir, groups[p][0].sources[0].manifest) == p {
      assert IsGroup(dir, p, groups[p]);
    }
  }

  lemma {:induction false} HoldsOneMore(records: map<string, Record>, mutations: Registry.Mutations, path: string,
                                        r: Record)
    requires Holds(records, mutations) && path !in records && r.key !in mutations
    ensures Holds(records[path := r], mutations[r.key := r.oldDigest])
  {
    var records', mutations' := records[path := r], mutations[r.key := r.oldDigest];
    forall k: Registry.Key | k in mutations' ensures exists p :: p in records' && k == records'[p].key {
      if k == r.key {
        assert records'[path].key == k;
      } else {
        var p :| p in records && k == records[p].key;
        assert records'[p].key == k;
      }
    }
  }

  ghost predicate AreGroups(dir: string, groups: map<string, seq<Image>>) {
    forall p :: p in groups ==> IsGroup(dir, p, groups[p])
  }

  /** Groups at different paths are about different manifests, so their keys cannot clash. */
  lemma {:induction false} GroupKeysApart(rewrite: Rewriter, dir: string, groups: map<string, seq<Image>>)
    requires AreGroups(dir, groups)
    ensures HaveSources(groups) && KeysApart(RecordsOf(rewrite, groups))
  {
    forall p, q | p in groups && q in groups && p != q
      ensures MutationKey(rewrite, p, groups[p]) != MutationKey(rewrite, q, groups[q])
    {
      assert FilepathJoin(dir, ManifestOf(groups[p][0])) == p;
      assert FilepathJoin(dir, ManifestOf(groups[q][0])) == q;
    }
  }

  /** The records of the paths `done` are held, and no others. */
  ghost predicate Progress(records: map<string, Record>, done: map<string, Record>, mutations: Registry.Mutations) {
    Holds(done, mutations) && forall p :: p in done ==> p in records && done[p] == records[p]
  }

  lemma {:induction false} NextIsNew(records: map<string, Record>, done: map<string, Record>,
                                     mutations: Registry.Mutations, path: string)
    requires KeysApart(records) && Progress(records, done, mutations)
    requires path in records && path !in done
    ensures records[path].key !in mutations
    ensures Progress(records, done[path := records[path]],
                     mutations[records[path].key := records[path].oldDigest])
  {
    forall k | k in mutations ensures k != records[path].key {
      var p :| p in done && k == done[p].key;
    }
    HoldsOneMore(done, mutations, path, records[path]);
  }

  lemma {:induction false} ProgressDone(records: map<string, Record>, done: map<string, Record>,
                                        mutations: Registry.Mutations)
    requires Progress(records, done, mutations) && forall p :: p in records ==> p in done
    ensures Holds(records, mutations)
  {
    assert done.Keys == records.Keys;
    assert done == records;
  }

  ghost predicate Describes(rewrite: Rewriter, groups: map<string, seq<Image>>, records: map<string, Record>) {
    HaveSources(groups) && records == RecordsOf(rewrite, groups) && KeysApart(records)
  }

  /** Where a run of updates stands: exactly the groups not `left` are rewritten and recorded. */
  ghost predicate Underway(rewrite: Rewriter, groups: map<string, seq<Image>>, records: map<string, Record>,
                           left: set<string>, done: map<string, Record>, mutations: Registry.Mutations)
  {
    && Progress(records, done, mutations)
    && (forall p :: p in done <==> p in groups && p !in left)
    && (forall p :: p in groups && p !in left ==> Rewriting(rewrite, p, groups[p]).Ok?)
  }

  lemma {:induction false} UnderwayEnds(rewrite: Rewriter, groups: map<string, seq<Image>>,
                                        records: map<string, Record>, done: map<string, Record>,
                                        mutations: Registry.Mutations)
    requires Describes(rewrite, groups, records) && Underway(rewrite, groups, records, {}, done, mutations)
    ensures forall p :: p in groups ==> Rewriting(rewrite, p, groups[p]).Ok?
    ensures Holds(records, mutations) && Progress(records, done, mutations)
  {
    ProgressDone(records, done, mutations);
  }

  /** The groups of a list: one for each manifest with a source, all about manifests of their own. */
  ghost predicate SplitsInto(dir: string, images: seq<Image>, groups: map<string, seq<Image>>) {
    && (forall p :: p in groups <==> GroupOf(dir, p, images) != [])
    && (forall p :: p in groups ==> groups[p] == GroupOf(dir, p, images))
    && (forall p :: p in groups ==> HoldsPlaces(dir, p, images, groups[p]))
    && AreGroups(dir, groups) && HaveSources(groups) && ManifestsApart(groups)
  }

  class FileUpdater {
    var mutations: Registry.Mutations

    constructor ()
      ensures mutations == map[]
    {
      mutations := map[];
    }

    /** Rewrites one manifest and records its new digest with the old one. */
    method DoUpdate(path: string, images: seq<Image>, rewrite: Rewriter) returns (r: Result<()>)
      requires images != [] ==> images[0].sources != []
      modifies this
      ensures r.Ok? <==>
        && images != [] && Rewriting(rewrite, path, images).Ok?
        && MutationKey(rewrite, path, images) !in old(mutations)
      ensures r.Err? ==> mutations == old(mutations)
      ensures r.Ok? ==> mutations == old(mutations)[MutationKey(rewrite, path, images) := images[0].ManifestDigest()]
      ensures images != [] && Rewriting(rewrite, path, images).Err? ==> r == Err(Rewriting(rewrite, path, images).error)
      ensures r.Ok? ==> exists k :: k in mutations && IsRecordOf(rewrite, path, images, k, mutations[k])
                                    && mutations == old(mutations)[k := mutations[k]]
    {
      if |images| == 0 {
        return Err("no images to update");
      }
      var filters: seq<ImageTag> := [];
      for i := 0 to |images|
        invariant |filters| == i && forall j :: 0 <= j < i ==> filters[j] == FilterFor(images[j])
      {
        filters := filters + [FilterFor(images[i])];
      }
      assert filters == Map(images, FilterFor);
      match rewrite(path, filters) {
        case Err(e) => return Err(e);
        case Ok(digest) =>
          var key := Registry.Key(ManifestOf(images[0]), digest);
          if key in mutations {
            return Err("mutation is already registered for " + key.path);
          }
          mutations := mutations[key := images[0].ManifestDigest()];
          RewritingMeaning(rewrite, path, images, digest);
          assert IsRecordOf(rewrite, path, images, key, mutations[key]);
          return Ok(());
      }
    }

    /** Rewrites every manifest of the list, in any order; it fails only because a rewriting fails.
        Either way the groups `done` so far are what is recorded. */
    method Update(images: ImageList, rewrite: Rewriter)
      returns (r: Result<()>, ghost groups: map<string, seq<Image>>, ghost done: map<string, Record>)
      requires mutations == map[]
      modifies this
      ensures SplitsInto(images.dir, images.items, groups)
      ensures r.Ok? <==> forall p :: p in groups ==> Rewriting(rewrite, p, groups[p]).Ok?
      ensures r.Err? ==> exists p :: p in groups && Rewriting(rewrite, p, groups[p]) == Err(r.error)
      ensures r.Ok? ==> Recorded(rewrite, groups, mutations)
      ensures Progress(RecordsOf(rewrite, groups), done, mutations)
      ensures r.Ok? ==> RecordsGroups(rewrite, groups, mutations)
    {
      var contents := GroupContents(images);
      groups := contents;
      GroupKeysApart(rewrite, images.dir, groups);
      r, done := UpdateGroups(contents, RecordsOf(rewrite, groups), rewrite);
    }

    /** The images of each manifest. */
    static method GroupContents(images: ImageList) returns (groups: map<string, seq<Image>>)
      ensures SplitsInto(images.dir, images.items, groups)
    {
      var lists := images.GroupByManifest();
      groups := map p | p in lists :: lists[p].items;
      forall p | p in groups ensures IsGroup(images.dir, p, groups[p]) {
        GroupsAreGroups(images.dir, p, images.items);
      }
      GroupManifestsApart(images.dir, groups);
    }

    method UpdateGroups(groups: map<string, seq<Image>>, ghost records: map<string, Record>, rewrite: Rewriter)
      returns (r: Result<()>, ghost done: map<string, Record>)
      requires mutations == map[]
      requires Describes(rewrite, groups, records)
      modifies this
      ensures r.Ok? <==> forall p :: p in groups ==> Rewriting(rewrite, p, groups[p]).Ok?
      ensures r.Err? ==> exists p :: p in groups && Rewriting(rewrite, p, groups[p]) == Err(r.error)
      ensures r.Ok? ==> Holds(records, mutations) && RecordsGroups(rewrite, groups, mutations)
      ensures Progress(records, done, mutations)
    {
      var left := groups.Keys;
      done := map[];
      while left != {}
        invariant left <= groups.Keys
        invariant Underway(rewrite, groups, records, left, done, mutations)
        decreases left
      {
        var path :| path in left;
        r, done := UpdateNext(path, groups[path], groups, records, left, done, rewrite);
        if r.Err? {
          return r, done;
        }
        left := left - {path};
      }
      UnderwayEnds(rewrite, groups, records, done, mutations);
      RecordedMeaning(rewrite, groups, records, mutations);
      return Ok(()), done;
    }

    /** One more group, with a key that is not taken. */
    method UpdateNext(path: string, images: seq<Image>, ghost groups: map<string, seq<Image>>,
                      ghost records: map<string, Record>, ghost left: set<string>,
                      ghost done: map<string, Record>, rewrite: Rewriter)
      returns (r: Result<()>, ghost done': map<string, Record>)
      requires path in groups && images == groups[path] && path in left
      requires Describes(rewrite, groups, records) && Underway(rewrite, groups, records, left, done, mutations)
      modifies this
      ensures r.Ok? <==> Rewriting(rewrite, path, groups[path]).Ok?
      ensures r.Err? ==> Rewriting(rewrite, path, groups[path]) == Err(r.error)
      ensures r.Ok? ==> Underway(rewrite, groups, records, left - {path}, done', mutations)
      ensures Progress(records, done', mutations)
    {
      NextIsNew(records, done, mutations, path);
      r := DoUpdate(path, images, rewrite);
      done' := if r.Ok? then done[path := records[path]] else done;
    }
  }
}
