# Tape: a verified model of packaging with attestations

Tape reads Kubernetes manifests, finds the container images they use, gives every image a short alias,
rewrites the manifests so that they use digests, and packs them together with signed statements
(attestations) about the manifest files and the images in them. This project models the logic in the
middle of that, in Dafny, and proves what it promises.

* **Aliases** (`AliasCache`, `AliasSpec`, `MatchSpec`). An image name is split at `/` into parts. The alias
  starts as the last part; a fixpoint loop over mutable names lengthens aliases pair by pair until nothing
  moves. The model keeps that loop as written, on a class with a moving index. `AliasSpec` says what an alias
  is without any loop: the shortest part-suffix that no differing name ends with, or else the full name. The loop
  is proved to end with exactly that, within a stated number of rounds; order independence, uniqueness and the
  meaning of the lookup follow.
* **The image list** (`ImageLists`, `ImageListSpec`, `Images`). Merging by original reference and digest,
  with a map that is ranged over in any order; splitting into one list for each manifest; the relation index.
* **Statements and the registry** (`Summaries`, `Statements`, `Registry`). Greedy grouping of file summaries by
  repository, the layered order of statements, and a registry that stores only statements about registered or
  mutated files.
* **Rewriting** (`Updater`, `Packaging`). What is recorded when manifests are rewritten, and that the
  registry then accepts the statements about the new content.
* **The git check** (`GitCheck`, `Paths`). A cached check of one path against the commit, with early exits, on
  top of a model of the path operations (`Clean`, `Join`, `Rel`, `Abs`).

`Text`, `Seqs`, `Sorting` and `Wrappers` hold what these share.

Conventions. An error return is a `Result`, a nil-able value an `Option`. Code that changes fields or loops is a
method or a class, proved against a function or predicate on values; the lemmas are about those. Ranging over a
map is ranging over its keys in any order. Sorting promises a sorted permutation and no more, as the
sort of the source is not stable. What lies outside the logic is a parameter: `World` is the file system and the
git repositories, `rewrite` the rewriting of one manifest file, `summarise` the outcome of checking one
registered path, `cbor` and `encode` the encodings, `inner` the comparison of inner predicates. The git `World`
does not change while one path is being checked.

`dafny verify dfyconfig.toml` goes over the whole project.

## Model

| member | source | states |
|---|---|---|
| `AliasCache.MakeAliasesForNames` | manifest/image/alias.go:70-110 | On a fresh cache the loop ends, after at most 1 + the sum of all start indices rounds, with every name at the shortest part-suffix that no differing name ends with (or the full name), and returns just those aliases in order |
| `AliasCache.CompareAll` | manifest/image/alias.go:77-104 | One round keeps every alias shown and justified, lowers no index below 0 and raises none, reports a mutation exactly when some index moved, and without one leaves all ordered pairs told apart |
| `AliasCache.CompareNames` | manifest/image/alias.go:79-103 | One pair step keeps `names` equal to the joined aliases and every alias justified by a differing name; it reports exactly whether it moved something, and if not the pair needs nothing |
| `AliasCache.CompareDiffering` | manifest/image/alias.go:84-101 | The same for two differing names at two places of the list, which the pair step comes down to |
| `AliasCache.LengthenPair` | manifest/image/alias.go:84-101 | Every lengthening of either alias is forced by a suffix the two names share, and when neither moves the two are told apart |
| `AliasCache.LengthenEqual` | manifest/image/alias.go:84-93 | Equal aliases grow by one part each where there is a part, others stay; the returned names are the joined aliases |
| `AliasCache.ExtendIfSuffixMatches` | manifest/image/alias.go:145-166 | The two suffix rules as a relation between old and new lengths: off by one grows both, then the first alias slides past every shorter suffix it shares with the second name |
| `AliasCache.ExtendOffByOne` | manifest/image/alias.go:150-157 | Fires exactly when one more part makes the first alias equal the second; then both grow where they can |
| `AliasCache.Slide` | manifest/image/alias.go:158-164 | The descending loop stops at the first length not shared with the other name, at the bound, or at the full name, and the last length left behind is shared |
| `AliasCache.SlidePast` | manifest/image/alias.go:159-163 | One round of that loop moves by at most what a shared suffix forces and reports whether it moved |
| `AliasCache.ImageName.Extend` | manifest/image/alias.go:134-141 | One part more, unless the alias is the full name already; never past it |
| `AliasCache.ImageName.constructor` | manifest/image/alias.go:112-122 | A fresh name stands at its last part |
| `AliasCache.RulesAreForced` | manifest/image/alias.go:84-101 | Equal rule then suffix rules: each step is forced by a common suffix, and no step means the pair is told apart |
| `AliasCache.SuffixRulesAreForced` | manifest/image/alias.go:145-166 | Each step of the suffix rules is forced, and when nothing moves the first alias is no shorter suffix of the second name |
| `AliasCache.JustifiedAfterPair` | manifest/image/alias.go:84-101 | Two forced moves keep the justification of all aliases |
| `AliasCache.QuietRoundIsFinal` | manifest/image/alias.go:105-109 | Justified aliases that a whole round leaves alone are exactly the specified ones |
| `AliasCache.ShortestNames` | manifest/image/alias.go:71-74 | The start: every entry is the last part of its name |
| `AliasCache.NewFromImages` | manifest/image/alias.go:26-30 | A cache of fresh, distinct names split from the original names, with tags and digests kept |
| `AliasCache.NewFromReferences` | manifest/image/alias.go:22-25 | A cache of fresh, distinct names made from the three parts of each reference |
| `AliasCache.Match` | manifest/image/alias.go:39-68 | The answer is the one candidate if there is just one, with no others; several are all handed back in index order and none is chosen; none gives nothing. On any cache the candidates are the entries with the query as alias or full name, or failing that as a part-suffix; on an aliased cache, exactly the copies of the name when the query is a full name, otherwise exactly the names with the query as a part-suffix, each once |
| `AliasCache.ExactMatches` | manifest/image/alias.go:42-47 | The entries whose alias or full name is the query, in index order |
| `AliasCache.SuffixMatches` | manifest/image/alias.go:50-57 | The entries that end with the parts of the query, each once although all positions are tried |
| `AliasCache.AliasesDecide` | manifest/image/alias.go:42-58 | On an aliased cache the lookup in stages is the lookup by full name or part-suffix |
| `AliasSpec.AliasLengthClosedForm` | manifest/image/alias.go:70-110 | The alias has min(number of parts, 1 + longest common part-suffix with a differing name) parts |
| `AliasSpec.AliasLengthUnique` | manifest/image/alias.go:70-110 | At most one length fits the specification |
| `AliasSpec.AliasOfSameNames` | manifest/image/alias.go:70-110 | Only which names occur matters: permuting or repeating names changes no alias |
| `AliasSpec.AliasInjective` | manifest/image/alias.go:70-110 | Two names have the same alias if and only if they are the same name |
| `AliasSpec.LongSuffixIdentifies` | manifest/image/alias.go:84-101 | A part-suffix at least as long as the alias is a suffix of no differing name, except a full name of a longer one |
| `AliasSpec.CommonSuffixMeaning` | manifest/image/alias.go:145-166 | The longest common part-suffix computed from the end is what being a suffix means |
| `MatchSpec.LongSuffixFinds` | manifest/image/alias.go:39-68 | Looking up any part-suffix at least as long as the alias finds only the copies of that name: the one hit if it occurs once, else all copies |
| `MatchSpec.AliasesAreRedundant` | manifest/image/alias.go:42-58 | On an aliased cache, the test against aliases adds nothing to full names and part-suffixes |
| `MatchSpec.FoundAt` | manifest/image/alias.go:39-68 | What is found are the full names at exactly the places that the query asks for, each once, in increasing order |
| `AliasCache.CandidatesAt` | manifest/image/alias.go:42-58 | The candidates are the full names at exactly the entries with the query as alias or full name, or failing that as a part-suffix |
| `Text.JoinSplit` | manifest/image/alias.go:113 | Joining the parts of a name gives the name back |
| `Text.SplitJoin` | manifest/image/alias.go:131-132 | Splitting joined separator-free parts gives the parts back |
| `Text.CompareMeaning` | manifest/image/list.go:128-139 | The comparison is negative exactly when the first string is a proper prefix of the second or has the smaller character where they first differ, and positive exactly the other way round |
| `Images.SplitRoundTrip` | manifest/image/image.go:41-58 | Splitting an image's original reference gives back its name, tag and digest if and only if the name has no `:` or `@` where the splitter searches it, the tag has no `@`, and tag and digest have no `/` unless the name has one |
| `Images.SplitNewRoundTrip` | manifest/image/image.go:41-58 | The same for the new name and tag |
| `Images.SplitTakesApart` | vendor/sigs.k8s.io/kustomize/api/image/image.go:24-66 | Any reference at all is its parts put together again with the marks it has: nothing but marks is lost |
| `Images.SplitWhenSplittable` | vendor/sigs.k8s.io/kustomize/api/image/image.go:24-66 | The splitting undoes the composing of every splittable name, tag and digest |
| `Images.SplittableWhenSplit` | vendor/sigs.k8s.io/kustomize/api/image/image.go:24-66 | And of no other |
| `Images.RefInjective` | manifest/image/image.go:41-58 | Two well-formed images with the same original reference have the same name, tag and digest |
| `ImageLists.ImageList.AppendWithRelationTo` | manifest/image/list.go:44-55 | Refuses exactly the references that are keys already, changing nothing; otherwise adds item and relation, and keeps index and items linked |
| `ImageLists.ImageList.Append` | manifest/image/list.go:159-164 | Adds the images at the end |
| `ImageLists.ImageList.RelatedTo` | manifest/image/list.go:57-66 | Exactly the keys related to the reference, each once, in some order |
| `ImageLists.ImageList.GetItemByRef` | manifest/image/list.go:68-75 | The first item with the reference: no item before it has it; none exactly when no item has it |
| `ImageLists.ImageList.CollectRelatedToRef` | manifest/image/list.go:86-94 | A new list of the first items of the related keys; on a linked list, exactly the items whose reference has the target, as often as they occur |
| `ImageLists.ImageList.Dedup` | manifest/image/list.go:96-148 | Fails exactly when a digest is missing, changing nothing; the first success leaves one item for each original reference and digest, with all sources of the items that have these, by manifest, line and column, and gives aliases; later ones only alias again |
| `ImageLists.ImageList.MergeItems` | manifest/image/list.go:105-142 | One item for each original reference and digest, with the details of the last such item and all their sources by manifest, line and column, in any order of the keys |
| `ImageLists.ImageList.MergeByKey` | manifest/image/list.go:105-122 | The map holds, for exactly the keys that occur, the merge of all items with that key: last details, all sources |
| `ImageLists.ImageList.MakeAliases` | manifest/image/list.go:150-155 | Every item gets the specified alias among all original names; nothing else changes |
| `ImageLists.ImageList.GroupByManifest` | manifest/image/list.go:166-189 | Exactly one new list for each joined path of a source, holding one image for each source there, in the order of items and sources, with that source only, no alias, and the five names, tags and digest of its item |
| `ImageListSpec.DedupCanonical` | manifest/image/list.go:96-155 | For every permutation of the items and every map order the merged list is the same up to order, when items of a key agree and no two differing sources of a key share a place |
| `ImageListSpec.OrderShowsConflicts` | manifest/image/list.go:114-121 | When two items of a key disagree, the order of the items does change the result |
| `ImageListSpec.TiedSourcesLeaveAChoice` | manifest/image/list.go:128-139 | When two differing sources of a key share a place, two differing merged lists are possible, since the sort decides neither way |
| `ImageListSpec.LastItemDecides` | manifest/image/list.go:114-121 | The merge of a key has the details of the last item with that key |
| `ImageListSpec.MergedMeaning` | manifest/image/list.go:105-142 | In plain fields: merged items stand for the items of one first reference and digest, each has the names of one of them and exactly their sources, every item is stood for, by one only |
| `ImageListSpec.SortedSourcesInOrder` | manifest/image/list.go:128-139 | Sorted sources are by manifest, for equal manifests by line, for equal lines by column, upwards |
| `ImageListSpec.DedupFixpoint` | manifest/image/list.go:96-155 | A merged list is a merge of itself |
| `ImageListSpec.DedupIdempotent` | manifest/image/list.go:96-155 | Merging a merged list again changes nothing but the order |
| `ImageListSpec.DedupKeys` | manifest/image/list.go:107-122 | The merged items sit under their own keys, still with one reference for all their sources |
| `ImageListSpec.ReferencesDetermineItems` | manifest/imagescanner/imagescanner.go:89-112 | Items with one source each, named by splitting its reference, meet what merging asks for, whatever their digests |
| `ImageListSpec.GroupingCommutes` | manifest/image/list.go:166-189 | For every manifest path, splitting gives the same multiset of single-source images before and after merging |
| `ImageListSpec.GroupMeaning` | manifest/image/list.go:166-189 | A group has one image for each item and source whose joined manifest is the path, in order, with the source and the item's original name and tag, digest, new name and new tag |
| `ImageListSpec.DedupKeepsLinks` | manifest/image/list.go:44-148 | On a linked list with names determined by the reference, merging merges nothing and every relation key still is the reference of exactly one item |
| `ImageListSpec.CollectionsPartition` | manifest/image/list.go:86-94 | Collecting over all targets splits the items: none lost, none twice |
| `ImageListSpec.FoundAreRelated` | manifest/image/list.go:86-94 | On a linked list, looking up the related keys one by one finds exactly the related items |
| `ImageListSpec.FirstByRefMeaning` | manifest/image/list.go:68-75 | The search finds the first item with the reference, and nothing exactly when there is none |
| `ImageListSpec.RelatedMeaning` | manifest/image/list.go:86-94 | On a linked list an item is related as often as it occurs, if its reference has the target, and not at all otherwise |
| `ImageListSpec.LinkedGrows` | manifest/image/list.go:44-55 | Adding an item under a new key keeps index and items linked |
| `Summaries.SameRepoEquivalence` | attest/vcs/git/git.go:73-97 | Being in one repository is symmetric and transitive, and reflexive exactly on summaries with git data |
| `Summaries.SameRepoMeaning` | attest/vcs/git/git.go:73-88 | Both have git data, with the same endpoint, head and number of remotes, and conversely |
| `Summaries.GroupedIsPartition` | attest/types/types.go:279-295 | Greedy first-match grouping loses and repeats nothing, makes no empty group, and its groups match their heads while no two heads match |
| `Summaries.ClassesSeparate` | attest/types/types.go:279-295 | Two different members of the grouping are in one group if and only if they are in one repository |
| `Summaries.CollectionIsPartition` | attest/types/types.go:312-318 | Sorting keeps the partition; groups are in order of provider and head path, tails in order of path |
| `Summaries.CollectionMeaning` | attest/types/types.go:279-318 | All summaries are kept; different ones are together exactly when endpoint, head and number of remotes agree; each head is the first entry of its repository; heads and tails are by path, upwards |
| `Summaries.GroupedHeadsFirst` | attest/types/types.go:279-295 | The head of each group is the first entry that is in its repository |
| `Summaries.CollectionCanonical` | attest/registry.go:103-114 | With all entries in the base directory's repository and distinct paths, the collection does not depend on the order of the entries and has the base directory first |
| `Summaries.MakePathCheckSummaryCollection` | attest/types/types.go:262-320 | Succeeds exactly when every entry gives a summary, otherwise with the first failure; no entries give no collection; else all summaries by repository, each group with its first entry as head, heads and tails by path |
| `Summaries.GroupSummaries` | attest/types/types.go:279-295 | The loops with early exit place every summary in the first group whose head matches, or in a new one |
| `Summaries.SortTails` | attest/types/types.go:313-318 | Each group keeps its head and has its tail sorted by path |
| `Summaries.SubjectOf` | attest/types/types.go:322-334 | One subject for each summary with a digest, with its path and digest, in order |
| `Summaries.SubjectsMeaning` | attest/types/types.go:322-334 | The subjects are exactly the paths and digests of the summaries whose digest is not empty, in order |
| `Statements.BytesDecide` | attest/types/types.go:371-379 | For statements that can be compared, the comparison answers exactly when type, number of subjects or first name differ; the inner comparison never plays a part, because the other side hands out its inner value |
| `Statements.TieMeaning` | attest/registry.go:147-168 | Two statements tie exactly when headers and encoded predicates agree |
| `Statements.OrderAntisymmetric` | attest/registry.go:147-168 | Swapping the arguments negates the order |
| `Statements.OrderTransitive` | attest/registry.go:147-168 | The layered order is transitive, and so is being comparable along it |
| `Statements.OrderMeaning` | attest/registry.go:147-168 | One statement is not after another exactly when its type is not after, for equal types it has no more subjects, for as many its first name is not after, and for equal names its encoded predicate is not after |
| `Statements.InOrderMeaning` | attest/registry.go:147-170 | So it is for every two statements in the sorted order |
| `Statements.StatementsArePreordered` | attest/types/types.go:413-425 | So it is a total preorder on every collection of statements, where statements that cannot be compared count as tied; sorting needs this |
| `Statements.EncodingCanonical` | attest/registry.go:139-170 | If tied statements encode equally, the encoded sequence is the same for every insertion order of statements that can be compared |
| `Statements.SingleSubjectTies` | attest/registry.go:147-168 | Statements about one subject tie exactly when they say the same about the same path |
| `Statements.Statement.SetSubjects` | attest/types/types.go:404-411 | Rewrites all subjects, or stops at the first refusal with its error, the earlier ones rewritten and the later ones untouched |
| `Statements.MakeStatement` | attest/types/types.go:381-393 | A new statement with the same subjects, by name upwards |
| `Registry.PathCheckerRegistry.Init` | attest/registry.go:47-59 | On success the base directory, its summary and its path are set together; on failure nothing changes |
| `Registry.PathCheckerRegistry.Register` | attest/registry.go:61-68 | Refuses exactly a taken key, changing nothing; otherwise adds the one key of the path joined to the repository path, with a checker for the path joined to the working path; no key is ever removed |
| `Registry.PathCheckerRegistry.RegisterMutated` | attest/registry.go:70-77 | The mutation table becomes exactly the given paths made relative to the repository root, without stale entries, and a moment is added to the history |
| `Registry.PathCheckerRegistry.RewriteSubjects` | attest/registry.go:81-97 | Succeeds exactly when every subject, made relative to the root, is registered or mutated; then all names are rewritten |
| `Registry.PathCheckerRegistry.AssociateStatements` | attest/registry.go:79-101 | Accepts distinct statements exactly when every subject's joined path and digest is registered or mutated; then stores them with joined names, admitted at the current moment, while all others keep the moment they were admitted at; a rejected call leaves the stored statements as they were; the invariant is kept, after a rejection if none of the statements was stored already |
| `Registry.PathCheckerRegistry.StoredWereRelevant` | attest/registry.go:61-137 | In every state that a run reaches: every subject of every stored statement has its key in the registry or had it in the mutation table at the moment the statement was admitted; the invariant keeps the history of both tables, in which registered keys never go away |
| `Registry.PathCheckerRegistry.MakeCollection` | attest/registry.go:103-114 | The base directory first, then the registered paths in some order, collected; fails exactly when there is no base directory or one of them cannot be summarised |
| `Registry.PathCheckerRegistry.AssociateCoreStatements` | attest/registry.go:116-137 | Succeeds exactly when everything is summarised and every subject is a registered key; then stores one statement, about the path of the base directory, that names exactly the summaries with a digest, by name; when summaries say what was registered it names every registered path with a digest, once, and nothing else; otherwise changes nothing |
| `Registry.PathCheckerRegistry.StoreDirContents` | attest/registry.go:127-134 | The statement is stored exactly when every subject of the collection is a registered key |
| `Registry.PathCheckerRegistry.MakeDirContentsStatement` | attest/manifest/manifest.go:27-42 | The statement about the directory has the path of the base directory and names exactly the summaries with a digest, by name |
| `Registry.PathCheckerRegistry.FirstUnregistered` | attest/registry.go:128-133 | Stops at a subject with no key, exactly when there is one |
| `Registry.PathCheckerRegistry.GetStatements` | attest/registry.go:147-170 | Sorts the stored statements in place, losing none: of any two the one in front has the smaller type, or fewer subjects, or the smaller first name, or the smaller encoded predicate, in this order, or they tie |
| `Registry.CoreStatementCanonical` | attest/registry.go:103-137 | Under the conditions of the canonical collection, also the sorted subjects do not depend on the order of the summaries |
| `Registry.MapOrderIrrelevant` | attest/registry.go:103-137 | For any two orders of the registry map, the statement about the directory is the same, with the base directory first, when everything is in its repository and no two summaries share a path |
| `Registry.SubjectsRegistered` | attest/registry.go:128-133 | When summaries carry the paths and digests that were registered, every subject has its key |
| `Registry.CoreSubjects` | attest/registry.go:116-134 | The subjects are the paths and digests of all summaries with a digest; under consistent summaries they are the registered keys with a digest, each once |
| `Registry.FoundSubjects` | attest/registry.go:103-114 | In any order of the registry map, the registered paths with a digest are the subjects, none twice |
| `Updater.FileUpdater.DoUpdate` | manifest/updater/updater.go:46-106 | Fails on no images, on a failed rewriting and on a taken key, recording nothing; otherwise rewrites with one filter for each image, looking for its original name, and records exactly one mutation: manifest of the first source and new digest, pointing at the old digest |
| `Updater.FileUpdater.Update` | manifest/updater/updater.go:36-44 | On a fresh updater fails only because a rewriting fails, never for lack of images or a taken key; on success every manifest group has its record, from its manifest and new digest to its old digest, and there is no other record; after a failure the groups done so far are recorded |
| `Updater.FileUpdater.UpdateNext` | manifest/updater/updater.go:38-42 | One more group takes a key that is not taken |
| `Updater.RewritingMeaning` | manifest/updater/updater.go:75-90 | A rewriting uses one filter for each image: its original name is looked for, its new name, new tag and digest are put |
| `Updater.RecordedMeaning` | manifest/updater/updater.go:97-103 | What is recorded are the groups, each under its manifest and new digest with its old digest, and nothing else |
| `Updater.FileUpdater.GroupContents` | manifest/updater/updater.go:37-39 | The groups are those of the list, each at its path, all about manifests of their own |
| `Updater.GroupKeysApart` | manifest/updater/updater.go:97-103 | Groups at different paths are about different manifests, so their keys differ whatever the new digests |
| `Updater.GroupMembers` | manifest/image/list.go:175-187 | A group holds exactly the single-source images of the sources in that manifest |
| `Packaging.ReplaceReferences` | tape/app/package.go:152-168 | With plain manifest names, once all manifests are rewritten the registry accepts all statements about those manifests and their new digests; when a rewriting fails nothing is stored |
| `Packaging.UpdateManifests` | tape/app/package.go:154-157 | Succeeds exactly when every manifest is rewritten, and then keys every subject about a rewritten manifest |
| `Packaging.RewrittenIsRecorded` | manifest/updater/updater.go:97-103 | A statement subject about a rewritten manifest has its key among the mutations |
| `Packaging.KeyedAreRelevant` | attest/registry.go:70-92 | What is keyed by the mutations is relevant after registering them |
| `Packaging.FirstOfGroup` | manifest/updater/updater.go:97-100 | The first image of a group names the manifest of every source in it |
| `GitCheck.DetectRepoMeaning` | attest/vcs/git/git.go:440-449 | The repository found is the nearest proper ancestor that opens, and there is none exactly when no ancestor opens |
| `GitCheck.AbsInMeaning` | attest/vcs/git/git.go:218-221 | The absolute path is the cleaned path, or the path joined to the working directory; only a relative path without a working directory fails |
| `GitCheck.FindMeaning` | attest/vcs/git/git.go:409-438 | An object is found exactly when the head commit has a readable entry of a known kind, and nothing exactly when it has no entry |
| `GitCheck.FilesUnmodifiedMeaning` | attest/vcs/git/git.go:284-299 | The early exits decide: unmodified if and only if all files are as committed; otherwise the first file that is not settles it, as an error when unreadable |
| `GitCheck.TreeCheckMeaning` | attest/vcs/git/git.go:280-327 | With readable files, a directory is unmodified exactly when every committed file hashes the same and no changed status entry lies under it |
| `GitCheck.TreeCheckSound` | attest/vcs/git/git.go:280-327 | The same for every check that succeeds, readable or not |
| `GitCheck.FileCheckMeaning` | attest/vcs/git/git.go:270-279 | For a committed file the check says unmodified if and only if the content hashes to the committed hash, and keeps the content hash; if the content cannot be read it fails with that error |
| `GitCheck.DirCheckMeaning` | attest/vcs/git/git.go:280-327 | For a committed directory the check says unmodified if and only if all files are as committed and no staged or changed entry lies in it; it fails exactly when the first file that is not as committed cannot be read, or all are and there is no status |
| `GitCheck.NotCommittedMeaning` | attest/vcs/git/git.go:258-264 | The check finds nothing exactly when the path is in the work tree and the head commit has no entry for it |
| `GitCheck.OutsideIsIrrelevant` | attest/vcs/git/git.go:318-321 | Two worlds that agree at every path in the directory, and nowhere else, give the same result for an object whose files stay in it: contents and status elsewhere never matter |
| `GitCheck.OutsideCanChange` | attest/vcs/git/git.go:233-346 | In particular a file outside can be given any content, readable or not, and any status |
| `GitCheck.PlainNamesStayInside` | attest/vcs/git/git.go:284-299 | Committed files with plain names are all read in the directory |
| `GitCheck.StrayFileMatters` | attest/vcs/git/git.go:284-299 | Conversely, a committed file whose joined name leaves the directory makes two worlds that agree in the directory come out differently |
| `GitCheck.CheckLooksInside` | attest/vcs/git/git.go:247-332 | The whole check of a path depends only on the commit and on what lies in the path |
| `GitCheck.PathChecker.DetectRepo` | attest/vcs/git/git.go:213-231 | Finds a repository exactly when some proper ancestor opens, and then caches the absolute path and the nearest one; fails only when the path cannot be made absolute |
| `GitCheck.PathChecker.Check` | attest/vcs/git/git.go:233-332 | For the repository and absolute path it was detected at: a committed file is answered and cached as unmodified exactly when its content hash is the committed one; a directory exactly when its files are and nothing changed in it; an error or nothing committed leaves an empty cache |
| `GitCheck.PathChecker.CheckPath` | attest/vcs/git/git.go:233-332 | The steps of the check report and cache what checking the location comes to |
| `GitCheck.PathChecker.CheckFound` | attest/vcs/git/git.go:269-331 | The same for the object that was found; the cached repository and path stay |
| `GitCheck.PathChecker.CheckFiles` | attest/vcs/git/git.go:284-299 | The loop that stops looking after a difference gives the recursive meaning |
| `GitCheck.PathChecker.CheckStatus` | attest/vcs/git/git.go:312-325 | The loop with a break, in any order, finds a changed entry under the directory exactly when there is one |
| `GitCheck.PathChecker.Negative` | attest/vcs/git/git.go:404-407 | Clears the cache and reports the error |
| `GitCheck.PathChecker.MakeSummary` | attest/vcs/git/git.go:122-205 | A checked cache is used and kept; otherwise the path is checked first, and the repository that is summarised is the detected one; a summary comes out exactly when the check completed and the repository data can be read |
| `GitCheck.PathChecker.Summarise` | attest/vcs/git/git.go:133-204 | The fields of the summary, among them the object hash only when unmodified or for a file |
| `GitCheck.PrimaryRemote` | attest/vcs/git/git.go:166-176 | The last remote with the default name, else the first |
| `GitCheck.OnlyPrimary` | attest/vcs/git/git.go:166-176 | There is only one such remote |
| `GitCheck.RemotesByNameMeaning` | attest/vcs/git/git.go:186-190 | Each name of a remote, and no other, is listed, with the URLs of the last remote of that name |
| `GitCheck.OneRepoOneGroup` | attest/vcs/git/git.go:73-88 | Summaries made in one repository are in one repository by the comparison |
| `GitCheck.MakeSummaries` | attest/types/types.go:267-277 | New checkers are all summarised, exactly when each path is committed in a readable repository, and each summary is about the path, its repository and its check |
| `GitCheck.FileSummaryMeaning` | attest/vcs/git/git.go:133-158 | The summary of a committed file has the hash of its content, whether or not that was committed, and says which |
| `GitCheck.DirSummaryMeaning` | attest/vcs/git/git.go:133-158 | The summary of a committed directory has the hash of its tree exactly when it is unmodified |
| `GitCheck.SummariesOfOneRepo` | attest/vcs/git/git.go:73-205 | Summaries of two paths with the same detected repository are in one repository by the comparison |
| `GitCheck.CheckedPathIsRegistered` | attest/registry.go:61-68 | A checked path below the root is reported under the path that the registry keys it by |
| `Paths.FileIsInDirMeaning` | attest/vcs/git/git.go:336-346 | The test on relative paths is the component-prefix test on cleaned paths |
| `Paths.JoinedIsInside` | attest/vcs/git/git.go:289 | A plain name joined to any directory gives a path in it |
| `Paths.RelJoin` | attest/registry.go:183-189 | Going to the repository root and appending a sub-path commute below the root |
| `Paths.RelLeadsThere` | attest/vcs/git/git.go:251 | Joining the relative path to its base leads to the cleaned target, wherever there is one |
| `Paths.DotDotCancels` | manifest/image/list.go:169 | Going into a component and out again, or staying, changes nothing |
| `Paths.AbsJoin` | attest/registry.go:187-189 | Making a path absolute and appending a sub-path commute |
| `Paths.RegisteredPathAgrees` | attest/registry.go:61-68 | So the key of a registered file is its path relative to the repository root |
| `Paths.JoinInjectiveOnClean` | manifest/image/list.go:169 | Different clean manifest names below the directory get different paths |
| `Paths.CleanFaithful` | manifest/image/list.go:169 | Cleaning keeps what a path means and is idempotent |
| `Sorting.SortedUpToTies` | attest/registry.go:147-170 | Two sorted permutations of one collection agree up to ties at every position |
| `Sorting.SortedUnique` | manifest/image/list.go:128-139 | Where only equal elements tie, sorting has one result |

## Left out

* The command line, printing and logging (`tape/app`, except the replacing of references), and the test registry:
  they hold no logic of their own.
* The registry client, the copier, the resolver and the loader (`oci`, `manifest/imagecopier`,
  `manifest/imageresolver`, `manifest/loader`): network and file system. Digests and related tags are arbitrary inputs.
* The kustomize pipeline that scans and rewrites YAML: `rewrite` stands for its result. The list of filters it is
  given is modelled.
* JSON, CBOR, base64, gzip, tar and SHA-256: encodings and digests are functions that are given. Of
  `attest/types`, this leaves out the export and unmarshalling of statements and subjects, and the summary annotation.
* The other inner predicate types. The `Compare` of an inner predicate is a parameter, since
  `Statements.BytesDecide` shows that it is never asked.
* `GetItemByDigest` is the same search as `GetItemByRef` with another field.
* `evalChecks` is written as the short-circuit disjunction that it evaluates here; the machinery for mixing
  values and functions is not modelled.
* The registry keeps a checker as the path and digest that it was made from, and `summarise` as a function of them, so
  a checker whose answer changes between two calls is not modelled there. The cached state machine itself is in `GitCheck`.
* Version control providers other than git: there is no other in the repository, and all summaries have the one provider.
* Windows paths: the separator is `/`.
* Nil and empty slices are not told apart, and error texts are kept only where a caller passes them on.
- AliasCache.MakeAliasesForNames: is about a fresh cache, as the loop starts from the last part of every name whatever the indices are. Every caller makes a fresh one.
- ImageLists.ImageList.GetItemByRef: returns the item as a value, so later changes made to it in place are not modelled.
- ImageLists.ImageList.Dedup: items that are added after the first success are aliased but not merged. The code does this, and the contract says it.
- Registry.PathCheckerRegistry.AssociateStatements: after a rejection some subjects of the rejected statements may have been rewritten. The contract fixes the stored statements, not the rejected ones. A statement that is passed twice is rewritten twice, so acceptance is stated for distinct ones.
- Registry.PathCheckerRegistry.GetStatements: asks that of every two statements with the same type and number of subjects each has a subject, because the comparison indexes the first one. It also takes `cbor` for a function of the value. The encoder of the source ranges over Go maps in no fixed order, so for two directory statements with equal headers and several remotes the bytes, and with them the order, are not determined; the model does not capture that.
- Statements.EncodingCanonical: takes `cbor` for a function of the value, as above.
