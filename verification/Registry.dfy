/** The registry of attested paths (attest/registry.go). */
module Registry {
  import opened Wrappers
  import opened Seqs
  import opened Sorting
  import opened Summaries
  import opened Statements
  import opened Paths

  datatype Key = Key(path: string, digest: string)

  type Mutations = map<Key, string>

  /** A checker that has not looked at anything yet: the path it is for and the digest it was given. */
  datatype Checker = Checker(path: string, digest: string)

  const MANIFEST_DIR := "docker.com/tape/ManifestDir/v0.1"

  function KeyOfSubject(s: Subject): Key {
    Key(s.name, s.digest)
  }

  /** What happens to one subject: its name is made relative to the repository root,
      and then it must be registered or mutated. */
  function Resolve(allowed: set<Key>, root: string, s: Subject): Result<Subject> {
    var path := FilepathJoin(root, s.name);
    if Key(path, s.digest) in allowed then Ok(Subject(path, s.digest))
    else Err("statement with subject " + s.name + " is not relevant")
  }

  /** Every subject, with its name made relative to the root, has its key among those allowed. */
  ghost predicate Relevant(allowed: set<Key>, root: string, subjects: seq<Subject>) {
    forall i :: 0 <= i < |subjects| ==> Key(FilepathJoin(root, subjects[i].name), subjects[i].digest) in allowed
  }

  function Resolved(allowed: set<Key>, root: string, subjects: seq<Subject>): (r: seq<Subject>)
    ensures |r| == |subjects|
    ensures forall i :: 0 <= i < |r| ==> r[i] == Subject(FilepathJoin(root, subjects[i].name), subjects[i].digest)
  {
    seq(|subjects|, i requires 0 <= i < |subjects| =>
      Subject(FilepathJoin(root, subjects[i].name), subjects[i].digest))
  }

  /** The keys of a mutation table, relative to the repository root, are all allowed. */
  ghost predicate Covers(allowed: set<Key>, root: string, mutations: Mutations) {
    forall q :: q in mutations ==> Key(FilepathJoin(root, q.path), q.digest) in allowed
  }

  /** Every subject has its key among `keys`. */
  ghost predicate Covered(subjects: seq<Subject>, keys: set<Key>) {
    forall i :: 0 <= i < |subjects| ==> KeyOfSubject(subjects[i]) in keys
  }

  /** Every checker makes its summary. */
  ghost predicate AllChecked(base: Option<Checker>, registry: map<Key, Checker>, summarise: Checker -> Result<Summary>)
  {
    && base.Some? && summarise(base.value).Ok?
    && forall k :: k in registry ==> summarise(registry[k]).Ok?
  }

  /** The summaries of the base directory and of the registered paths in the order of their keys. */
  ghost function Found(base: Option<Checker>, registry: map<Key, Checker>, summarise: Checker -> Result<Summary>,
                       order: seq<Key>): (s: seq<Summary>)
    requires AllChecked(base, registry, summarise) && forall k :: k in order ==> k in registry
    ensures |s| == |order| + 1 && s[0] == summarise(base.value).value
    ensures forall i :: 0 <= i < |order| ==> s[i + 1] == summarise(registry[order[i]]).value
  {
    [summarise(base.value).value]
    + seq(|order|, i requires 0 <= i < |order| && order[i] in registry && summarise(registry[order[i]]).Ok? =>
        summarise(registry[order[i]]).value)
  }

  /** What asking the checkers in the order of their keys yields, the one of the base directory first. */
  ghost function EntriesOf(base: Option<Checker>, registry: map<Key, Checker>, summarise: Checker -> Result<Summary>,
                           order: seq<Key>): (e: seq<Option<Result<Summary>>>)
    requires forall k :: k in order ==> k in registry
    ensures |e| == |order| + 1
  {
    if order == [] then [if base.Some? then Some(summarise(base.value)) else None]
    else
      var k := order[|order| - 1];
      assert k in order;
      EntriesOf(base, registry, summarise, order[..|order| - 1]) + [Some(summarise(registry[k]))]
  }

  lemma {:induction false} EntryAt(base: Option<Checker>, registry: map<Key, Checker>,
                                   summarise: Checker -> Result<Summary>, order: seq<Key>, i: nat)
    requires (forall k :: k in order ==> k in registry) && i <= |order|
    ensures EntriesOf(base, registry, summarise, order)[i] ==
            if i == 0 then (if base.Some? then Some(summarise(base.value)) else None)
            else Some(summarise(registry[order[i - 1]]))
    decreases |order|
  {
    if i < |order| {
      EntryAt(base, registry, summarise, order[..|order| - 1], i);
    }
  }

  lemma {:induction false} EntriesSummarised(base: Option<Checker>, registry: map<Key, Checker>,
                                             summarise: Checker -> Result<Summary>, order: seq<Key>)
    requires forall k :: k in order <==> k in registry
    ensures var e := EntriesOf(base, registry, summarise, order);
      && (AllSummarised(e) <==> AllChecked(base, registry, summarise))
      && (AllSummarised(e) ==> SummariesOf(e) == Found(base, registry, summarise, order))
  {
    var e := EntriesOf(base, registry, summarise, order);
    forall i | 0 <= i < |e|
      ensures e[i] == if i == 0 then (if base.Some? then Some(summarise(base.value)) else None)
                      else Some(summarise(registry[order[i - 1]]))
    {
      EntryAt(base, registry, summarise, order, i);
    }
    if AllSummarised(e) {
      assert e[0].Some? && e[0].value.Ok?;
      forall k | k in registry ensures summarise(registry[k]).Ok? {
        var j :| 0 <= j < |order| && order[j] == k;
        assert e[j + 1] == Some(summarise(registry[order[j]]));
      }
    }
    if AllChecked(base, registry, summarise) {
      forall i | 0 <= i < |e| ensures e[i].Some? && e[i].value.Ok? {
        if i > 0 {
          assert order[i - 1] in order;
        }
      }
    }
  }

  /** The summaries say what was registered: path and digest of each key; the base directory has no digest. */
  ghost predicate Consistent(base: Option<Checker>, registry: map<Key, Checker>, summarise: Checker -> Result<Summary>)
    requires AllChecked(base, registry, summarise)
  {
    && summarise(base.value).value.common.digest == ""
    && forall k :: k in registry ==>
         var c := summarise(registry[k]).value.common;
         c.path == k.path && c.digest == k.digest
  }

  lemma {:induction false} SubjectsRegistered(base: Option<Checker>, registry: map<Key, Checker>,
                                              summarise: Checker -> Result<Summary>, order: seq<Key>)
    requires AllChecked(base, registry, summarise) && Consistent(base, registry, summarise)
    requires forall k :: k in order ==> k in registry
    ensures forall s :: s in SubjectsOf(Found(base, registry, summarise, order)) ==> KeyOfSubject(s) in registry
  {
    var found := Found(base, registry, summarise, order);
    FlatMapMembers(found, SubjectsOfOne);
    forall x, s | x in found && s in SubjectsOfOne(x) ensures KeyOfSubject(s) in registry {
      var i :| 0 <= i < |found| && found[i] == x;
      FoundAt(base, registry, summarise, order, i);
    }
  }

  /** Every checker makes its summary, and every subject in the summaries has its key in the registry. */
  ghost predicate AllRegistered(base: Option<Checker>, registry: map<Key, Checker>,
                                summarise: Checker -> Result<Summary>, order: seq<Key>)
    requires forall k :: k in order ==> k in registry
  {
    && AllChecked(base, registry, summarise)
    && forall s :: s in SubjectsOf(Found(base, registry, summarise, order)) ==> KeyOfSubject(s) in registry
  }

  lemma {:induction false} ConsistentIsRegistered(base: Option<Checker>, registry: map<Key, Checker>,
                                                  summarise: Checker -> Result<Summary>, order: seq<Key>)
    requires forall k :: k in order ==> k in registry
    requires AllChecked(base, registry, summarise) && Consistent(base, registry, summarise)
    ensures AllRegistered(base, registry, summarise, order)
  {
    SubjectsRegistered(base, registry, summarise, order);
  }

  lemma {:induction false} FoundAt(base: Option<Checker>, registry: map<Key, Checker>,
                                   summarise: Checker -> Result<Summary>, order: seq<Key>, i: nat)
    requires AllChecked(base, registry, summarise) && Consistent(base, registry, summarise)
    requires (forall k :: k in order ==> k in registry) && i <= |order|
    ensures var c := Found(base, registry, summarise, order)[i].common;
      c.digest == "" || Key(c.path, c.digest) in registry
  {
    if i > 0 {
      assert order[i - 1] in order;
      assert Found(base, registry, summarise, order)[(i - 1) + 1] == summarise(registry[order[i - 1]]).value;
    }
  }

  /** The subjects are the paths and digests of the summaries that have a digest. */
  ghost predicate NamesDigested(found: seq<Summary>, subjects: seq<Subject>) {
    multiset(subjects) == multiset(Map(Filter(found, (s: Summary) => s.common.digest != ""),
                                       (s: Summary) => Subject(s.common.path, s.common.digest)))
  }

  /** Each registered path that has a digest is named by one subject, and nothing else is named. */
  ghost predicate NamesRegistered(registry: map<Key, Checker>, subjects: seq<Subject>) {
    && NoDuplicates(subjects)
    && forall path, digest :: Subject(path, digest) in subjects <==> Key(path, digest) in registry && digest != ""
  }

  lemma {:induction false} FoundSubjects(base: Option<Checker>, registry: map<Key, Checker>,
                                         summarise: Checker -> Result<Summary>, order: seq<Key>)
    requires AllChecked(base, registry, summarise) && Consistent(base, registry, summarise)
    requires NoDuplicates(order) && forall k :: k in order ==> k in registry
    ensures var subjects := SubjectsOf(Found(base, registry, summarise, order));
      && NoDuplicates(subjects)
      && forall path, digest :: Subject(path, digest) in subjects <==> Key(path, digest) in order && digest != ""
    decreases |order|
  {
    var found := Found(base, registry, summarise, order);
    if order == [] {
      assert found == [summarise(base.value).value];
      FlatMapOne(found[0], SubjectsOfOne);
    } else {
      var n := |order| - 1;
      var front := Found(base, registry, summarise, order[..n]);
      FoundSubjects(base, registry, summarise, order[..n]);
      assert order[n] in order && found == front + [found[n + 1]];
      OneMoreSubject(front, found[n + 1]);
      WithoutLast(order);
    }
  }

  lemma {:induction false} WithoutLast(order: seq<Key>)
    requires order != [] && NoDuplicates(order)
    ensures var n := |order| - 1; forall k :: k in order <==> k in order[..n] || k == order[n]
    ensures order[|order| - 1] !in order[..|order| - 1]
  {
    PrefixGrows(order, |order| - 1);
    WholePrefix(order);
  }

  /** What the subjects of the statement about the directory are. */
  lemma {:induction false} CoreSubjects(base: Option<Checker>, registry: map<Key, Checker>,
                                        summarise: Checker -> Result<Summary>, order: seq<Key>, subjects: seq<Subject>)
    requires AllChecked(base, registry, summarise) && NoDuplicates(order) && forall k :: k in order <==> k in registry
    requires multiset(subjects) == multiset(SubjectsOf(Found(base, registry, summarise, order)))
    ensures NamesDigested(Found(base, registry, summarise, order), subjects)
    ensures Consistent(base, registry, summarise) ==> NamesRegistered(registry, subjects)
  {
    var found := Found(base, registry, summarise, order);
    SubjectsMeaning(found);
    if Consistent(base, registry, summarise) {
      FoundSubjects(base, registry, summarise, order);
      PermutedNoDuplicates(subjects, SubjectsOf(found));
      SameMembers(subjects, SubjectsOf(found));
    }
  }

  /** A statement about the directory: the collection of the summaries, with their subjects sorted by name. */
  ghost predicate IsCoreStatement(s: Statement, dir: string, c: Collection, found: seq<Summary>)
    reads s
  {
    && s.content == Predicate(MANIFEST_DIR, SourceDirectory(dir, Some(c)))
    && IsCollectionOf(found, c)
    && multiset(s.subjects) == multiset(SubjectsOf(found)) && Sorted(s.subjects, CompareNames)
  }

  lemma {:induction false} CoveredMembers(a: seq<Subject>, b: seq<Subject>, keys: set<Key>)
    requires multiset(a) == multiset(b)
    ensures Covered(a, keys) <==> forall s :: s in b ==> KeyOfSubject(s) in keys
  {
    SameMembers(a, b);
    if Covered(a, keys) {
      forall s | s in b ensures KeyOfSubject(s) in keys {
        assert s in a;
      }
    }
  }

  /** An entry of the table made from `paths`: one of them, with its path joined to the root. */
  ghost predicate ComesFrom(paths: Mutations, root: string, k: Key, old': string) {
    exists q :: q in paths && k == Key(FilepathJoin(root, q.path), q.digest) && old' == paths[q]
  }

  /** The keys that were registered, and those in the mutation table, at one moment of a run. */
  datatype Moment = Moment(registered: set<Key>, mutated: set<Key>)
  {
    function Allowed(): set<Key> {
      registered + mutated
    }
  }

  /** No registered key is ever removed. */
  ghost predicate KeysStay(history: seq<Moment>) {
    forall i, j :: 0 <= i <= j < |history| ==> history[i].registered <= history[j].registered
  }

  class PathCheckerRegistry {
    var registry: map<Key, Checker>
    var mutatedPaths: Option<Mutations>
    var statements: seq<Statement>
    var baseChecker: Option<Checker>
    var cachedSummary: Option<Summary>
    const fromWorkDir: string
    var fromRepoRoot: string
    /** Every state of the two tables so far, the current one last. */
    ghost var history: seq<Moment>
    /** The moment at which each stored statement was accepted. */
    ghost var admitted: map<Statement, nat>

    constructor (dir: string)
      ensures fromWorkDir == dir && fromRepoRoot == "" && registry == map[] && mutatedPaths == None
      ensures statements == [] && baseChecker == None && cachedSummary == None
      ensures Valid()
    {
      this.fromWorkDir := dir;
      this.fromRepoRoot := "";
      this.registry := map[];
      this.mutatedPaths := None;
      this.statements := [];
      this.baseChecker := None;
      this.cachedSummary := None;
      this.history := [Moment({}, {})];
      this.admitted := map[];
    }

    /** In every run: registered keys stay registered, and every subject of every stored statement had its key
        registered or mutated at the moment when the statement was accepted. */
    ghost predicate Valid()
      reads this, statements
    {
      && history != [] && history[|history| - 1] == Now() && KeysStay(history)
      && forall s :: s in statements ==> WasRelevant(s)
    }

    ghost function Now(): Moment
      reads this`registry, this`mutatedPaths
    {
      Moment(registry.Keys, if mutatedPaths.Some? then mutatedPaths.value.Keys else {})
    }

    ghost predicate WasRelevant(s: Statement)
      reads this`history, this`admitted, s
    {
      s in admitted && admitted[s] < |history| && Covered(s.subjects, history[admitted[s]].Allowed())
    }

    /** The subjects of a stored statement are registered by now, or were mutated when it was accepted. */
    lemma {:induction false} StoredWereRelevant(s: Statement)
      requires Valid() && s in statements
      ensures s in admitted && admitted[s] < |history|
      ensures forall x :: x in s.subjects ==>
        KeyOfSubject(x) in registry || KeyOfSubject(x) in history[admitted[s]].mutated
    {
      assert WasRelevant(s);
      assert history[admitted[s]].registered <= history[|history| - 1].registered;
    }

    function Allowed(): set<Key>
      reads this`registry, this`mutatedPaths
    {
      registry.Keys + (if mutatedPaths.Some? then mutatedPaths.value.Keys else {})
    }

    function Dir(): string
      reads this`fromRepoRoot
    {
      if fromRepoRoot != "" then fromRepoRoot else if fromWorkDir != "" then fromWorkDir else "."
    }

    function PathFromRepoRoot(path: string): string
      reads this`fromRepoRoot
    {
      FilepathJoin(fromRepoRoot, path)
    }

    function PathFromWorkDir(path: string): string {
      FilepathJoin(fromWorkDir, path)
    }

    /** `init`: the base directory is summarised once, and names the repository root relative path. */
    method Init(checker: Checker, summary: Result<Summary>) returns (r: Result<()>)
      requires Valid()
      modifies this`baseChecker, this`cachedSummary, this`fromRepoRoot
      ensures Valid()
      ensures r.Ok? <==> summary.Ok?
      ensures r.Ok? ==> baseChecker == Some(checker) && cachedSummary == Some(summary.value)
      ensures r.Ok? ==> fromRepoRoot == summary.value.common.path
      ensures r.Err? ==> baseChecker == old(baseChecker) && cachedSummary == old(cachedSummary)
      ensures r.Err? ==> fromRepoRoot == old(fromRepoRoot)
    {
      match summary {
        case Err(e) => return Err("unable to make summary: " + e);
        case Ok(s) =>
          baseChecker, cachedSummary, fromRepoRoot := Some(checker), Some(s), s.common.path;
          return Ok(());
      }
    }

    method Register(path: string, digest: string) returns (r: Result<()>)
      requires Valid()
      modifies this`registry, this`history
      ensures Valid()
      ensures history == if r.Ok? then old(history) + [Now()] else old(history)
      ensures var key := Key(FilepathJoin(fromRepoRoot, path), digest);
        && (r.Err? <==> key in old(registry))
        && registry == if r.Ok? then old(registry)[key := Checker(FilepathJoin(fromWorkDir, path), digest)]
                       else old(registry)
    {
      var key := Key(PathFromRepoRoot(path), digest);
      if key in registry {
        return Err("path checker already registered for " + key.path);
      }
      registry := registry[key := Checker(PathFromWorkDir(path), digest)];
      history := history + [Now()];
      return Ok(());
    }

    /** The mutation table is replaced as a whole, with its paths made relative to the repository root. */
    method RegisterMutated(paths: Mutations)
      requires Valid()
      modifies this`mutatedPaths, this`history
      ensures Valid()
      ensures history == old(history) + [Now()]
      ensures mutatedPaths.Some? && Covers(Allowed(), fromRepoRoot, paths)
      ensures forall k :: k in mutatedPaths.value <==>
        exists q :: q in paths && k == Key(FilepathJoin(fromRepoRoot, q.path), q.digest)
      ensures forall k :: k in mutatedPaths.value ==>
        exists q :: q in paths && k == Key(FilepathJoin(fromRepoRoot, q.path), q.digest)
                    && mutatedPaths.value[k] == paths[q]
    {
      var table := RelativeTable(paths, fromRepoRoot);
      mutatedPaths := Some(table);
      history := history + [Now()];
    }

    /** The entries of the table under their paths joined to the root. */
    static method RelativeTable(paths: Mutations, root: string) returns (table: Mutations)
      ensures forall q :: q in paths ==> Key(FilepathJoin(root, q.path), q.digest) in table
      ensures forall k :: k in table ==> ComesFrom(paths, root, k, table[k])
    {
      table := map[];
      var keys := InAnyOrder(paths.Keys);
      for i := 0 to |keys|
        invariant forall j :: 0 <= j < i ==> Key(FilepathJoin(root, keys[j].path), keys[j].digest) in table
        invariant forall k :: k in table ==> ComesFrom(paths, root, k, table[k])
      {
        var k := keys[i];
        assert k in paths;
        table := table[Key(FilepathJoin(root, k.path), k.digest) := paths[k]];
      }
      forall q | q in paths ensures Key(FilepathJoin(root, q.path), q.digest) in table {
        assert q in keys;
      }
    }

    /** Rewrites the subjects of one statement, up to the first that is not relevant. */
    static method RewriteSubjects(statement: Statement, allowed: set<Key>, root: string) returns (r: Result<()>)
      modifies statement
      ensures r.Ok? <==> Relevant(allowed, root, old(statement.subjects))
      ensures r.Ok? ==> statement.subjects == Resolved(allowed, root, old(statement.subjects))
      ensures r.Ok? ==> Covered(statement.subjects, allowed)
    {
      r := statement.SetSubjects(s => Resolve(allowed, root, s));
    }

    /** Rewrites the statements one after the other, up to the first with a subject that is not relevant. */
    static method RewriteAll(sts: seq<Statement>, allowed: set<Key>, root: string) returns (r: Result<()>)
      modifies sts
      ensures r.Ok? ==> forall s :: s in sts ==> Covered(s.subjects, allowed)
      ensures NoDuplicates(sts) ==> (r.Ok? <==> forall s :: s in sts ==> Relevant(allowed, root, old(s.subjects)))
      ensures NoDuplicates(sts) && r.Ok? ==>
        forall s :: s in sts ==> s.subjects == Resolved(allowed, root, old(s.subjects))
    {
      for i := 0 to |sts|
        invariant forall j :: 0 <= j < i ==> Covered(sts[j].subjects, allowed)
        invariant NoDuplicates(sts) ==> forall j :: i <= j < |sts| ==> sts[j].subjects == old(sts[j].subjects)
        invariant NoDuplicates(sts) ==> forall j :: 0 <= j < i ==> Relevant(allowed, root, old(sts[j].subjects))
        invariant NoDuplicates(sts) ==> forall j :: 0 <= j < i ==>
          sts[j].subjects == Resolved(allowed, root, old(sts[j].subjects))
      {
        var ok := RewriteSubjects(sts[i], allowed, root);
        if ok.Err? {
          assert sts[i] in sts;
          return Err(ok.error);
        }
      }
      return Ok(());
    }

    /** Every subject, with its name made relative to the root, is registered or mutated. */
    ghost predicate AllKnown(subjects: seq<Subject>)
      reads this`registry, this`mutatedPaths, this`fromRepoRoot
    {
      forall i :: 0 <= i < |subjects| ==>
        var key := Key(FilepathJoin(fromRepoRoot, subjects[i].name), subjects[i].digest);
        key in registry || (mutatedPaths.Some? && key in mutatedPaths.value)
    }

    /** Statements are accepted all together or not at all; their subjects are rewritten in place. */
    method AssociateStatements(sts: seq<Statement>) returns (r: Result<()>)
      requires Valid()
      modifies this`statements, this`admitted, sts
      ensures r.Ok? || (forall s :: s in sts ==> s !in old(statements)) ==> Valid()
      ensures r.Err? ==> statements == old(statements) && admitted == old(admitted)
      ensures r.Ok? ==> statements == old(statements) + sts
      ensures r.Ok? ==> AdmittedNow(old(admitted), sts) && forall s :: s in sts ==> Covered(s.subjects, Allowed())
      ensures NoDuplicates(sts) ==>
        (r.Ok? <==> forall s :: s in sts ==> Relevant(Allowed(), fromRepoRoot, old(s.subjects)))
      ensures NoDuplicates(sts) ==> (r.Ok? <==> forall s :: s in sts ==> AllKnown(old(s.subjects)))
      ensures NoDuplicates(sts) && r.Ok? ==>
        forall s :: s in sts ==> s.subjects == Resolved(Allowed(), fromRepoRoot, old(s.subjects))
    {
      forall s | s in sts ensures AllKnown(s.subjects) <==> Relevant(Allowed(), fromRepoRoot, s.subjects) {}
      r := RewriteAll(sts, Allowed(), fromRepoRoot);
      assert forall s :: s in statements && s !in sts ==> WasRelevant(s);
      if r.Ok? {
        StoreAll(sts);
      }
    }

    /** The given statements were accepted at the current moment, all others when they were. */
    ghost predicate AdmittedNow(before: map<Statement, nat>, sts: seq<Statement>)
      reads this`history, this`admitted
    {
      && (forall s :: s in sts ==> s in admitted && admitted[s] == |history| - 1)
      && (forall s :: s in before && s !in sts ==> s in admitted && admitted[s] == before[s])
    }

    /** One more statement was accepted at the current moment, and nothing else changed. */
    ghost predicate AdmitsOne(before: map<Statement, nat>, s: Statement)
      reads this`history, this`admitted
    {
      history != [] && admitted == before[s := |history| - 1]
    }

    method StoreAll(sts: seq<Statement>)
      requires history != [] && history[|history| - 1] == Now() && KeysStay(history)
      requires forall s :: s in sts ==> Covered(s.subjects, Allowed())
      requires forall s :: s in statements && s !in sts ==> WasRelevant(s)
      modifies this`statements, this`admitted
      ensures Valid()
      ensures statements == old(statements) + sts && AdmittedNow(old(admitted), sts)
    {
      statements := statements + sts;
      admitted := admitted + map s | s in sts :: |history| - 1;
    }

    /** The checker of the base directory and then the registered ones, in any order, give the collection. */
    method MakeCollection(summarise: Checker -> Result<Summary>)
      returns (r: Result<Option<Collection>>, ghost order: seq<Key>)
      ensures NoDuplicates(order) && forall k :: k in order <==> k in registry
      ensures r.Ok? <==> AllChecked(baseChecker, registry, summarise)
      ensures r.Ok? ==> r.value.Some? && IsCollectionOf(Found(baseChecker, registry, summarise, order), r.value.value)
    {
      var keys := InAnyOrder(registry.Keys);
      order := keys;
      var entries: seq<Option<Result<Summary>>> :=
        [if baseChecker.Some? then Some(summarise(baseChecker.value)) else None];
      for i := 0 to |keys|
        invariant entries == EntriesOf(baseChecker, registry, summarise, keys[..i])
      {
        assert keys[..i + 1][..i] == keys[..i];
        assert keys[i] in keys;
        entries := entries + [Some(summarise(registry[keys[i]]))];
      }
      assert keys[..|keys|] == keys;
      EntriesSummarised(baseChecker, registry, summarise, order);
      r := MakePathCheckSummaryCollection(entries);
    }

    /** A predicate about the base directory: under its path in the repository, or failing that the given path. */
    ghost predicate DescribesDir(content: Predicate, c: Collection)
      reads this`fromRepoRoot
    {
      && content.kind == MANIFEST_DIR && content.inner.SourceDirectory? && content.inner.entries == Some(c)
      && (fromRepoRoot != "" ==> content.inner.path == fromRepoRoot)
      && (fromRepoRoot == "" && fromWorkDir != "" ==> content.inner.path == fromWorkDir)
      && (fromRepoRoot == "" && fromWorkDir == "" ==> content.inner.path == ".")
    }

    /** The statement about the directory, and what it names. */
    ghost predicate IsDirStatement(s: Statement, c: Collection, found: seq<Summary>)
      reads this`fromRepoRoot, s
    {
      && IsCoreStatement(s, Dir(), c, found) && DescribesDir(s.content, c)
      && NamesDigested(found, s.subjects) && InNameOrder(s.subjects)
    }

    /** Stores the statement about the contents of the directory. */
    method AssociateCoreStatements(summarise: Checker -> Result<Summary>)
      returns (r: Result<()>, ghost order: seq<Key>, ghost stored: Option<(Statement, Collection)>)
      requires Valid()
      modifies this`statements, this`admitted
      ensures Valid()
      ensures NoDuplicates(order) && forall k :: k in order <==> k in registry
      ensures r.Err? ==> statements == old(statements) && admitted == old(admitted)
      ensures r.Ok? ==> AllChecked(baseChecker, registry, summarise) && stored.Some?
      ensures r.Ok? ==> fresh(stored.value.0) && statements == old(statements) + [stored.value.0]
      ensures r.Ok? ==> AdmitsOne(old(admitted), stored.value.0)
      ensures r.Ok? ==>
        IsDirStatement(stored.value.0, stored.value.1, Found(baseChecker, registry, summarise, order))
      ensures r.Ok? <==> AllRegistered(baseChecker, registry, summarise, order)
      ensures AllChecked(baseChecker, registry, summarise) && Consistent(baseChecker, registry, summarise) ==> r.Ok?
      ensures r.Ok? && Consistent(baseChecker, registry, summarise) ==>
        NamesRegistered(registry, stored.value.0.subjects)
    {
      var entries;
      entries, order := MakeCollection(summarise);
      if entries.Err? {
        return Err("unable to associate core statements: " + entries.error), order, None;
      }
      var c := entries.value.value;
      ghost var found := Found(baseChecker, registry, summarise, order);
      if Consistent(baseChecker, registry, summarise) {
        ConsistentIsRegistered(baseChecker, registry, summarise, order);
      }
      var statement;
      r, statement := StoreDirContents(c, found);
      assert found == Found(baseChecker, registry, summarise, order);
      assert IsDirStatement(statement, c, Found(baseChecker, registry, summarise, order));
      CoreSubjects(baseChecker, registry, summarise, order, statement.subjects);
      if r.Err? {
        return r, order, None;
      }
      return r, order, Some((statement, c));
    }

    /** The part of it that makes the statement, and stores it if all its subjects are registered. */
    method StoreDirContents(c: Collection, ghost found: seq<Summary>) returns (r: Result<()>, statement: Statement)
      requires Valid() && IsCollectionOf(found, c)
      modifies this`statements, this`admitted
      ensures Valid()
      ensures r.Ok? <==> forall s :: s in SubjectsOf(found) ==> KeyOfSubject(s) in registry
      ensures r.Err? ==> statements == old(statements) && admitted == old(admitted)
      ensures fresh(statement) && IsDirStatement(statement, c, found)
      ensures r.Ok? ==> statements == old(statements) + [statement]
      ensures r.Ok? ==> AdmitsOne(old(admitted), statement)
    {
      statement := MakeDirContentsStatement(c, found);
      r := StoreRegistered(statement, found);
    }

    method StoreRegistered(statement: Statement, ghost found: seq<Summary>) returns (r: Result<()>)
      requires Valid() && multiset(statement.subjects) == multiset(SubjectsOf(found))
      modifies this`statements, this`admitted
      ensures Valid()
      ensures r.Ok? <==> forall s :: s in SubjectsOf(found) ==> KeyOfSubject(s) in registry
      ensures r.Err? ==> statements == old(statements) && admitted == old(admitted)
      ensures r.Ok? ==> statements == old(statements) + [statement]
      ensures r.Ok? ==> AdmitsOne(old(admitted), statement)
    {
      CoveredMembers(statement.subjects, SubjectsOf(found), registry.Keys);
      var stray := FirstUnregistered(statement.subjects);
      if stray.Some? {
        return Err("statement with subject " + stray.value.name + " is not relevant");
      }
      Store(statement);
      return Ok(());
    }

    method Store(statement: Statement)
      requires Valid() && Covered(statement.subjects, registry.Keys)
      modifies this`statements, this`admitted
      ensures statements == old(statements) + [statement] && AdmitsOne(old(admitted), statement)
      ensures Valid()
    {
      statements := statements + [statement];
      admitted := admitted[statement := |history| - 1];
    }

    method FirstUnregistered(subjects: seq<Subject>) returns (stray: Option<Subject>)
      ensures stray.None? <==> Covered(subjects, registry.Keys)
      ensures stray.Some? ==> stray.value in subjects && KeyOfSubject(stray.value) !in registry
    {
      for i := 0 to |subjects|
        invariant forall j :: 0 <= j < i ==> KeyOfSubject(subjects[j]) in registry
      {
        if KeyOfSubject(subjects[i]) !in registry {
          return Some(subjects[i]);
        }
      }
      return None;
    }

    method MakeDirContentsStatement(c: Collection, ghost found: seq<Summary>) returns (statement: Statement)
      requires IsCollectionOf(found, c)
      ensures fresh(statement) && IsDirStatement(statement, c, found)
    {
      var subjects := SubjectOf(c);
      statement := MakeStatement(MANIFEST_DIR, SourceDirectory(Dir(), Some(c)), subjects);
      CollectionIsPartition(found, c);
      FlatMapPermuted(Flatten(c.entryGroups), found, SubjectsOfOne);
      SubjectsMeaning(found);
      SortedInNameOrder(statement.subjects);
    }

    /** Sorts the stored statements. Comparing two statements of one type without subjects would panic. */
    method GetStatements(inner: (Inner, Inner) -> int, cbor: Inner -> string) returns (sorted: seq<Statement>)
      requires Valid() && AllComparable(ViewsOf(statements))
      modifies this`statements
      ensures Valid()
      ensures sorted == statements && multiset(statements) == multiset(old(statements))
      ensures InOrder(inner, cbor, ViewsOf(statements))
      ensures forall i, j :: 0 <= i < j < |statements| ==>
        var a, b := statements[i].GetView(), statements[j].GetView();
        Comparable(a, b) && NotAfter(cbor, a, b)
    {
      sorted := SortStatements(statements, inner, cbor);
      InOrderMeaning(inner, cbor, ViewsOf(sorted));
      SameMembers(sorted, statements);
      statements := sorted;
    }

    static method SortStatements(statements: seq<Statement>, inner: (Inner, Inner) -> int, cbor: Inner -> string)
      returns (sorted: seq<Statement>)
      requires AllComparable(ViewsOf(statements))
      ensures multiset(sorted) == multiset(statements)
      ensures InOrder(inner, cbor, ViewsOf(sorted))
    {
      var views := map s | s in statements :: s.GetView();
      var compare := (a, b) requires CanCompare(views, a, b) =>
        Order(inner, cbor, views[a], views[b]);
      ghost var cmp := (a, b) => CompareIn(views, inner, cbor, a, b);
      ViewsArePreordered(statements, views, inner, cbor);
      ViewsCompare(statements, views);
      sorted := SortComparable(statements, compare, cmp);
      SortedViews(statements, sorted, views, inner, cbor);
    }
  }

  function CompareIn(views: map<Statement, View>, inner: (Inner, Inner) -> int, cbor: Inner -> string,
                     a: Statement, b: Statement): int
  {
    if a in views && b in views then OrderOrTie(inner, cbor, views[a], views[b]) else 0
  }

  predicate CanCompare(views: map<Statement, View>, a: Statement, b: Statement) {
    a in views && b in views && Comparable(views[a], views[b])
  }

  ghost predicate ComparableIn(s: seq<Statement>, views: map<Statement, View>) {
    forall i, j :: 0 <= i < |s| && 0 <= j < |s| && i != j ==> CanCompare(views, s[i], s[j])
  }

  lemma {:induction false} ViewsCompare(s: seq<Statement>, views: map<Statement, View>)
    requires AllComparable(ViewsOf(s)) && forall x :: x in s ==> x in views && views[x] == x.GetView()
    ensures ComparableIn(s, views)
  {
    forall i, j | 0 <= i < |s| && 0 <= j < |s| && i != j ensures CanCompare(views, s[i], s[j]) {
      assert s[i] in s && s[j] in s;
      assert i < j ==> Comparable(ViewsOf(s)[i], ViewsOf(s)[j]);
      assert j < i ==> Comparable(ViewsOf(s)[j], ViewsOf(s)[i]);
    }
  }

  /** Being comparable does not depend on the order either. */
  lemma {:induction false} ComparablePermuted(s: seq<Statement>, r: seq<Statement>, views: map<Statement, View>)
    requires multiset(r) == multiset(s) && ComparableIn(s, views)
    ensures forall i, j :: 0 <= i < j < |r| ==> CanCompare(views, r[i], r[j])
  {
    var related := (x, y) => CanCompare(views, x, y);
    PairwisePermuted(s, r, related);
    forall i, j | 0 <= i < j < |r| ensures CanCompare(views, r[i], r[j]) {
      assert related(r[i], r[j]);
    }
  }

  lemma {:induction false} SortedViews(s: seq<Statement>, r: seq<Statement>, views: map<Statement, View>,
                                       inner: (Inner, Inner) -> int, cbor: Inner -> string)
    requires multiset(r) == multiset(s) && AllComparable(ViewsOf(s))
    requires forall x :: x in s ==> x in views && views[x] == x.GetView()
    requires Sorted(r, (a, b) => CompareIn(views, inner, cbor, a, b))
    ensures InOrder(inner, cbor, ViewsOf(r))
  {
    ViewsCompare(s, views);
    ComparablePermuted(s, r, views);
    SameMembers(r, s);
    forall i, j | 0 <= i < j < |r|
      ensures Comparable(ViewsOf(r)[i], ViewsOf(r)[j]) && Order(inner, cbor, ViewsOf(r)[i], ViewsOf(r)[j]) <= 0
    {
      assert CompareIn(views, inner, cbor, r[i], r[j]) <= 0;
      assert r[i] in r && r[j] in r;
    }
  }

  lemma {:induction false} ViewsArePreordered(s: seq<Statement>, views: map<Statement, View>,
                                              inner: (Inner, Inner) -> int, cbor: Inner -> string)
    requires forall x :: x in s ==> x in views
    ensures TotalPreorder(s, (a, b) => CompareIn(views, inner, cbor, a, b))
  {
    forall x, y | x in s && y in s
      ensures CompareIn(views, inner, cbor, x, y) <= 0 <==> CompareIn(views, inner, cbor, y, x) >= 0
    {
      if Comparable(views[x], views[y]) {
        OrderAntisymmetric(inner, cbor, views[x], views[y]);
      }
    }
    forall x, y, z | x in s && y in s && z in s
                     && CompareIn(views, inner, cbor, x, y) <= 0 && CompareIn(views, inner, cbor, y, z) <= 0
      ensures CompareIn(views, inner, cbor, x, z) <= 0
    {
      OrderOrTieTransitive(inner, cbor, views[x], views[y], views[z]);
    }
  }

  ghost function ViewsOf(statements: seq<Statement>): (views: seq<View>)
    reads statements
    ensures |views| == |statements| && forall i :: 0 <= i < |views| ==> views[i] == statements[i].GetView()
  {
    seq(|statements|, i requires 0 <= i < |statements| reads statements => statements[i].GetView())
  }

  /** When everything is in the repository of the base directory and the other paths differ, neither the
      collection nor the subjects of the directory statement depend on the order of the other summaries. */
  lemma {:induction false} CoreStatementCanonical(base: Summary, rest: seq<Summary>, c: Collection,
                                                  subjects: seq<Subject>,
                                                  rest': seq<Summary>, c': Collection, subjects': seq<Subject>)
    requires base.common.digest == "" && multiset(rest) == multiset(rest')
    requires forall s :: s in rest ==> s.SameRepo(base)
    requires forall x, y :: x in rest && y in rest && PathOf(x) == PathOf(y) ==> x == y
    requires IsCollectionOf([base] + rest, c) && IsCollectionOf([base] + rest', c')
    requires multiset(subjects) == multiset(SubjectsOf([base] + rest)) && Sorted(subjects, CompareNames)
    requires multiset(subjects') == multiset(SubjectsOf([base] + rest')) && Sorted(subjects', CompareNames)
    ensures c == c' && subjects == subjects'
  {
    CollectionCanonical(base, rest, rest', c, c');
    var all, all' := SubjectsOf([base] + rest), SubjectsOf([base] + rest');
    FlatMapPermuted([base] + rest, [base] + rest', SubjectsOfOne);
    SubjectsArePreordered(subjects);
    SameMembers(subjects, all);
    NamesDiffer(base, rest);
    SortedUnique(subjects, subjects', CompareNames);
  }

  /** Two iteration orders of the registry map. */
  ghost predicate AreOrders(registry: map<Key, Checker>, order: seq<Key>, order': seq<Key>) {
    && NoDuplicates(order) && (forall k :: k in order <==> k in registry)
    && NoDuplicates(order') && (forall k :: k in order' <==> k in registry)
  }

  lemma {:induction false} FoundPermuted(base: Option<Checker>, registry: map<Key, Checker>,
                                         summarise: Checker -> Result<Summary>, order: seq<Key>, order': seq<Key>)
    requires AllChecked(base, registry, summarise) && AreOrders(registry, order, order')
    ensures var found, found' := Found(base, registry, summarise, order), Found(base, registry, summarise, order');
      found[0] == found'[0] && multiset(found[1..]) == multiset(found'[1..])
  {
    var found, found' := Found(base, registry, summarise, order), Found(base, registry, summarise, order');
    PairedPermuted(order, found[1..], order', found'[1..]);
  }

  /** Everything registered is in the repository of the base directory, and summaries of one path are one. */
  ghost predicate AllInOneRepo(base: Option<Checker>, registry: map<Key, Checker>,
                               summarise: Checker -> Result<Summary>)
    requires AllChecked(base, registry, summarise)
  {
    && (forall k :: k in registry ==> summarise(registry[k]).value.SameRepo(summarise(base.value).value))
    && (forall k, l :: k in registry && l in registry
                       && PathOf(summarise(registry[k]).value) == PathOf(summarise(registry[l]).value)
                       ==> summarise(registry[k]) == summarise(registry[l]))
  }

  lemma {:induction false} FoundInOneRepo(base: Option<Checker>, registry: map<Key, Checker>,
                                          summarise: Checker -> Result<Summary>, order: seq<Key>)
    requires AllChecked(base, registry, summarise) && AllInOneRepo(base, registry, summarise)
    requires forall k :: k in order ==> k in registry
    ensures var rest := Found(base, registry, summarise, order)[1..];
      && (forall s :: s in rest ==> s.SameRepo(summarise(base.value).value))
      && (forall x, y :: x in rest && y in rest && PathOf(x) == PathOf(y) ==> x == y)
  {
    var rest := Found(base, registry, summarise, order)[1..];
    forall s | s in rest ensures s.SameRepo(summarise(base.value).value) {
      var k := RegisteredAs(base, registry, summarise, order, s);
    }
    forall x, y | x in rest && y in rest && PathOf(x) == PathOf(y) ensures x == y {
      var k := RegisteredAs(base, registry, summarise, order, x);
      var l := RegisteredAs(base, registry, summarise, order, y);
    }
  }

  /** A summary after the first is the one of a registered path. */
  lemma {:induction false} RegisteredAs(base: Option<Checker>, registry: map<Key, Checker>,
                                        summarise: Checker -> Result<Summary>, order: seq<Key>, s: Summary)
    returns (k: Key)
    requires AllChecked(base, registry, summarise) && forall k :: k in order ==> k in registry
    requires s in Found(base, registry, summarise, order)[1..]
    ensures k in registry && s == summarise(registry[k]).value
  {
    var rest := Found(base, registry, summarise, order)[1..];
    var i :| 0 <= i < |rest| && rest[i] == s;
    k := order[i];
    assert k in order;
  }

  /** The statement about the directory does not depend on the order in which the registry map is ranged over. */
  lemma {:induction false} MapOrderIrrelevant(base: Option<Checker>, registry: map<Key, Checker>,
                                              summarise: Checker -> Result<Summary>, dir: string,
                                              order: seq<Key>, s: Statement, c: Collection,
                                              order': seq<Key>, s': Statement, c': Collection)
    requires AllChecked(base, registry, summarise) && AllInOneRepo(base, registry, summarise)
    requires summarise(base.value).value.common.digest == "" && AreOrders(registry, order, order')
    requires IsCoreStatement(s, dir, c, Found(base, registry, summarise, order))
    requires IsCoreStatement(s', dir, c', Found(base, registry, summarise, order'))
    ensures s.GetView() == s'.GetView() && c == c'
    ensures |c.entryGroups| == 1 && c.entryGroups[0][0] == summarise(base.value).value
  {
    var found, found' := Found(base, registry, summarise, order), Found(base, registry, summarise, order');
    var b := summarise(base.value).value;
    assert found == [b] + found[1..] && found' == [b] + found'[1..];
    FoundPermuted(base, registry, summarise, order, order');
    FoundInOneRepo(base, registry, summarise, order);
    CollectionCanonical(b, found[1..], found'[1..], c, c');
    CoreStatementCanonical(b, found[1..], c, s.subjects, found'[1..], c', s'.subjects);
  }

  lemma {:induction false} NamesDiffer(base: Summary, rest: seq<Summary>)
    requires base.common.digest == ""
    requires forall x, y :: x in rest && y in rest && PathOf(x) == PathOf(y) ==> x == y
    ensures var all := SubjectsOf([base] + rest);
      forall x, y :: x in all && y in all && CompareNames(x, y) == 0 ==> x == y
  {
    var all := SubjectsOf([base] + rest);
    FlatMapMembers([base] + rest, SubjectsOfOne);
    forall x | x in all ensures exists a :: a in rest && x == Subject(PathOf(a), a.common.digest) {
      var a :| a in [base] + rest && x in SubjectsOfOne(a);
      assert a in rest;
    }
  }
}
