/** Checking a file or directory against the commit that is checked out (attest/vcs/git/git.go). */
module GitCheck {
  import opened Wrappers
  import opened Seqs
  import opened Paths
  import opened Summaries

  datatype File = File(name: string, hash: string)

  datatype Object = Blob(hash: string) | Tree(hash: string, files: seq<File>) | OtherObject(hash: string)

  datatype Mode = Regular | Deprecated | Executable | Dir | OtherMode

  /** What looking up a path in the tree of the commit finds. */
  datatype Lookup = Entry(mode: Mode, hash: string) | NotFound | Failed(error: string)

  datatype StatusCode = Unmodified | OtherStatus(code: char)

  datatype FileStatus = FileStatus(staging: StatusCode, worktree: StatusCode)

  datatype Remote = Remote(name: string, urls: seq<string>)

  /** Everything outside the program: the file system and the git repositories in it, which are known by the
      directory they were opened from. */
  datatype World = World(
    cwd: Result<string>,
    opens: string -> bool,
    worktree: string -> Result<string>,
    headTree: string -> Result<string>,
    findEntry: (string, string) -> Lookup,
    fetch: (string, string) -> Result<Object>,
    contentHash: (string, string) -> Result<string>,
    status: string -> Result<map<string, FileStatus>>,
    remotes: string -> Result<seq<Remote>>,
    endpoint: string -> Result<string>,
    head: string -> Result<GitReference>)

  /** The nearest directory above a path, given by its components, that holds a repository. */
  function DetectRepoAbove(opens: string -> bool, cs: seq<string>): Option<string> {
    if cs == [] then None
    else
      var dir := Render(true, cs[..|cs| - 1]);
      if opens(dir) then Some(dir) else DetectRepoAbove(opens, cs[..|cs| - 1])
  }

  /** It is a proper ancestor that opens, with none that opens between it and the path. */
  lemma {:induction false} DetectRepoMeaning(opens: string -> bool, cs: seq<string>)
    ensures var found := DetectRepoAbove(opens, cs);
      && (found.None? ==> forall n :: 0 <= n < |cs| ==> !opens(Render(true, cs[..n])))
      && (found.Some? ==> exists n :: 0 <= n < |cs| && found.value == Render(true, cs[..n]) && opens(found.value)
                                      && forall m :: n < m < |cs| ==> !opens(Render(true, cs[..m])))
    decreases |cs|
  {
    if cs != [] {
      var front := cs[..|cs| - 1];
      DetectRepoMeaning(opens, front);
      assert forall n :: 0 <= n <= |front| ==> front[..n] == cs[..n];
      if opens(Render(true, front)) {
        assert front == cs[..|front|];
      }
    }
  }

  /** `filepath.Abs`, which fails with the working directory. */
  function AbsIn(world: World, path: string): Result<string> {
    if Rooted(path) then Ok(Clean(path))
    else match world.cwd
      case Ok(cwd) => Ok(FilepathJoin(cwd, path))
      case Err(e) => Err(e)
  }

  /** It is the absolute path from the working directory, and fails only for a relative path without one. */
  lemma {:induction false} AbsInMeaning(world: World, path: string)
    ensures world.cwd.Ok? ==> AbsIn(world, path) == Ok(Abs(world.cwd.value, path))
    ensures AbsIn(world, path).Err? <==> !Rooted(path) && world.cwd.Err?
  {
  }

  function FindByPath(world: World, repo: string, path: string): Result<Option<Object>> {
    match world.headTree(repo)
    case Err(e) => Err(e)
    case Ok(_) =>
      match world.findEntry(repo, path)
      case Entry(mode, hash) =>
        if mode == OtherMode then Err("unsupported mode")
        else (match world.fetch(repo, hash) case Ok(o) => Ok(Some(o)) case Err(e) => Err(e))
      case NotFound => Ok(None)
      case Failed(e) => Err(e)
  }

  /** An object is found exactly when the head commit has an entry of a known kind there that can be read;
      nothing is found exactly when the commit has no entry. */
  lemma {:induction false} FindMeaning(world: World, repo: string, path: string)
    ensures forall o :: FindByPath(world, repo, path) == Ok(Some(o)) <==>
      && world.headTree(repo).Ok? && world.findEntry(repo, path).Entry?
      && world.findEntry(repo, path).mode != OtherMode
      && world.fetch(repo, world.findEntry(repo, path).hash) == Ok(o)
    ensures FindByPath(world, repo, path) == Ok(None) <==>
            world.headTree(repo).Ok? && world.findEntry(repo, path) == NotFound
  {
  }

  /** What a completed check found out. */
  datatype Checked = Checked(unmodified: bool, obj: Object, blobHash: string, repoPath: string)

  /** Reading the committed files in order, up to the first that cannot be read or has changed. */
  function FilesUnmodified(world: World, repo: string, dir: string, files: seq<File>): Result<bool> {
    if files == [] then Ok(true)
    else match world.contentHash(repo, FilepathJoin(dir, files[0].name))
      case Err(e) => Err(e)
      case Ok(hash) => if hash != files[0].hash then Ok(false) else FilesUnmodified(world, repo, dir, files[1..])
  }

  predicate Changed(s: FileStatus) {
    s.staging != Unmodified || s.worktree != Unmodified
  }

  ghost predicate NothingChangedIn(dir: string, status: map<string, FileStatus>) {
    forall p :: p in status && Changed(status[p]) ==> !FileIsInDir(p, dir)
  }

  ghost function CheckObject(world: World, repo: string, repoPath: string, o: Object): Result<Checked> {
    match o
    case Blob(hash) =>
      (match world.contentHash(repo, repoPath)
       case Err(e) => Err(e)
       case Ok(h) => Ok(Checked(h == hash, o, h, repoPath)))
    case Tree(_, files) =>
      (match FilesUnmodified(world, repo, repoPath, files)
       case Err(e) => Err(e)
       case Ok(false) => Ok(Checked(false, o, "", repoPath))
       case Ok(true) =>
         (match world.status(repo)
          case Err(e) => Err(e)
          case Ok(status) => Ok(Checked(NothingChangedIn(repoPath, status), o, "", repoPath))))
    case OtherObject(_) => Err("unsupported object type")
  }

  /** What checking a path of a repository means. */
  ghost function CheckAt(world: World, repo: string, absPath: string): Result<Option<Checked>> {
    match world.worktree(repo)
    case Err(e) => Err(e)
    case Ok(root) =>
      match Rel(root, absPath)
      case None => Err("cannot make path relative")
      case Some(repoPath) =>
        match FindByPath(world, repo, repoPath)
        case Err(e) => Err(e)
        case Ok(None) => Ok(None)
        case Ok(Some(o)) =>
          match CheckObject(world, repo, repoPath, o)
          case Err(e) => Err(e)
          case Ok(c) => Ok(Some(c))
  }

  /** The repository that a path is in, and the absolute path. */
  function Detected(world: World, path: string): Result<Option<(string, string)>> {
    match AbsIn(world, path)
    case Err(e) => Err(e)
    case Ok(abs) =>
      match DetectRepoAbove(world.opens, Components(abs))
      case None => Ok(None)
      case Some(repo) => Ok(Some((repo, abs)))
  }

  ghost function CheckLocation(world: World, location: Result<Option<(string, string)>>): Result<Option<Checked>> {
    match location
    case Err(e) => Err(e)
    case Ok(None) => Ok(None)
    case Ok(Some(l)) => CheckAt(world, l.0, l.1)
  }

  /** A committed file whose content in the working tree is the committed one. */
  predicate Same(world: World, repo: string, dir: string, file: File) {
    world.contentHash(repo, FilepathJoin(dir, file.name)) == Ok(file.hash)
  }

  predicate Readable(world: World, repo: string, dir: string, file: File) {
    world.contentHash(repo, FilepathJoin(dir, file.name)).Ok?
  }

  /** The early exits decide exactly: the first file that is not as committed settles the matter,
      as an error if it cannot be read and as a modification otherwise; the files after it are not looked at. */
  lemma {:induction false} FilesUnmodifiedMeaning(world: World, repo: string, dir: string, files: seq<File>)
    ensures FilesUnmodified(world, repo, dir, files) == Ok(true) <==>
            forall i :: 0 <= i < |files| ==> Same(world, repo, dir, files[i])
    ensures forall n :: 0 <= n < |files| && IsFirstDifference(world, repo, dir, files, n) ==>
      (Readable(world, repo, dir, files[n]) ==> FilesUnmodified(world, repo, dir, files) == Ok(false))
      && (!Readable(world, repo, dir, files[n]) ==> FilesUnmodified(world, repo, dir, files).Err?)
  {
    if files != [] {
      var rest := files[1..];
      FilesUnmodifiedMeaning(world, repo, dir, rest);
      assert forall i :: 0 <= i < |rest| ==> rest[i] == files[i + 1];
      forall n | 0 < n < |files| && IsFirstDifference(world, repo, dir, files, n)
        ensures IsFirstDifference(world, repo, dir, rest, n - 1) && Same(world, repo, dir, files[0])
      {
        assert rest[n - 1] == files[n];
      }
    }
  }

  ghost predicate IsFirstDifference(world: World, repo: string, dir: string, files: seq<File>, n: nat) {
    n < |files| && !Same(world, repo, dir, files[n]) && forall j :: 0 <= j < n ==> Same(world, repo, dir, files[j])
  }

  lemma {:induction false} FirstDifference(world: World, repo: string, dir: string, files: seq<File>, i: nat)
    returns (n: nat)
    requires i < |files| && !Same(world, repo, dir, files[i])
    ensures IsFirstDifference(world, repo, dir, files, n)
    decreases i
  {
    if j: nat :| j < i && !Same(world, repo, dir, files[j]) {
      n := FirstDifference(world, repo, dir, files, j);
    } else {
      n := i;
    }
  }

  /** With readable files and a status a directory is reported unmodified exactly when every committed file in it
      has its committed content and no changed entry lies in it. */
  lemma {:induction false} TreeCheckMeaning(world: World, repo: string, dir: string, hash: string, files: seq<File>)
    requires forall i :: 0 <= i < |files| ==> Readable(world, repo, dir, files[i])
    requires world.status(repo).Ok?
    ensures var r := CheckObject(world, repo, dir, Tree(hash, files));
      && r.Ok?
      && (r.value.unmodified <==>
            && (forall i :: 0 <= i < |files| ==> Same(world, repo, dir, files[i]))
            && NothingChangedIn(dir, world.status(repo).value))
  {
    FilesUnmodifiedMeaning(world, repo, dir, files);
    if i: nat :| i < |files| && !Same(world, repo, dir, files[i]) {
      var n := FirstDifference(world, repo, dir, files, i);
    }
  }

  /** Without these, it is reported unmodified only when the same holds, and modified only when it does not. */
  lemma {:induction false} TreeCheckSound(world: World, repo: string, dir: string, hash: string, files: seq<File>)
    ensures var r := CheckObject(world, repo, dir, Tree(hash, files));
      r.Ok? ==> (r.value.unmodified <==>
        && (forall i :: 0 <= i < |files| ==> Same(world, repo, dir, files[i]))
        && world.status(repo).Ok? && NothingChangedIn(dir, world.status(repo).value))
  {
    FilesUnmodifiedMeaning(world, repo, dir, files);
  }

  predicate ChangedAt(status: map<string, FileStatus>, p: string) {
    p in status && Changed(status[p])
  }

  /** The path is in the work tree of the repository, under `repoPath`, and the head commit has the object there. */
  ghost predicate Committed(world: World, repo: string, absPath: string, repoPath: string, o: Object) {
    && world.worktree(repo).Ok? && Rel(world.worktree(repo).value, absPath) == Some(repoPath)
    && world.headTree(repo).Ok? && world.findEntry(repo, repoPath).Entry?
    && world.findEntry(repo, repoPath).mode != OtherMode
    && world.fetch(repo, world.findEntry(repo, repoPath).hash) == Ok(o)
  }

  /** The path is in the work tree, and the head commit has nothing there. */
  ghost predicate NotCommitted(world: World, repo: string, absPath: string) {
    && world.worktree(repo).Ok? && Rel(world.worktree(repo).value, absPath).Some?
    && world.headTree(repo).Ok?
    && world.findEntry(repo, Rel(world.worktree(repo).value, absPath).value) == NotFound
  }

  /** A file is unmodified if and only if its content hashes to what was committed; only reading it can fail. */
  ghost predicate FileOutcome(world: World, repo: string, repoPath: string, h: string, r: Result<Option<Checked>>) {
    match world.contentHash(repo, repoPath)
    case Err(e) => r == Err(e)
    case Ok(content) => r == Ok(Some(Checked(content == h, Blob(h), content, repoPath)))
  }

  lemma {:induction false} FileCheckMeaning(world: World, repo: string, absPath: string, repoPath: string, h: string)
    requires Committed(world, repo, absPath, repoPath, Blob(h))
    ensures FileOutcome(world, repo, repoPath, h, CheckAt(world, repo, absPath))
  {
  }

  /** No entry of the status that is staged or changed lies in the directory. */
  ghost predicate NoChangeBelow(dir: string, status: map<string, FileStatus>) {
    forall p :: p in status && LiesIn(p, dir) ==>
      status[p].staging == Unmodified && status[p].worktree == Unmodified
  }

  ghost predicate LiesIn(p: string, dir: string) {
    && Rooted(p) == Rooted(dir) && Components(dir) <= Components(p)
    && (|Components(dir)| < |Components(p)| ==> Components(p)[|Components(dir)|] != "..")
  }

  lemma {:induction false} NothingChangedMeaning(dir: string, status: map<string, FileStatus>)
    ensures NothingChangedIn(dir, status) <==> NoChangeBelow(dir, status)
  {
    forall p ensures FileIsInDir(p, dir) <==> LiesIn(p, dir) {
      FileIsInDirMeaning(p, dir);
    }
  }

  /** A directory is unmodified if and only if every committed file in it hashes to what was committed and the
      status has no change in it. The check fails exactly when the first file that is not as committed cannot be
      read, or all files are as committed and there is no status. */
  ghost predicate DirOutcome(world: World, repo: string, repoPath: string, h: string, files: seq<File>,
                             r: Result<Option<Checked>>)
  {
    && (r.Err? <==> FailsOnFile(world, repo, repoPath, files)
                    || (AllAsCommitted(world, repo, repoPath, files) && world.status(repo).Err?))
    && (r.Ok? ==> r.value.Some? && r.value.value.obj == Tree(h, files) && r.value.value.repoPath == repoPath)
    && (r.Ok? ==> (r.value.value.unmodified <==>
          && AllAsCommitted(world, repo, repoPath, files)
          && world.status(repo).Ok? && NoChangeBelow(repoPath, world.status(repo).value)))
  }

  lemma {:induction false} DirCheckMeaning(world: World, repo: string, absPath: string, repoPath: string,
                                           h: string, files: seq<File>)
    requires Committed(world, repo, absPath, repoPath, Tree(h, files))
    ensures DirOutcome(world, repo, repoPath, h, files, CheckAt(world, repo, absPath))
  {
    FilesUnmodifiedMeaning(world, repo, repoPath, files);
    if world.status(repo).Ok? {
      NothingChangedMeaning(repoPath, world.status(repo).value);
    }
    if !AllAsCommitted(world, repo, repoPath, files) {
      var i :| 0 <= i < |files| && world.contentHash(repo, FilepathJoin(repoPath, files[i].name)) != Ok(files[i].hash);
      var n := FirstDifference(world, repo, repoPath, files, i);
      OneFirstDifference(world, repo, repoPath, files, n);
    }
  }

  ghost predicate AllAsCommitted(world: World, repo: string, dir: string, files: seq<File>) {
    forall i :: 0 <= i < |files| ==> world.contentHash(repo, FilepathJoin(dir, files[i].name)) == Ok(files[i].hash)
  }

  /** The first file that is not as committed cannot be read. */
  ghost predicate FailsOnFile(world: World, repo: string, dir: string, files: seq<File>) {
    exists n :: 0 <= n < |files| && world.contentHash(repo, FilepathJoin(dir, files[n].name)).Err?
                && AllAsCommitted(world, repo, dir, files[..n])
  }

  lemma {:induction false} OneFirstDifference(world: World, repo: string, dir: string, files: seq<File>, n: nat)
    requires IsFirstDifference(world, repo, dir, files, n)
    ensures FailsOnFile(world, repo, dir, files) <==> !Readable(world, repo, dir, files[n])
  {
    assert AllAsCommitted(world, repo, dir, files[..n]);
    if m :| 0 <= m < |files| && world.contentHash(repo, FilepathJoin(dir, files[m].name)).Err?
            && AllAsCommitted(world, repo, dir, files[..m]) {
      assert !Same(world, repo, dir, files[m]);
      if n < m {
        assert files[..m][n] == files[n];
      }
    }
  }

  lemma {:induction false} NotCommittedMeaning(world: World, repo: string, absPath: string)
    ensures CheckAt(world, repo, absPath) == Ok(None) <==> NotCommitted(world, repo, absPath)
  {
  }

  /** Two worlds that look the same at every path in a directory, whatever they are like elsewhere. */
  ghost predicate AgreeInside(w: World, w': World, repo: string, dir: string) {
    && (forall p :: FileIsInDir(p, dir) ==> w.contentHash(repo, p) == w'.contentHash(repo, p))
    && (if w.status(repo).Ok? && w'.status(repo).Ok?
        then forall p :: FileIsInDir(p, dir) ==>
          (ChangedAt(w.status(repo).value, p) <==> ChangedAt(w'.status(repo).value, p))
        else w.status(repo) == w'.status(repo))
  }

  /** No committed file of the object is read outside the directory that it was found at. */
  ghost predicate StaysInside(dir: string, o: Object) {
    o.Tree? ==> forall i :: 0 <= i < |o.files| ==> FileIsInDir(FilepathJoin(dir, o.files[i].name), dir)
  }

  /** Plain names, as git has them in its trees, keep the files inside. */
  lemma {:induction false} PlainNamesStayInside(dir: string, hash: string, files: seq<File>)
    requires forall i :: 0 <= i < |files| ==> Plain(files[i].name)
    ensures StaysInside(dir, Tree(hash, files))
  {
    forall i | 0 <= i < |files| ensures FileIsInDir(FilepathJoin(dir, files[i].name), dir) {
      JoinedIsInside(dir, files[i].name);
    }
  }

  lemma {:induction false} FilesInsideOnly(w: World, w': World, repo: string, dir: string, files: seq<File>)
    requires forall p :: FileIsInDir(p, dir) ==> w.contentHash(repo, p) == w'.contentHash(repo, p)
    requires forall i :: 0 <= i < |files| ==> FileIsInDir(FilepathJoin(dir, files[i].name), dir)
    ensures FilesUnmodified(w, repo, dir, files) == FilesUnmodified(w', repo, dir, files)
  {
    if files != [] {
      assert FileIsInDir(FilepathJoin(dir, files[0].name), dir);
      FilesInsideOnly(w, w', repo, dir, files[1..]);
    }
  }

  lemma {:induction false} StatusInsideOnly(dir: string, s: map<string, FileStatus>, s': map<string, FileStatus>)
    requires forall p :: FileIsInDir(p, dir) ==> (ChangedAt(s, p) <==> ChangedAt(s', p))
    ensures NothingChangedIn(dir, s) ==> NothingChangedIn(dir, s')
  {
    forall p | p in s' && Changed(s'[p]) && NothingChangedIn(dir, s) ensures !FileIsInDir(p, dir) {
      assert ChangedAt(s', p);
      assert ChangedAt(s, p) ==> p in s && Changed(s[p]);
    }
  }

  /** What differs outside a directory, contents or status, never matters for what is checked there. */
  lemma {:induction false} OutsideIsIrrelevant(w: World, w': World, repo: string, dir: string, o: Object)
    requires AgreeInside(w, w', repo, dir) && StaysInside(dir, o)
    ensures CheckObject(w, repo, dir, o) == CheckObject(w', repo, dir, o)
  {
    FileIsInDirMeaning(dir, dir);
    if o.Tree? {
      FilesInsideOnly(w, w', repo, dir, o.files);
      if w.status(repo).Ok? && w'.status(repo).Ok? {
        StatusInsideOnly(dir, w.status(repo).value, w'.status(repo).value);
        StatusInsideOnly(dir, w'.status(repo).value, w.status(repo).value);
      }
    }
  }

  /** So a file outside the directory can be given any content and any status. */
  lemma {:induction false} OutsideCanChange(w: World, repo: string, dir: string, o: Object,
                                            file: string, content: Result<string>, status: FileStatus)
    requires StaysInside(dir, o) && !FileIsInDir(file, dir) && w.status(repo).Ok?
    ensures CheckObject(w, repo, dir, o) == CheckObject(WithFile(w, repo, file, content, status), repo, dir, o)
  {
    OutsideIsIrrelevant(w, WithFile(w, repo, file, content, status), repo, dir, o);
  }

  /** The world with another content and status of one file. */
  function WithFile(w: World, repo: string, file: string, content: Result<string>, status: FileStatus): World
    requires w.status(repo).Ok?
  {
    w.(contentHash := (r, p) => if r == repo && p == file then content else w.contentHash(r, p),
       status := r => if r == repo && w.status(r).Ok? then Ok(w.status(r).value[file := status]) else w.status(r))
  }

  /** The content that each committed file should have. */
  function CommittedAt(dir: string, files: seq<File>, p: string): Result<string> {
    if files == [] then Err("no such file")
    else if FilepathJoin(dir, files[0].name) == p then Ok(files[0].hash)
    else CommittedAt(dir, files[1..], p)
  }

  ghost predicate NamesApart(dir: string, files: seq<File>) {
    forall i, j :: 0 <= i < j < |files| ==> FilepathJoin(dir, files[i].name) != FilepathJoin(dir, files[j].name)
  }

  lemma {:induction false} CommittedAtName(dir: string, files: seq<File>, i: nat)
    requires NamesApart(dir, files) && i < |files|
    ensures CommittedAt(dir, files, FilepathJoin(dir, files[i].name)) == Ok(files[i].hash)
  {
    if i > 0 {
      CommittedAtName(dir, files[1..], i - 1);
    }
  }

  /** Staying inside is also needed: a file that is read outside the directory makes two worlds that
      look the same inside come out differently. */
  lemma {:induction false} StrayFileMatters(world: World, repo: string, dir: string, hash: string,
                                            files: seq<File>, n: nat)
    returns (w: World, w': World)
    requires NamesApart(dir, files) && n < |files| && !FileIsInDir(FilepathJoin(dir, files[n].name), dir)
    ensures AgreeInside(w, w', repo, dir)
    ensures CheckObject(w, repo, dir, Tree(hash, files)) != CheckObject(w', repo, dir, Tree(hash, files))
  {
    w := world.(contentHash := (_, p) => CommittedAt(dir, files, p), status := _ => Ok(map[]));
    w' := WithFile(w, repo, FilepathJoin(dir, files[n].name), Err("unreadable"), FileStatus(Unmodified, Unmodified));
    forall i | 0 <= i < |files| ensures Same(w, repo, dir, files[i]) {
      CommittedAtName(dir, files, i);
    }
    FilesUnmodifiedMeaning(w, repo, dir, files);
    FilesUnmodifiedMeaning(w', repo, dir, files);
    assert !Same(w', repo, dir, files[n]);
  }

  /** Two worlds with the same commit of a repository. */
  ghost predicate SameCommit(w: World, w': World, repo: string) {
    && w.worktree(repo) == w'.worktree(repo) && w.headTree(repo) == w'.headTree(repo)
    && (forall p :: w.findEntry(repo, p) == w'.findEntry(repo, p))
    && (forall h :: w.fetch(repo, h) == w'.fetch(repo, h))
  }

  /** The same for the whole check of a path: only the commit and what lies in the path count. */
  lemma {:induction false} CheckLooksInside(w: World, w': World, repo: string, root: string, absPath: string)
    requires SameCommit(w, w', repo) && w.worktree(repo) == Ok(root)
    requires var dir := Rel(root, absPath);
      dir.Some? ==>
        && AgreeInside(w, w', repo, dir.value)
        && var o := FindByPath(w, repo, dir.value); o.Ok? && o.value.Some? ==> StaysInside(dir.value, o.value.value)
    ensures CheckAt(w, repo, absPath) == CheckAt(w', repo, absPath)
  {
    var dir := Rel(root, absPath);
    if dir.Some? {
      assert FindByPath(w, repo, dir.value) == FindByPath(w', repo, dir.value);
      var o := FindByPath(w, repo, dir.value);
      if o.Ok? && o.value.Some? {
        OutsideIsIrrelevant(w, w', repo, dir.value, o.value.value);
      }
    }
  }

  class PathCheckerCache {
    var checked: bool
    var unmodified: bool
    var absPath: string
    var repo: Option<string>
    var obj: Option<Object>
    var blobHash: string
    var repoPath: string

    constructor ()
      ensures !checked && !unmodified && repo == None && obj == None
      ensures absPath == "" && blobHash == "" && repoPath == ""
    {
      checked, unmodified, absPath, repo, obj, blobHash, repoPath := false, false, "", None, None, "", "";
    }

    /** The cache holds the result of a check. */
    ghost predicate Holds(c: Checked)
      reads this
    {
      checked && unmodified == c.unmodified && obj == Some(c.obj) && repoPath == c.repoPath && repo.Some?
      && (c.obj.Blob? ==> blobHash == c.blobHash)
    }
  }

  class PathChecker {
    const path: string
    const digest: string
    var cache: PathCheckerCache?

    constructor (path: string, digest: string)
      ensures this.path == path && this.digest == digest && cache == null
    {
      this.path := path;
      this.digest := digest;
      this.cache := null;
    }

    /** A cache that says it was checked knows the repository and the object. */
    ghost predicate Valid()
      reads this, cache
    {
      cache != null && cache.checked ==> cache.repo.Some? && cache.obj.Some?
    }

    /** The repository and absolute path the checker works with: those in the cache, or newly detected ones. */
    ghost function Location(world: World): Result<Option<(string, string)>>
      reads this, cache
    {
      if cache != null && cache.repo.Some? then Ok(Some((cache.repo.value, cache.absPath))) else Detected(world, path)
    }

    /** What a check comes to. */
    ghost function Outcome(world: World): Result<Option<Checked>>
      reads this, cache
    {
      CheckLocation(world, Location(world))
    }

    method Reset()
      modifies this
      ensures cache == null
    {
      cache := null;
    }

    method Negative(err: Option<string>) returns (checked: bool, unmodified: bool, e: Option<string>)
      modifies this
      ensures cache == null && !checked && !unmodified && e == err
    {
      Reset();
      return false, false, err;
    }

    method DetectRepo(world: World) returns (ok: bool, err: Option<string>)
      requires Valid()
      modifies this, cache
      ensures Valid() && cache != null
      ensures if old(cache) == null then fresh(cache) else cache == old(cache)
      ensures AbsIn(world, path).Err? ==> !ok && err == Some(AbsIn(world, path).error)
      ensures AbsIn(world, path).Ok? ==>
        && err == None && ok == DetectRepoAbove(world.opens, Components(AbsIn(world, path).value)).Some?
        && (ok ==> cache.absPath == AbsIn(world, path).value
                   && cache.repo == DetectRepoAbove(world.opens, Components(AbsIn(world, path).value)))
    {
      if cache == null {
        cache := new PathCheckerCache();
      }
      match AbsIn(world, path) {
        case Err(e) => return false, Some(e);
        case Ok(abs) =>
          var repo := DetectRepoAbove(world.opens, Components(abs));
          if repo.None? {
            return false, None;
          }
          cache.absPath := abs;
          cache.repo := repo;
          return true, None;
      }
    }

    /** What was answered and cached is what came out: nothing is cached unless the check was completed. */
    ghost predicate Reports(outcome: Result<Option<Checked>>, checked: bool, unmodified: bool, err: Option<string>)
      reads this, cache
    {
      match outcome
      case Err(e) => !checked && !unmodified && err == Some(e) && cache == null
      case Ok(None) => !checked && !unmodified && err == None && cache == null
      case Ok(Some(c)) => checked && unmodified == c.unmodified && err == None && cache != null && cache.Holds(c)
    }

    /** Whether the path is committed, and whether it is as committed. */
    method Check(world: World) returns (checked: bool, unmodified: bool, err: Option<string>)
      requires Valid()
      modifies this, cache
      ensures Valid() && Reports(old(Outcome(world)), checked, unmodified, err)
      ensures cache != null ==> old(Location(world)) == Ok(Some((cache.repo.value, cache.absPath)))
      ensures old(Location(world)).Ok? && old(Location(world)).value.Some? ==>
        var l := old(Location(world)).value.value;
        && (forall p, h :: Committed(world, l.0, l.1, p, Blob(h)) ==>
              FileAnswer(world, l.0, p, h, checked, unmodified, err))
        && (forall p, h, files :: Committed(world, l.0, l.1, p, Tree(h, files)) ==>
              DirAnswer(world, l.0, p, files, checked, unmodified, err))
        && (NotCommitted(world, l.0, l.1) ==> !checked && err == None)
    {
      ghost var location := Location(world);
      checked, unmodified, err := CheckPath(world);
      if location.Ok? && location.value.Some? {
        AnswersMean(world, location.value.value, checked, unmodified, err);
      }
    }

    lemma {:induction false} AnswersMean(world: World, l: (string, string),
                                         checked: bool, unmodified: bool, err: Option<string>)
      requires Reports(CheckAt(world, l.0, l.1), checked, unmodified, err)
      ensures forall p, h :: Committed(world, l.0, l.1, p, Blob(h)) ==>
        FileAnswer(world, l.0, p, h, checked, unmodified, err)
      ensures forall p, h, files :: Committed(world, l.0, l.1, p, Tree(h, files)) ==>
        DirAnswer(world, l.0, p, files, checked, unmodified, err)
      ensures NotCommitted(world, l.0, l.1) ==> !checked && err == None
    {
      NotCommittedMeaning(world, l.0, l.1);
      forall p, h | Committed(world, l.0, l.1, p, Blob(h))
        ensures FileAnswer(world, l.0, p, h, checked, unmodified, err)
      {
        FileCheckMeaning(world, l.0, l.1, p, h);
      }
      forall p, h, files | Committed(world, l.0, l.1, p, Tree(h, files))
        ensures DirAnswer(world, l.0, p, files, checked, unmodified, err)
      {
        DirCheckMeaning(world, l.0, l.1, p, h, files);
      }
    }

    /** The steps of a check. */
    method CheckPath(world: World) returns (checked: bool, unmodified: bool, err: Option<string>)
      requires Valid()
      modifies this, cache
      ensures Valid() && Reports(old(Outcome(world)), checked, unmodified, err)
      ensures cache != null ==> old(Location(world)) == Ok(Some((cache.repo.value, cache.absPath)))
    {
      ghost var outcome := Outcome(world);
      if cache == null {
        cache := new PathCheckerCache();
      }
      if cache.repo.None? {
        var ok, e := DetectRepo(world);
        if e.Some? {
          checked, unmodified, err := Negative(e);
          return;
        }
        if !ok {
          checked, unmodified, err := Negative(None);
          return;
        }
      }
      var repo := cache.repo.value;
      assert outcome == CheckAt(world, repo, cache.absPath);
      var worktree := world.worktree(repo);
      if worktree.Err? {
        checked, unmodified, err := Negative(Some(worktree.error));
        return;
      }
      var repoPath := Rel(worktree.value, cache.absPath);
      if repoPath.None? {
        checked, unmodified, err := Negative(Some("cannot make path relative"));
        return;
      }
      cache.repoPath := repoPath.value;
      var obj := FindByPath(world, repo, repoPath.value);
      if obj.Err? {
        checked, unmodified, err := Negative(Some(obj.error));
        return;
      }
      if obj.value.None? {
        checked, unmodified, err := Negative(None);
        return;
      }
      checked, unmodified, err := CheckFound(world, repo, repoPath.value, obj.value.value);
    }

    /** The answer about a file: whether its content is the committed one, or why it cannot be read. */
    ghost predicate FileAnswer(world: World, repo: string, repoPath: string, h: string,
                               checked: bool, unmodified: bool, err: Option<string>)
      reads this, cache
    {
      match world.contentHash(repo, repoPath)
      case Err(e) => !checked && !unmodified && err == Some(e) && cache == null
      case Ok(content) =>
        && checked && err == None && (unmodified <==> content == h)
        && cache != null && cache.blobHash == content && cache.repoPath == repoPath && IsBlob()
    }

    /** The answer about a directory: whether its files are as committed and nothing else changed in it. */
    ghost predicate DirAnswer(world: World, repo: string, repoPath: string, files: seq<File>,
                              checked: bool, unmodified: bool, err: Option<string>)
      reads this, cache
    {
      && (err.Some? <==> FailsOnFile(world, repo, repoPath, files)
                         || (AllAsCommitted(world, repo, repoPath, files) && world.status(repo).Err?))
      && (err.Some? ==> !checked && !unmodified && cache == null)
      && (err == None ==> checked && cache != null && cache.repoPath == repoPath && IsTree())
      && (err == None ==> (unmodified <==>
            && AllAsCommitted(world, repo, repoPath, files)
            && world.status(repo).Ok? && NoChangeBelow(repoPath, world.status(repo).value)))
    }

    /** The part of a check that looks at the committed object. */
    method CheckFound(world: World, repo: string, repoPath: string, obj: Object)
      returns (checked: bool, unmodified: bool, err: Option<string>)
      requires Valid() && cache != null && cache.repo == Some(repo) && cache.repoPath == repoPath
      modifies this, cache
      ensures Valid()
      ensures CheckObject(world, repo, repoPath, obj).Err? ==>
        !checked && !unmodified && err == Some(CheckObject(world, repo, repoPath, obj).error) && cache == null
      ensures CheckObject(world, repo, repoPath, obj).Ok? ==>
        var c := CheckObject(world, repo, repoPath, obj).value;
        && checked && unmodified == c.unmodified && err == None && cache == old(cache) && cache.Holds(c)
        && cache.repo == old(cache.repo) && cache.absPath == old(cache.absPath)
    {
      cache.obj := Some(obj);
      cache.checked := true;
      match obj {
        case Blob(hash) =>
          var content := world.contentHash(repo, repoPath);
          if content.Err? {
            checked, unmodified, err := Negative(Some(content.error));
            return;
          }
          cache.unmodified := content.value == hash;
          cache.blobHash := content.value;
          return cache.checked, cache.unmodified, None;
        case Tree(_, files) =>
          cache.unmodified := true;
          var failed := CheckFiles(world, repo, repoPath, files);
          if failed.Some? {
            checked, unmodified, err := Negative(failed);
            return;
          }
          if !cache.unmodified {
            return cache.checked, cache.unmodified, None;
          }
          var status := world.status(repo);
          if status.Err? {
            checked, unmodified, err := Negative(Some(status.error));
            return;
          }
          CheckStatus(status.value, repoPath);
          return cache.checked, cache.unmodified, None;
        case OtherObject(_) =>
          checked, unmodified, err := Negative(Some("unsupported object type"));
          return;
      }
    }

    /** Every committed file is visited, but none is read once one was found modified. */
    method CheckFiles(world: World, repo: string, repoPath: string, files: seq<File>) returns (failed: Option<string>)
      requires cache != null && cache.unmodified
      modifies cache`unmodified
      ensures failed.Some? <==> FilesUnmodified(world, repo, repoPath, files).Err?
      ensures failed.Some? ==> failed.value == FilesUnmodified(world, repo, repoPath, files).error
      ensures failed.None? ==> Ok(cache.unmodified) == FilesUnmodified(world, repo, repoPath, files)
    {
      ghost var result := FilesUnmodified(world, repo, repoPath, files);
      for i := 0 to |files|
        invariant result == if cache.unmodified then FilesUnmodified(world, repo, repoPath, files[i..]) else Ok(false)
      {
        if !cache.unmodified {
          continue;
        }
        assert files[i..][0] == files[i] && files[i..][1..] == files[i + 1..];
        var content := world.contentHash(repo, FilepathJoin(repoPath, files[i].name));
        if content.Err? {
          return Some(content.error);
        }
        if content.value != files[i].hash {
          cache.unmodified := false;
        }
      }
      return None;
    }

    /** The status entries are tried in any order, up to the first changed one in the directory. */
    method CheckStatus(status: map<string, FileStatus>, repoPath: string)
      requires cache != null && cache.unmodified
      modifies cache`unmodified
      ensures cache.unmodified <==> NothingChangedIn(repoPath, status)
    {
      var paths := InAnyOrder(status.Keys);
      for i := 0 to |paths|
        invariant cache.unmodified
        invariant forall j :: 0 <= j < i && Changed(status[paths[j]]) ==> !FileIsInDir(paths[j], repoPath)
      {
        assert paths[i] in paths;
        if !Changed(status[paths[i]]) {
          continue;
        }
        if !FileIsInDir(paths[i], repoPath) {
          continue;
        }
        cache.unmodified := false;
        return;
      }
      forall p | p in status && Changed(status[p]) ensures !FileIsInDir(p, repoPath) {
        assert p in paths;
      }
    }

    predicate IsTree()
      reads this, cache
    {
      cache != null && cache.obj.Some? && cache.obj.value.Tree?
    }

    predicate IsBlob()
      reads this, cache
    {
      cache != null && cache.obj.Some? && cache.obj.value.Blob?
    }

    /** A summary of the last check, or of a new one if there was none. */
    method MakeSummary(world: World) returns (r: Result<Summary>)
      requires Valid()
      modifies this, cache
      ensures Valid()
      ensures r.Ok? <==> cache != null && cache.checked && Summarisable(world, cache.repo.value)
      ensures r.Ok? ==>
        var s := r.value;
        && s.common.unmodified == cache.unmodified && s.common.path == cache.repoPath
        && s.common.isDir == IsTree() && s.common.digest == digest
        && s.git.Some? && s.git.value.objectHash == ObjectHash()
        && SummarisesRepo(world, cache.repo.value, s)
      ensures old(cache) != null && old(cache.checked) ==>
        && cache == old(cache) && cache.checked && cache.repo == old(cache.repo) && cache.absPath == old(cache.absPath)
        && cache.unmodified == old(cache.unmodified) && cache.repoPath == old(cache.repoPath)
      ensures !(old(cache) != null && old(cache.checked)) ==>
        if old(Outcome(world)).Ok? && old(Outcome(world)).value.Some?
        then
          && cache != null && cache.Holds(old(Outcome(world)).value.value)
          && old(Location(world)) == Ok(Some((cache.repo.value, cache.absPath)))
        else cache == null
    {
      if cache == null || !cache.checked {
        var checked, _, err := Check(world);
        if err.Some? {
          return Err(err.value);
        }
        if !checked {
          return Err(path + " is not checked");
        }
      }
      r := Summarise(world);
    }

    /** The hash of the committed object if it is unmodified, of the content if a file is modified. */
    ghost function ObjectHash(): Option<string>
      reads this, cache
      requires Valid() && cache != null && cache.checked
    {
      if cache.unmodified then Some(cache.obj.value.hash)
      else if IsBlob() then Some(cache.blobHash)
      else None
    }

    method Summarise(world: World) returns (r: Result<Summary>)
      requires Valid() && cache != null && cache.checked
      ensures r.Ok? <==> Summarisable(world, cache.repo.value)
      ensures r.Ok? ==>
        var s := r.value;
        && s.common.unmodified == cache.unmodified && s.common.path == cache.repoPath
        && s.common.isDir == IsTree() && s.common.digest == digest
        && s.git.Some? && s.git.value.objectHash == ObjectHash()
        && SummarisesRepo(world, cache.repo.value, s)
    {
      var objectHash: Option<string> := None;
      if cache.unmodified {
        objectHash := Some(cache.obj.value.hash);
      } else if IsBlob() {
        objectHash := Some(cache.blobHash);
      }
      var remotes := world.remotes(cache.repo.value);
      if remotes.Err? {
        return Err(remotes.error);
      }
      var urls: seq<string> := [];
      if |remotes.value| > 0 {
        var primary := PrimaryRemote(remotes.value);
        OnlyPrimary(remotes.value, primary);
        urls := remotes.value[primary].urls;
      }
      var uri := "";
      if |urls| > 0 {
        var ep := world.endpoint(urls[0]);
        if ep.Err? {
          return Err(ep.error);
        }
        uri := ep.value;
      }
      var byName: map<string, seq<string>> := map[];
      for i := 0 to |remotes.value|
        invariant byName == RemotesByName(remotes.value[..i])
      {
        assert remotes.value[..i + 1][..i] == remotes.value[..i];
        byName := byName[remotes.value[i].name := remotes.value[i].urls];
      }
      assert remotes.value[..|remotes.value|] == remotes.value;
      var head := world.head(cache.repo.value);
      if head.Err? {
        return Err(head.error);
      }
      return Ok(Summary(Common(cache.unmodified, cache.repoPath, uri, IsTree(), digest),
                        Some(GitSummary(objectHash, byName, head.value))));
    }
  }

  const DEFAULT_PRIMARY_REMOTE_NAME := "origin"

  /** The last remote with the default name, or the first one if there is none. */
  ghost predicate IsPrimary(remotes: seq<Remote>, i: nat) {
    && i < |remotes|
    && (forall j :: i < j < |remotes| ==> remotes[j].name != DEFAULT_PRIMARY_REMOTE_NAME)
    && (i != 0 ==> remotes[i].name == DEFAULT_PRIMARY_REMOTE_NAME)
  }

  lemma {:induction false} OnlyPrimary(remotes: seq<Remote>, i: nat)
    requires IsPrimary(remotes, i)
    ensures forall j: nat :: IsPrimary(remotes, j) ==> j == i
  {
  }

  method PrimaryRemote(remotes: seq<Remote>) returns (primary: nat)
    requires remotes != []
    ensures IsPrimary(remotes, primary)
    ensures primary < |remotes| && forall j :: primary < j < |remotes| ==> remotes[j].name != "origin"
    ensures if exists j :: 0 <= j < |remotes| && remotes[j].name == "origin"
            then remotes[primary].name == "origin" else primary == 0
  {
    primary := 0;
    for i := 0 to |remotes|
      invariant primary < |remotes|
      invariant forall j :: primary < j < i ==> remotes[j].name != DEFAULT_PRIMARY_REMOTE_NAME
      invariant primary != 0 ==> remotes[primary].name == DEFAULT_PRIMARY_REMOTE_NAME
    {
      if remotes[i].name == DEFAULT_PRIMARY_REMOTE_NAME {
        primary := i;
      }
    }
  }

  function RemotesByName(remotes: seq<Remote>): map<string, seq<string>> {
    if remotes == [] then map[]
    else
      var r := remotes[|remotes| - 1];
      RemotesByName(remotes[..|remotes| - 1])[r.name := r.urls]
  }

  ghost predicate IsLastNamed(remotes: seq<Remote>, name: string, i: nat) {
    i < |remotes| && remotes[i].name == name && forall j :: i < j < |remotes| ==> remotes[j].name != name
  }

  /** Each name of a remote, and no other, is listed with the URLs of the last remote of that name. */
  lemma {:induction false} RemotesByNameMeaning(remotes: seq<Remote>, name: string) returns (i: nat)
    ensures name !in RemotesByName(remotes) ==> forall j :: 0 <= j < |remotes| ==> remotes[j].name != name
    ensures name in RemotesByName(remotes) ==>
      IsLastNamed(remotes, name, i) && RemotesByName(remotes)[name] == remotes[i].urls
    decreases |remotes|
  {
    i := 0;
    if remotes != [] {
      var n := |remotes| - 1;
      i := RemotesByNameMeaning(remotes[..n], name);
      if remotes[n].name == name {
        i := n;
      } else if name in RemotesByName(remotes) {
        LastStays(remotes, name, i);
      }
    }
  }

  lemma {:induction false} LastStays(remotes: seq<Remote>, name: string, i: nat)
    requires remotes != [] && remotes[|remotes| - 1].name != name
    requires IsLastNamed(remotes[..|remotes| - 1], name, i)
    ensures IsLastNamed(remotes, name, i)
  {
    var front := remotes[..|remotes| - 1];
    assert remotes[i] == front[i] && forall j :: i < j < |front| ==> remotes[j] == front[j];
  }

  /** The repository part of a summary: the endpoint of the primary remote's first URL, the remotes and the head. */
  ghost predicate SummarisesRepo(world: World, repo: string, s: Summary) {
    && s.git.Some?
    && world.remotes(repo).Ok? && world.head(repo) == Ok(s.git.value.reference)
    && s.git.value.remotes == RemotesByName(world.remotes(repo).value)
    && (world.remotes(repo).value == [] ==> s.common.uri == "")
    && (forall i: nat :: IsPrimary(world.remotes(repo).value, i) ==>
          var urls := world.remotes(repo).value[i].urls;
          if urls == [] then s.common.uri == "" else world.endpoint(urls[0]) == Ok(s.common.uri))
  }

  /** The remotes and the head can be read, and the first URL of the primary remote, if any, is an endpoint. */
  ghost predicate Summarisable(world: World, repo: string) {
    && world.remotes(repo).Ok? && world.head(repo).Ok?
    && (forall i: nat :: IsPrimary(world.remotes(repo).value, i) && world.remotes(repo).value[i].urls != [] ==>
          world.endpoint(world.remotes(repo).value[i].urls[0]).Ok?)
  }

  /** Summaries of fresh checkers in one repository, seen in one world, are in the same repository. */
  lemma {:induction false} OneRepoOneGroup(world: World, repo: string, s: Summary, t: Summary)
    requires SummarisesRepo(world, repo, s) && SummarisesRepo(world, repo, t)
    ensures s.SameRepo(t)
  {
    var remotes := world.remotes(repo).value;
    if remotes != [] {
      SomePrimary(remotes, |remotes|);
      var i :| IsPrimary(remotes, i);
    }
  }

  /** A path that is in a repository and committed there, with repository data that can be read. */
  ghost predicate CanSummarise(world: World, path: string) {
    var l, c := Detected(world, path), CheckLocation(world, Detected(world, path));
    l.Ok? && l.value.Some? && c.Ok? && c.value.Some? && Summarisable(world, l.value.value.0)
  }

  /** What the summary of a path that was just checked says. */
  ghost predicate SummarisesPath(world: World, path: string, digest: string, s: Summary)
    requires CanSummarise(world, path)
  {
    var c := CheckLocation(world, Detected(world, path)).value.value;
    && SummarisesRepo(world, Detected(world, path).value.value.0, s)
    && s.common.path == c.repoPath && s.common.unmodified == c.unmodified && s.common.digest == digest
    && s.common.isDir == c.obj.Tree?
    && s.git.value.objectHash ==
       if c.unmodified then Some(c.obj.hash) else if c.obj.Blob? then Some(c.blobHash) else None
  }

  /** The summary of a file tells the hash of its content; it is unmodified exactly when that was committed. */
  lemma {:induction false} FileSummaryMeaning(world: World, path: string, digest: string, s: Summary,
                                              repoPath: string, h: string)
    requires CanSummarise(world, path) && SummarisesPath(world, path, digest, s)
    requires var l := Detected(world, path).value.value; Committed(world, l.0, l.1, repoPath, Blob(h))
    ensures var content := world.contentHash(Detected(world, path).value.value.0, repoPath);
      && content.Ok? && s.git.value.objectHash == Some(content.value) && (s.common.unmodified <==> content.value == h)
      && s.common.path == repoPath && s.common.digest == digest && !s.common.isDir
  {
    var l := Detected(world, path).value.value;
    FileCheckMeaning(world, l.0, l.1, repoPath, h);
  }

  /** The summary of a directory tells the hash of its tree exactly when it is unmodified. */
  lemma {:induction false} DirSummaryMeaning(world: World, path: string, digest: string, s: Summary,
                                             repoPath: string, h: string, files: seq<File>)
    requires CanSummarise(world, path) && SummarisesPath(world, path, digest, s)
    requires var l := Detected(world, path).value.value; Committed(world, l.0, l.1, repoPath, Tree(h, files))
    ensures s.git.value.objectHash == if s.common.unmodified then Some(h) else None
    ensures var repo := Detected(world, path).value.value.0;
      s.common.unmodified <==>
        AllAsCommitted(world, repo, repoPath, files)
        && world.status(repo).Ok? && NoChangeBelow(repoPath, world.status(repo).value)
    ensures s.common.path == repoPath && s.common.digest == digest && s.common.isDir
  {
    var l := Detected(world, path).value.value;
    DirCheckMeaning(world, l.0, l.1, repoPath, h, files);
  }

  /** Summarises paths that have not been checked yet, up to the first that cannot be summarised. */
  method MakeSummaries(checkers: seq<PathChecker>, world: World) returns (r: Result<seq<Summary>>)
    requires NoDuplicates(checkers) && forall i :: 0 <= i < |checkers| ==> checkers[i].cache == null
    modifies checkers
    ensures r.Ok? <==> forall i :: 0 <= i < |checkers| ==> CanSummarise(world, checkers[i].path)
    ensures r.Ok? ==> |r.value| == |checkers| && forall i :: 0 <= i < |checkers| ==>
      SummarisesPath(world, checkers[i].path, checkers[i].digest, r.value[i])
  {
    var summaries: seq<Summary> := [];
    for i := 0 to |checkers|
      invariant |summaries| == i && forall j :: i <= j < |checkers| ==> checkers[j].cache == null
      invariant forall j :: 0 <= j < i ==>
        CanSummarise(world, checkers[j].path) &&
          SummarisesPath(world, checkers[j].path, checkers[j].digest, summaries[j])
    {
      var summary := checkers[i].MakeSummary(world);
      if summary.Err? {
        return Err(summary.error);
      }
      summaries := summaries + [summary.value];
    }
    return Ok(summaries);
  }

  /** Paths in one repository are summarised as one repository. */
  lemma {:induction false} SummariesOfOneRepo(world: World, repo: string, p: string, d: string, s: Summary,
                                              q: string, e: string, t: Summary)
    requires CanSummarise(world, p) && SummarisesPath(world, p, d, s) && Detected(world, p).value.value.0 == repo
    requires CanSummarise(world, q) && SummarisesPath(world, q, e, t) && Detected(world, q).value.value.0 == repo
    ensures s.SameRepo(t)
  {
    OneRepoOneGroup(world, repo, s, t);
  }

  lemma {:induction false} SomePrimary(remotes: seq<Remote>, n: nat)
    requires remotes != [] && n <= |remotes|
    requires forall j :: n <= j < |remotes| ==> remotes[j].name != DEFAULT_PRIMARY_REMOTE_NAME
    ensures exists i :: IsPrimary(remotes, i)
  {
    if n <= 1 {
      assert IsPrimary(remotes, 0);
    } else if remotes[n - 1].name == DEFAULT_PRIMARY_REMOTE_NAME {
      assert IsPrimary(remotes, n - 1);
    } else {
      SomePrimary(remotes, n - 1);
    }
  }

  lemma {:induction false} CheckedRepoPath(world: World, repo: string, root: string, absPath: string, c: Checked)
    requires world.worktree(repo) == Ok(root) && CheckAt(world, repo, absPath) == Ok(Some(c))
    ensures Rel(root, absPath) == Some(c.repoPath)
  {
  }

  /** A checker for a path below a directory reports the path that the registry has it under:
      the directory's own repository path, joined with the path. */
  lemma {:induction false} CheckedPathIsRegistered(world: World, repo: string, root: string, cwd: string,
                                                   dir: string, path: string, w: seq<string>, base: Checked, c: Checked)
    requires world.worktree(repo) == Ok(root) && Rooted(root) && Rooted(cwd) && (dir != "" || !Rooted(path))
    requires Components(Abs(cwd, dir)) == Components(root) + w
    requires StaysBelow(w, path)
    requires CheckAt(world, repo, Abs(cwd, dir)) == Ok(Some(base))
    requires CheckAt(world, repo, Abs(cwd, FilepathJoin(dir, path))) == Ok(Some(c))
    ensures c.repoPath == FilepathJoin(base.repoPath, path)
  {
    CheckedRepoPath(world, repo, root, Abs(cwd, dir), base);
    CheckedRepoPath(world, repo, root, Abs(cwd, FilepathJoin(dir, path)), c);
    RegisteredPathAgrees(root, cwd, dir, path, w);
  }
}
