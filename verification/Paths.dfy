/** Lexical file paths: `filepath.Clean`, `filepath.Join` and `filepath.Rel` with `/` as separator. */
module Paths {
  import opened Text
  import opened Wrappers

  predicate Rooted(path: string) {
    path != "" && path[0] == SEPARATOR
  }

  /** One more component on a cleaned list. */
  function Push(rooted: bool, acc: seq<string>, c: string): seq<string> {
    if c == "" || c == "." then acc
    else if c != ".." then acc + [c]
    else if acc != [] && acc[|acc| - 1] != ".." then acc[..|acc| - 1]
    else if rooted then acc
    else acc + [c]
  }

  function Normal(rooted: bool, acc: seq<string>, cs: seq<string>): seq<string>
    decreases |cs|
  {
    if cs == [] then acc else Normal(rooted, Push(rooted, acc, cs[0]), cs[1..])
  }

  /** The components that are left of a path once it is cleaned. */
  function Components(path: string): seq<string> {
    Normal(Rooted(path), [], Split(path))
  }

  function Render(rooted: bool, cs: seq<string>): string {
    if rooted then [SEPARATOR] + Join(cs) else if cs == [] then "." else Join(cs)
  }

  function Clean(path: string): string {
    Render(Rooted(path), Components(path))
  }

  function FilepathJoin(a: string, b: string): string {
    if a != "" then Clean(a + [SEPARATOR] + b) else if b != "" then Clean(b) else ""
  }

  function CommonPrefix(a: seq<string>, b: seq<string>): (n: nat)
    ensures n <= |a| && n <= |b| && forall i :: 0 <= i < n ==> a[i] == b[i]
    ensures n < |a| && n < |b| ==> a[n] != b[n]
  {
    if a == [] || b == [] || a[0] != b[0] then 0 else
      var n := CommonPrefix(a[1..], b[1..]);
      assert forall i :: 0 < i < n + 1 ==> a[i] == a[1..][i - 1] && b[i] == b[1..][i - 1];
      n + 1
  }

  function Ups(n: nat): (cs: seq<string>)
    ensures |cs| == n && forall i :: 0 <= i < n ==> cs[i] == ".."
  {
    seq(n, _ => "..")
  }

  function Rel(base: string, target: string): Option<string> {
    var b, t := Components(base), Components(target);
    var n := CommonPrefix(b, t);
    if Rooted(base) != Rooted(target) then None
    else if n < |b| && b[n] == ".." then None
    else Some(Render(false, Ups(|b| - n) + t[n..]))
  }

  /** Cleaned component lists: no empty or `.` component, and `..` only in front of a relative one. */
  ghost predicate Canonical(rooted: bool, cs: seq<string>) {
    && (forall i :: 0 <= i < |cs| ==> NoSeparator(cs[i]) && cs[i] != "" && cs[i] != ".")
    && (forall i :: 0 <= i < |cs| && cs[i] == ".." ==> !rooted && forall j :: 0 <= j < i ==> cs[j] == "..")
  }

  lemma {:induction false} NormalCanonical(rooted: bool, acc: seq<string>, cs: seq<string>)
    requires Canonical(rooted, acc)
    requires forall i :: 0 <= i < |cs| ==> NoSeparator(cs[i])
    ensures Canonical(rooted, Normal(rooted, acc, cs))
    decreases |cs|
  {
    if cs != [] {
      NormalCanonical(rooted, Push(rooted, acc, cs[0]), cs[1..]);
    }
  }

  lemma {:induction false} NormalOfCanonical(rooted: bool, acc: seq<string>, cs: seq<string>)
    requires Canonical(rooted, acc + cs)
    ensures Normal(rooted, acc, cs) == acc + cs
    decreases |cs|
  {
    if cs != [] {
      var next := acc + [cs[0]];
      assert (acc + cs)[|acc|] == cs[0];
      assert forall j :: 0 <= j < |acc| ==> (acc + cs)[j] == acc[j];
      assert Push(rooted, acc, cs[0]) == next;
      assert next + cs[1..] == acc + cs;
      NormalOfCanonical(rooted, next, cs[1..]);
    }
  }

  lemma {:induction false} NormalConcat(rooted: bool, acc: seq<string>, a: seq<string>, b: seq<string>)
    ensures Normal(rooted, acc, a + b) == Normal(rooted, Normal(rooted, acc, a), b)
    decreases |a|
  {
    if a == [] {
      assert a + b == b;
    } else {
      assert (a + b)[1..] == a[1..] + b;
      NormalConcat(rooted, Push(rooted, acc, a[0]), a[1..], b);
    }
  }

  lemma {:induction false} SplitJoinConcat(parts: seq<string>, b: string)
    requires Separated(parts)
    ensures Split(Join(parts) + [SEPARATOR] + b) == parts + Split(b)
  {
    if |parts| == 1 {
      SplitCons(parts[0], b);
    } else {
      var rest := Join(parts[1..]) + [SEPARATOR] + b;
      SplitJoinConcat(parts[1..], b);
      SplitCons(parts[0], rest);
      JoinConcat(parts, b);
      FirstAndRest(parts, Split(b));
    }
  }

  lemma {:induction false} JoinConcat(parts: seq<string>, b: string)
    requires |parts| > 1
    ensures Join(parts) + [SEPARATOR] + b == parts[0] + [SEPARATOR] + (Join(parts[1..]) + [SEPARATOR] + b)
  {
  }

  lemma {:induction false} FirstAndRest(a: seq<string>, b: seq<string>)
    requires a != []
    ensures [a[0]] + (a[1..] + b) == a + b
  {
  }

  lemma {:induction false} SplitConcat(a: string, b: string)
    ensures Split(a + [SEPARATOR] + b) == Split(a) + Split(b)
  {
    JoinSplit(a);
    SplitJoinConcat(Split(a), b);
  }

  lemma {:induction false} ComponentsCanonical(path: string)
    ensures Canonical(Rooted(path), Components(path))
  {
    NormalCanonical(Rooted(path), [], Split(path));
  }

  lemma {:induction false} RenderEmpty(rooted: bool)
    ensures Rooted(Render(rooted, [])) == rooted && Components(Render(rooted, [])) == []
  {
    if rooted {
      SplitConcat("", "");
      assert Render(rooted, []) == "" + [SEPARATOR] + "";
      assert Split(Render(rooted, [])) == ["", ""];
      assert ["", ""][1..] == [""];
    } else {
      SplitOne(".");
    }
  }

  lemma {:induction false} RenderRooted(cs: seq<string>)
    requires Canonical(true, cs) && cs != []
    ensures Split(Render(true, cs)) == [""] + cs
  {
    SplitJoin(cs);
    SplitConcat("", Join(cs));
    assert Render(true, cs) == "" + [SEPARATOR] + Join(cs);
  }

  lemma {:induction false} RenderRelative(cs: seq<string>)
    requires Canonical(false, cs) && cs != []
    ensures !Rooted(Render(false, cs)) && Split(Render(false, cs)) == cs
  {
    SplitJoin(cs);
    assert cs[0] != "" && NoSeparator(cs[0]);
    assert Join(cs)[0] == cs[0][0];
  }

  lemma {:induction false} NormalFromStart(rooted: bool, cs: seq<string>)
    requires Canonical(rooted, cs)
    ensures Normal(rooted, [], cs) == cs && Normal(rooted, [], [""] + cs) == cs
  {
    assert [] + cs == cs && ([""] + cs)[1..] == cs;
    NormalOfCanonical(rooted, [], cs);
    assert Push(rooted, [], "") == [];
  }

  /** Rendering a cleaned path loses nothing. */
  lemma {:induction false} RenderFaithful(rooted: bool, cs: seq<string>)
    requires Canonical(rooted, cs)
    ensures Rooted(Render(rooted, cs)) == rooted
    ensures Components(Render(rooted, cs)) == cs
  {
    if cs == [] {
      RenderEmpty(rooted);
    } else {
      NormalFromStart(rooted, cs);
      if rooted {
        RenderRooted(cs);
      } else {
        RenderRelative(cs);
      }
    }
  }

  lemma {:induction false} CleanFaithful(path: string)
    ensures Rooted(Clean(path)) == Rooted(path) && Components(Clean(path)) == Components(path)
    ensures Clean(path) != "" && Clean(Clean(path)) == Clean(path)
  {
    ComponentsCanonical(path);
    RenderFaithful(Rooted(path), Components(path));
  }

  lemma {:induction false} RenderInjective(r1: bool, a: seq<string>, r2: bool, b: seq<string>)
    requires Canonical(r1, a) && Canonical(r2, b) && Render(r1, a) == Render(r2, b)
    ensures r1 == r2 && a == b
  {
    RenderFaithful(r1, a);
    RenderFaithful(r2, b);
  }

  /** Joining continues the cleaning of the first path with the parts of the second. */
  lemma {:induction false} JoinComponents(a: string, b: string)
    requires a != ""
    ensures FilepathJoin(a, b) == Render(Rooted(a), Normal(Rooted(a), Components(a), Split(b)))
    ensures Canonical(Rooted(a), Normal(Rooted(a), Components(a), Split(b)))
  {
    var s := a + [SEPARATOR] + b;
    assert Rooted(s) == Rooted(a);
    SplitConcat(a, b);
    NormalConcat(Rooted(a), [], Split(a), Split(b));
    ComponentsCanonical(a);
    NormalCanonical(Rooted(a), Components(a), Split(b));
  }

  /** A clean relative path that does not climb. */
  predicate Plain(path: string) {
    Clean(path) == path && !Rooted(path) && ".." !in Components(path)
  }

  /** Adding a directory in front keeps differing plain paths apart. */
  lemma {:induction false} JoinInjectiveOnClean(dir: string, a: string, b: string)
    requires Plain(a) && Plain(b)
    requires FilepathJoin(dir, a) == FilepathJoin(dir, b)
    ensures a == b
  {
    CleanFaithful(a);
    CleanFaithful(b);
    if dir != "" {
      JoinComponents(dir, a);
      JoinComponents(dir, b);
      JoinPlain(dir, a);
      JoinPlain(dir, b);
      RenderInjective(Rooted(dir), Components(dir) + Components(a), Rooted(dir), Components(dir) + Components(b));
      assert Components(a) == (Components(dir) + Components(a))[|Components(dir)|..];
      assert Components(b) == (Components(dir) + Components(b))[|Components(dir)|..];
    }
  }

  /** A path that does not climb is appended as it is. */
  lemma {:induction false} JoinPlain(dir: string, a: string)
    requires Plain(a)
    ensures Normal(Rooted(dir), Components(dir), Split(a)) == Components(dir) + Components(a)
    ensures Canonical(Rooted(dir), Components(dir) + Components(a))
  {
    var d, cs := Components(dir), Components(a);
    ComponentsCanonical(dir);
    ComponentsCanonical(a);
    assert Canonical(Rooted(dir), d + cs) by {
      forall i | 0 <= i < |d + cs| ensures NoSeparator((d + cs)[i]) && (d + cs)[i] != "" && (d + cs)[i] != "." {
        if i >= |d| { assert (d + cs)[i] == cs[i - |d|]; }
      }
      forall i | 0 <= i < |d + cs| && (d + cs)[i] == ".."
        ensures !Rooted(dir) && forall j :: 0 <= j < i ==> (d + cs)[j] == ".."
      {
        assert i < |d|;
      }
    }
    NormalOfCanonical(Rooted(dir), d, cs);
    if cs == [] {
      SplitOne(".");
    } else {
      SplitJoin(cs);
    }
  }

  /** Once a relative path has climbed out it stays out. */
  lemma {:induction false} StaysOut(w: seq<string>, cs: seq<string>)
    requires w != [] && w[0] == ".."
    ensures var r := Normal(false, w, cs); r != [] && r[0] == ".."
    decreases |cs|
  {
    if cs != [] {
      StaysOut(Push(false, w, cs[0]), cs[1..]);
    }
  }

  /** Inside a directory tree, absolute and relative cleaning agree. */
  lemma {:induction false} NormalBelow(root: seq<string>, w: seq<string>, cs: seq<string>)
    requires ".." !in root && ".." !in w
    requires var r := Normal(false, w, cs); r == [] || r[0] != ".."
    ensures Normal(true, root + w, cs) == root + Normal(false, w, cs)
    decreases |cs|
  {
    if cs != [] {
      var next := Push(false, w, cs[0]);
      if cs[0] == ".." && w == [] {
        StaysOut(next, cs[1..]);
        assert false;
      }
      assert Push(true, root + w, cs[0]) == root + next;
      NormalBelow(root, next, cs[1..]);
    }
  }

  lemma {:induction false} CommonPrefixOfExtension(a: seq<string>, w: seq<string>)
    ensures CommonPrefix(a, a + w) == |a|
  {
  }

  /** For a directory at or below an absolute root, `Rel` gives the rest of its components. */
  lemma {:induction false} RelBelow(root: string, target: string, w: seq<string>)
    requires Rooted(root) && Rooted(target) && Components(target) == Components(root) + w
    ensures Rel(root, target) == Some(Render(false, w))
    ensures Canonical(false, w) && ".." !in w && ".." !in Components(root)
  {
    CommonPrefixOfExtension(Components(root), w);
    ComponentsCanonical(root);
    ComponentsCanonical(target);
    forall i | 0 <= i < |w| ensures w[i] == Components(target)[|Components(root)| + i] {}
    assert Ups(0) + w == w;
    assert Components(target)[|Components(root)|..] == w;
  }

  /** Climbing takes as many components off as there are, unless these climb themselves. */
  lemma {:induction false} NormalUps(rooted: bool, acc: seq<string>, n: nat)
    requires n <= |acc| && forall i :: |acc| - n <= i < |acc| ==> acc[i] != ".."
    ensures Normal(rooted, acc, Ups(n)) == acc[..|acc| - n]
    decreases n
  {
    if n > 0 {
      assert Ups(n)[0] == ".." && Ups(n)[1..] == Ups(n - 1);
      NormalUps(rooted, acc[..|acc| - 1], n - 1);
    } else {
      assert acc[..|acc|] == acc;
    }
  }

  /** Where climbing stops in a cleaned list, no component climbs any more. */
  lemma {:induction false} NoClimbAfter(rooted: bool, cs: seq<string>, n: nat)
    requires Canonical(rooted, cs) && n < |cs| && cs[n] != ".."
    ensures forall i :: n <= i < |cs| ==> cs[i] != ".."
  {
  }

  lemma {:induction false} PrefixAndRest(b: seq<string>, t: seq<string>)
    ensures var n := CommonPrefix(b, t); b[..|b| - (|b| - n)] == t[..n] && t[..n] + t[n..] == t
  {
  }

  lemma {:induction false} RelComponents(rooted: bool, b: seq<string>, t: seq<string>)
    requires Canonical(rooted, b) && Canonical(rooted, t)
    requires var n := CommonPrefix(b, t); n < |b| ==> b[n] != ".."
    ensures var n := CommonPrefix(b, t); Normal(rooted, b, Ups(|b| - n) + t[n..]) == t
  {
    var n := CommonPrefix(b, t);
    NormalConcat(rooted, b, Ups(|b| - n), t[n..]);
    ClimbToCommon(rooted, b, n);
    PrefixAndRest(b, t);
    NormalOfCanonical(rooted, t[..n], t[n..]);
  }

  lemma {:induction false} ClimbToCommon(rooted: bool, b: seq<string>, n: nat)
    requires Canonical(rooted, b) && n <= |b| && (n < |b| ==> b[n] != "..")
    ensures Normal(rooted, b, Ups(|b| - n)) == b[..|b| - (|b| - n)]
  {
    if n < |b| {
      NoClimbAfter(rooted, b, n);
    }
    NormalUps(rooted, b, |b| - n);
  }

  /** Joining the relative path to its base leads to the target. */
  lemma {:induction false} RelLeadsThere(base: string, target: string)
    requires Rel(base, target).Some?
    ensures FilepathJoin(base, Rel(base, target).value) == Clean(target)
  {
    var b, t := Components(base), Components(target);
    ComponentsCanonical(base);
    ComponentsCanonical(target);
    if base == "" {
      RelFromHere(t);
    } else {
      RelComponents(Rooted(base), b, t);
      RelRendered(Rooted(base), b, t);
      JoinComponents(base, Rel(base, target).value);
    }
  }

  lemma {:induction false} RelRendered(rooted: bool, b: seq<string>, t: seq<string>)
    requires Canonical(rooted, t)
    ensures var rel := Ups(|b| - CommonPrefix(b, t)) + t[CommonPrefix(b, t)..];
      Normal(rooted, b, Split(Render(false, rel))) == Normal(rooted, b, rel)
  {
    RelParts(b, t);
    NormalOfRendered(rooted, b, Ups(|b| - CommonPrefix(b, t)) + t[CommonPrefix(b, t)..]);
  }

  /** Continuing with a rendered relative path is continuing with its components. */
  lemma {:induction false} NormalOfRendered(rooted: bool, acc: seq<string>, cs: seq<string>)
    requires forall i :: 0 <= i < |cs| ==> NoSeparator(cs[i]) && cs[i] != ""
    ensures Normal(rooted, acc, Split(Render(false, cs))) == Normal(rooted, acc, cs)
  {
    if cs == [] {
      SplitOne(".");
      NormalOne(rooted, acc, ".");
    } else {
      SplitJoin(cs);
    }
  }

  lemma {:induction false} RelFromHere(t: seq<string>)
    requires Canonical(false, t)
    ensures CommonPrefix([], t) == 0 && Ups(0) + t[0..] == t
    ensures Clean(Render(false, t)) == Render(false, t) && Render(false, t) != ""
  {
    RenderFaithful(false, t);
  }

  /** A component followed by `..` is as good as nothing. */
  lemma {:induction false} DotDotCancels(a: string, c: string)
    requires a != "" && NoSeparator(c) && c != "" && c != "." && c != ".."
    ensures FilepathJoin(FilepathJoin(a, c), "..") == Clean(a) && FilepathJoin(a, ".") == Clean(a)
  {
    var rooted, cs := Rooted(a), Components(a);
    JoinComponents(a, c);
    SplitOne(c);
    NormalOne(rooted, cs, c);
    RenderFaithful(rooted, cs + [c]);
    CleanFaithful(a);
    var ac := FilepathJoin(a, c);
    CleanFaithful(a + [SEPARATOR] + c);
    JoinComponents(ac, "..");
    SplitOne("..");
    NormalOne(rooted, cs + [c], "..");
    JoinComponents(a, ".");
    SplitOne(".");
    NormalOne(rooted, cs, ".");
  }

  /** From the directory `w` below the root, the path does not climb out of the root. */
  predicate StaysBelow(w: seq<string>, path: string) {
    var r := Normal(false, w, Split(path));
    r == [] || r[0] != ".."
  }

  /** Taking a path relative to the root and joining a sub-path commute, as long as it stays below the root. */
  lemma {:induction false} RelJoin(root: string, dir: string, path: string, w: seq<string>)
    requires Rooted(root) && Rooted(dir) && Components(dir) == Components(root) + w
    requires StaysBelow(w, path)
    ensures Rel(root, dir).Some?
    ensures Rel(root, FilepathJoin(dir, path)) == Some(FilepathJoin(Rel(root, dir).value, path))
  {
    var r := Normal(false, w, Split(path));
    RelBelow(root, dir, w);
    NormalBelow(Components(root), w, Split(path));
    JoinComponents(dir, path);
    RenderFaithful(true, Components(root) + r);
    RelBelow(root, FilepathJoin(dir, path), r);
    RenderFaithful(false, w);
    var d := Render(false, w);
    assert d != "";
    JoinComponents(d, path);
  }

  /** `filepath.Abs` in the working directory `cwd`. */
  function Abs(cwd: string, path: string): string {
    if Rooted(path) then Clean(path) else FilepathJoin(cwd, path)
  }

  /** Cleaning a relative path before continuing with it changes nothing. */
  lemma {:induction false} NormalAbsorbs(acc: seq<string>, cs: seq<string>)
    requires Canonical(true, acc) && forall i :: 0 <= i < |cs| ==> NoSeparator(cs[i])
    ensures Normal(true, acc, Normal(false, [], cs)) == Normal(true, acc, cs)
    decreases |cs|
  {
    if cs != [] {
      var front, c := cs[..|cs| - 1], cs[|cs| - 1];
      assert cs == front + [c];
      NormalAbsorbs(acc, front);
      NormalConcat(true, acc, front, [c]);
      NormalConcat(false, [], front, [c]);
      NormalOne(true, Normal(true, acc, front), c);
      NormalOne(false, Normal(false, [], front), c);
      NormalCanonical(false, [], front);
      PushAbsorbs(acc, Normal(false, [], front), c);
    }
  }

  lemma {:induction false} NormalOne(rooted: bool, acc: seq<string>, c: string)
    ensures Normal(rooted, acc, [c]) == Push(rooted, acc, c)
  {
    assert [c][1..] == [];
  }

  lemma {:induction false} PushAbsorbs(acc: seq<string>, r: seq<string>, c: string)
    requires Canonical(true, acc) && Canonical(false, r)
    ensures Normal(true, acc, Push(false, r, c)) == Push(true, Normal(true, acc, r), c)
  {
    if c == ".." && r != [] && r[|r| - 1] != ".." {
      var front, l := r[..|r| - 1], r[|r| - 1];
      assert r == front + [l];
      NormalConcat(true, acc, front, [l]);
      NormalOne(true, Normal(true, acc, front), l);
    } else if c != "" && c != "." {
      NormalConcat(true, acc, r, [c]);
      NormalOne(true, Normal(true, acc, r), c);
    }
  }

  lemma {:induction false} AbsRooted(cwd: string, path: string)
    requires Rooted(cwd)
    ensures Rooted(Abs(cwd, path)) && Clean(Abs(cwd, path)) == Abs(cwd, path)
    ensures !Rooted(path) ==> Components(Abs(cwd, path)) == Normal(true, Components(cwd), Split(path))
    ensures Rooted(path) ==> Components(Abs(cwd, path)) == Components(path)
  {
    if Rooted(path) {
      CleanFaithful(path);
    } else {
      JoinComponents(cwd, path);
      RenderFaithful(true, Normal(true, Components(cwd), Split(path)));
    }
  }

  /** Whether a sub-path is joined before or after a directory is made absolute makes no difference. */
  lemma {:induction false} AbsJoin(cwd: string, dir: string, path: string)
    requires Rooted(cwd) && (dir != "" || !Rooted(path))
    ensures Abs(cwd, FilepathJoin(dir, path)) == FilepathJoin(Abs(cwd, dir), path)
  {
    AbsRooted(cwd, dir);
    JoinComponents(Abs(cwd, dir), path);
    var joined := FilepathJoin(dir, path);
    AbsRooted(cwd, joined);
    ComponentsCanonical(cwd);
    if dir != "" {
      JoinComponents(dir, path);
      RenderFaithful(Rooted(dir), Normal(Rooted(dir), Components(dir), Split(path)));
      if !Rooted(dir) {
        NormalConcat(false, [], Split(dir), Split(path));
        NormalConcat(true, Components(cwd), Split(dir), Split(path));
        NormalAbsorbs(Components(cwd), Split(dir) + Split(path));
        SplitOfClean(joined);
      } else {
        CleanFaithful(dir);
      }
    } else {
      SplitOne("");
      NormalOne(true, Components(cwd), "");
      if path != "" {
        CleanFaithful(path);
        NormalAbsorbs(Components(cwd), Split(path));
        SplitOfClean(joined);
      }
    }
    var all := Components(Abs(cwd, joined));
    AbsIsRender(cwd, joined);
  }

  lemma {:induction false} AbsIsRender(cwd: string, path: string)
    requires Rooted(cwd)
    ensures Abs(cwd, path) == Render(true, Components(Abs(cwd, path)))
  {
    AbsRooted(cwd, path);
  }

  /** The parts of a cleaned relative path are its components. */
  lemma {:induction false} SplitOfClean(path: string)
    requires !Rooted(path) && path != "" && Clean(path) == path
    ensures forall acc, rooted :: Normal(rooted, acc, Split(path)) == Normal(rooted, acc, Components(path))
  {
    var cs := Components(path);
    ComponentsCanonical(path);
    if cs == [] {
      SplitOne(".");
      forall acc, rooted ensures Normal(rooted, acc, Split(path)) == Normal(rooted, acc, cs) {
        NormalOne(rooted, acc, ".");
      }
    } else {
      SplitJoin(cs);
    }
  }

  /** A path registered under a directory is known by the same name whether it is joined to the directory's
      place in the repository, or made absolute first and then looked up from the root. */
  lemma {:induction false} RegisteredPathAgrees(root: string, cwd: string, dir: string, path: string, w: seq<string>)
    requires Rooted(root) && Rooted(cwd) && (dir != "" || !Rooted(path))
    requires Components(Abs(cwd, dir)) == Components(root) + w
    requires StaysBelow(w, path)
    ensures Rel(root, Abs(cwd, dir)).Some?
    ensures Rel(root, Abs(cwd, FilepathJoin(dir, path))) == Some(FilepathJoin(Rel(root, Abs(cwd, dir)).value, path))
  {
    AbsJoin(cwd, dir, path);
    AbsRooted(cwd, dir);
    RelJoin(root, Abs(cwd, dir), path, w);
  }

  /** Whether a file is in a directory: not outside, that is, not reached through `..`. */
  predicate FileIsInDir(file: string, dir: string) {
    var rel := Rel(dir, file);
    rel.Some? && !Rooted(rel.value) && Split(rel.value)[0] != ".."
  }

  lemma {:induction false} FirstPartOfRender(cs: seq<string>)
    requires forall i :: 0 <= i < |cs| ==> NoSeparator(cs[i]) && cs[i] != ""
    ensures !Rooted(Render(false, cs))
    ensures Split(Render(false, cs))[0] == if cs == [] then "." else cs[0]
  {
    if cs == [] {
      SplitOne(".");
    } else {
      SplitJoin(cs);
      assert Join(cs)[0] == cs[0][0];
    }
  }

  lemma {:induction false} PrefixIsCommon(a: seq<string>, b: seq<string>)
    ensures a <= b ==> CommonPrefix(a, b) == |a|
  {
    if a <= b {
      CommonPrefixOfExtension(a, b[|a|..]);
      assert a + b[|a|..] == b;
    }
  }

  /** It is the test whether the components of the directory are a prefix of those of the file,
      and the file does not climb out after that. */
  lemma {:induction false} FileIsInDirMeaning(file: string, dir: string)
    ensures FileIsInDir(file, dir) <==>
      && Rooted(file) == Rooted(dir)
      && Components(dir) <= Components(file)
      && (|Components(dir)| < |Components(file)| ==> Components(file)[|Components(dir)|] != "..")
  {
    ComponentsCanonical(file);
    RelStarts(Components(dir), Components(file));
  }

  /** What is joined to a directory lies in it, unless it climbs. */
  lemma {:induction false} JoinedIsInside(dir: string, name: string)
    requires Plain(name)
    ensures FileIsInDir(FilepathJoin(dir, name), dir)
  {
    FileIsInDirMeaning(FilepathJoin(dir, name), dir);
    JoinPlain(dir, name);
    if dir == "" {
      CleanFaithful(name);
      assert Components("") == [];
    } else {
      JoinComponents(dir, name);
      RenderFaithful(Rooted(dir), Components(dir) + Components(name));
    }
  }

  /** What the answer of `Rel` starts with, if there is one. */
  lemma {:induction false} RelStarts(d: seq<string>, f: seq<string>)
    requires forall i :: 0 <= i < |f| ==> NoSeparator(f[i]) && f[i] != ""
    ensures var n := CommonPrefix(d, f);
      var rel := Render(false, Ups(|d| - n) + f[n..]);
      && !Rooted(rel)
      && (n < |d| ==> Split(rel)[0] == ".." && !(d <= f))
      && (n == |d| ==> d <= f && Split(rel)[0] == if n == |f| then "." else f[n])
  {
    RelParts(d, f);
    FirstPartOfRender(Ups(|d| - CommonPrefix(d, f)) + f[CommonPrefix(d, f)..]);
  }

  /** The parts of a relative path: it climbs unless the one list is a prefix of the other. */
  lemma {:induction false} RelParts(d: seq<string>, f: seq<string>)
    requires forall i :: 0 <= i < |f| ==> NoSeparator(f[i]) && f[i] != ""
    ensures var n := CommonPrefix(d, f);
      var rel := Ups(|d| - n) + f[n..];
      && (forall i :: 0 <= i < |rel| ==> NoSeparator(rel[i]) && rel[i] != "")
      && (n < |d| ==> rel != [] && rel[0] == ".." && !(d <= f))
      && (n == |d| ==> d <= f && rel == f[n..])
  {
    var n := CommonPrefix(d, f);
    var rel := Ups(|d| - n) + f[n..];
    forall i | 0 <= i < |rel| ensures NoSeparator(rel[i]) && rel[i] != "" {
      assert rel[i] == if i < |d| - n then ".." else f[n + i - (|d| - n)];
    }
    PrefixIsCommon(d, f);
    if n == |d| {
      assert d == f[..n];
      assert rel == f[n..];
    }
  }
}
