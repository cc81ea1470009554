/** Image references (manifest/image/image.go, and the reference splitter it is fed by). */
module Images {
  import opened Text
  import opened Wrappers

  datatype Source = Source(
    manifest: string,
    manifestDigest: string,
    line: int,
    column: int,
    nodePath: seq<string>,
    originalRef: string)

  datatype Image = Image(
    sources: seq<Source>,
    originalName: string,
    originalTag: string,
    digest: string,
    newName: string,
    newTag: string,
    alias: Option<string>)
  {
    function Ref(original: bool): string {
      var (name, tag) := if original then (originalName, originalTag) else (newName, newTag);
      Reference(name, tag, digest)
    }

    function PrimarySource(): Source
      requires sources != []
    {
      sources[0]
    }

    function Manifest(): string
      requires sources != []
    {
      PrimarySource().manifest
    }

    function ManifestDigest(): string
      requires sources != []
    {
      PrimarySource().manifestDigest
    }

    function OriginalRef(): string
      requires sources != []
    {
      PrimarySource().originalRef
    }
  }

  function Reference(name: string, tag: string, digest: string): string {
    name + (if tag != "" then ":" + tag else "") + (if digest != "" then "@" + digest else "")
  }

  /** The first position of `c` in `s` from `d` on, or -1; `strings.Index` looks from 0 on. */
  function IndexFrom(s: string, c: char, d: nat): (i: int)
    requires d <= |s|
    ensures i < 0 ==> i == -1 && forall k :: d <= k < |s| ==> s[k] != c
    ensures i >= 0 ==> d <= i < |s| && s[i] == c && forall k :: d <= k < i ==> s[k] != c
    decreases |s| - d
  {
    if d == |s| then -1 else if s[d] == c then d else IndexFrom(s, c, d + 1)
  }

  function TrimPrefix(s: string, c: char): string {
    if s != "" && s[0] == c then s[1..] else s
  }

  /** Where the search for `:` and `@` starts: at the first `/`, unless there is none or it comes first. */
  function SearchStart(s: string): (d: nat)
    ensures d <= |s|
  {
    var i := IndexFrom(s, SEPARATOR, 0);
    if i > 0 then i else 0
  }

  /** The splitter `Split` of the kustomize image package. */
  function SplitReference(imageName: string): (string, string, string) {
    var slashIndex := SearchStart(imageName);
    SplitAt(imageName, IndexFrom(imageName, '@', slashIndex), IndexFrom(imageName, ':', slashIndex))
  }

  function SplitAt(r: string, id: int, ic: int): (string, string, string)
    requires -1 <= id < |r| && -1 <= ic < |r|
  {
    if ic < 0 && id < 0 then (r, "", "")
    else if id >= 0 && (id < ic || ic < 0) then (r[..id], "", TrimPrefix(r[id..], '@'))
    else if id >= 0 && ic >= 0 then (r[..ic], TrimPrefix(r[ic..id], ':'), TrimPrefix(r[id..], '@'))
    else (r[..ic], TrimPrefix(r[ic..], ':'), "")
  }

  /** The references that the splitter takes apart where `Ref` put them together. */
  predicate Splittable(name: string, tag: string, digest: string) {
    && (forall k :: SearchStart(name) <= k < |name| ==> name[k] != ':' && name[k] != '@')
    && '@' !in tag
    && (SEPARATOR in name || (SEPARATOR !in tag && SEPARATOR !in digest))
  }

  /** With a separator in the name, or none anywhere, the search starts where it starts in the name. */
  lemma {:induction false} SearchStartOfConcat(name: string, rest: string)
    requires SEPARATOR in name || SEPARATOR !in rest
    ensures SearchStart(name + rest) == SearchStart(name)
  {
    var r := name + rest;
    var i, j := IndexFrom(name, SEPARATOR, 0), IndexFrom(r, SEPARATOR, 0);
    if i >= 0 {
      assert r[i] == SEPARATOR;
      assert j < |name| ==> name[j] == SEPARATOR;
    }
  }

  lemma {:induction false} SplitDigestOnly(name: string, digest: string)
    requires Splittable(name, "", digest) && digest != ""
    ensures SplitReference(name + ("@" + digest)) == (name, "", digest)
  {
    var r, d := name + ("@" + digest), SearchStart(name);
    SearchStartOfConcat(name, "@" + digest);
    assert r[|name|] == '@';
    assert IndexFrom(r, '@', d) == |name|;
    assert r[..|name|] == name && r[|name|..] == "@" + digest;
  }

  lemma {:induction false} SplitTagOnly(name: string, tag: string)
    requires Splittable(name, tag, "") && tag != ""
    ensures SplitReference(name + (":" + tag)) == (name, tag, "")
  {
    var r, d := name + (":" + tag), SearchStart(name);
    SearchStartOfConcat(name, ":" + tag);
    assert r[|name|] == ':';
    assert IndexFrom(r, ':', d) == |name|;
    assert forall k :: |name| < k < |r| ==> r[k] == tag[k - |name| - 1] && r[k] != '@';
    assert IndexFrom(r, '@', d) == -1;
    assert r[..|name|] == name && r[|name|..] == ":" + tag;
  }

  /** Where the pieces of a full reference lie. */
  lemma {:induction false} ReferencePieces(name: string, tag: string, digest: string)
    requires tag != "" && digest != ""
    ensures var r, e := Reference(name, tag, digest), |name| + 1 + |tag|;
      && |r| > e && r[|name|] == ':' && r[e] == '@'
      && r[..|name|] == name && r[|name|..e] == ":" + tag && r[e..] == "@" + digest
  {
    var r, e := Reference(name, tag, digest), |name| + 1 + |tag|;
    var front := name + (":" + tag);
    assert r == front + ("@" + digest);
    assert r[..e] == front;
    assert r[..|name|] == front[..|name|] && r[|name|..e] == front[|name|..];
  }

  /** No mark before the given position, and one there, make it the first. */
  lemma {:induction false} IndexFromIs(r: string, c: char, d: nat, i: nat)
    requires d <= i < |r| && r[i] == c && forall k :: d <= k < i ==> r[k] != c
    ensures IndexFrom(r, c, d) == i
  {
  }

  lemma {:induction false} FirstMarks(name: string, tag: string, digest: string, d: nat)
    requires tag != "" && digest != "" && '@' !in tag && d <= |name|
    requires forall k :: d <= k < |name| ==> name[k] != ':' && name[k] != '@'
    ensures |Reference(name, tag, digest)| > |name| + 1 + |tag|
    ensures IndexFrom(Reference(name, tag, digest), ':', d) == |name|
    ensures IndexFrom(Reference(name, tag, digest), '@', d) == |name| + 1 + |tag|
  {
    var r, e := Reference(name, tag, digest), |name| + 1 + |tag|;
    ReferencePieces(name, tag, digest);
    var front, middle := r[..|name|], r[|name|..e];
    forall k | d <= k < |name| ensures r[k] == name[k] {
      assert r[k] == front[k];
    }
    forall k | |name| < k < e ensures r[k] != '@' {
      assert r[k] == middle[k - |name|] == tag[k - |name| - 1];
    }
    IndexFromIs(r, ':', d, |name|);
    IndexFromIs(r, '@', d, e);
  }

  lemma {:induction false} SplitTagAndDigest(name: string, tag: string, digest: string)
    requires Splittable(name, tag, digest) && tag != "" && digest != ""
    ensures SplitReference(Reference(name, tag, digest)) == (name, tag, digest)
  {
    var r, e := Reference(name, tag, digest), |name| + 1 + |tag|;
    ReferencePieces(name, tag, digest);
    SearchStartOfConcat(name, r[|name|..]);
    assert r == name + r[|name|..];
    FirstMarks(name, tag, digest, SearchStart(name));
    assert SplitAt(r, e, |name|) == (name, tag, digest);
  }

  lemma {:induction false} ShortReferences(name: string, tag: string, digest: string)
    ensures Reference(name, tag, "") == if tag == "" then name else name + (":" + tag)
    ensures Reference(name, "", digest) == if digest == "" then name else name + ("@" + digest)
  {
    assert name + "" == name;
    assert (name + (":" + tag)) + "" == name + (":" + tag);
    assert (name + "") + ("@" + digest) == name + ("@" + digest);
  }

  lemma {:induction false} SplitBareName(name: string)
    requires Splittable(name, "", "")
    ensures SplitReference(name) == (name, "", "")
  {
  }

  lemma {:induction false} SplitWhenSplittable(name: string, tag: string, digest: string)
    requires Splittable(name, tag, digest)
    ensures SplitReference(Reference(name, tag, digest)) == (name, tag, digest)
  {
    if tag != "" && digest != "" {
      SplitTagAndDigest(name, tag, digest);
    } else {
      ShortReferences(name, tag, digest);
      if tag != "" {
        SplitTagOnly(name, tag);
      } else if digest != "" {
        SplitDigestOnly(name, digest);
      } else {
        SplitBareName(name);
      }
    }
  }

  /** The name that comes back ends at the first `:` or `@` of the searched part, or nowhere. */
  lemma {:induction false} SplitName(r: string, n: nat)
    requires n == |SplitReference(r).0|
    ensures SearchStart(r) <= n <= |r|
    ensures forall k :: SearchStart(r) <= k < n ==> r[k] != ':' && r[k] != '@'
    ensures forall i :: n <= i < |r| && r[i] == '@' ==> n + |SplitReference(r).1| <= i
    ensures forall i :: n < i < |r| && r[i] == '@' ==> n + |SplitReference(r).1| < i
  {
  }

  /** What `Ref` appends to the name. */
  function Marks(tag: string, digest: string): (rest: string)
    ensures rest != "" ==> rest[0] == ':' || rest[0] == '@'
  {
    (if tag != "" then ":" + tag else "") + (if digest != "" then "@" + digest else "")
  }

  lemma {:induction false} SeparatorOnlyInMarks(name: string, rest: string)
    requires SEPARATOR !in name && SEPARATOR in rest && rest[0] != SEPARATOR
    ensures SearchStart(name + rest) > |name|
  {
    var r := name + rest;
    assert forall k :: 0 <= k <= |name| ==> r[k] != SEPARATOR;
    var k :| 0 <= k < |rest| && rest[k] == SEPARATOR;
    assert r[|name| + k] == SEPARATOR;
  }

  lemma {:induction false} MarksContents(tag: string, digest: string)
    ensures forall i :: 0 <= i < |tag| ==> 1 + i < |Marks(tag, digest)| && Marks(tag, digest)[1 + i] == tag[i]
    ensures SEPARATOR in tag || SEPARATOR in digest ==> SEPARATOR in Marks(tag, digest)
  {
    var rest := Marks(tag, digest);
    if i: nat :| i < |tag| && tag[i] == SEPARATOR {
      assert rest[1 + i] == SEPARATOR;
    }
    if i: nat :| i < |digest| && digest[i] == SEPARATOR {
      assert rest[|rest| - |digest| + i] == SEPARATOR;
    }
  }

  lemma {:induction false} SplittableWhenSplitAt(name: string, rest: string, tag: string)
    requires rest != "" ==> rest[0] == ':' || rest[0] == '@'
    requires forall i :: 0 <= i < |tag| ==> 1 + i < |rest| && rest[1 + i] == tag[i]
    requires SplitReference(name + rest).0 == name && SplitReference(name + rest).1 == tag
    ensures SEPARATOR in name || SEPARATOR !in rest
    ensures forall k :: SearchStart(name) <= k < |name| ==> name[k] != ':' && name[k] != '@'
    ensures '@' !in tag
  {
    var r := name + rest;
    SplitName(r, |name|);
    if SEPARATOR !in name && SEPARATOR in rest {
      SeparatorOnlyInMarks(name, rest);
    }
    SearchStartOfConcat(name, rest);
    forall k | SearchStart(name) <= k < |name| ensures name[k] != ':' && name[k] != '@' {
      assert r[k] == name[k];
    }
    forall i | 0 <= i < |tag| ensures tag[i] != '@' {
      assert r[|name| + 1 + i] == tag[i];
    }
  }

  lemma {:induction false} ReferenceIsMarked(name: string, tag: string, digest: string)
    ensures Reference(name, tag, digest) == name + Marks(tag, digest)
  {
    var t, d := if tag != "" then ":" + tag else "", if digest != "" then "@" + digest else "";
    assert (name + t) + d == name + (t + d);
  }

  lemma {:induction false} SplittableWhenSplit(name: string, tag: string, digest: string)
    requires SplitReference(Reference(name, tag, digest)) == (name, tag, digest)
    ensures Splittable(name, tag, digest)
  {
    ReferenceIsMarked(name, tag, digest);
    MarksContents(tag, digest);
    SplittableWhenSplitAt(name, Marks(tag, digest), tag);
  }

  /** Splitting undoes `Ref` for exactly the splittable references. */
  lemma {:induction false} SplitRoundTrip(image: Image)
    ensures SplitReference(image.Ref(true)) == (image.originalName, image.originalTag, image.digest)
            <==> Splittable(image.originalName, image.originalTag, image.digest)
  {
    var (n, t, d) := (image.originalName, image.originalTag, image.digest);
    if Splittable(n, t, d) {
      SplitWhenSplittable(n, t, d);
    }
    if SplitReference(Reference(n, t, d)) == (n, t, d) {
      SplittableWhenSplit(n, t, d);
    }
  }

  /** The same for the new reference. */
  lemma {:induction false} SplitNewRoundTrip(image: Image)
    ensures SplitReference(image.Ref(false)) == (image.newName, image.newTag, image.digest)
            <==> Splittable(image.newName, image.newTag, image.digest)
  {
    if Splittable(image.newName, image.newTag, image.digest) {
      SplitWhenSplittable(image.newName, image.newTag, image.digest);
    }
    if SplitReference(image.Ref(false)) == (image.newName, image.newTag, image.digest) {
      SplittableWhenSplit(image.newName, image.newTag, image.digest);
    }
  }

  /** A reference put together from its parts and the marks that it has, even before an empty tag or digest. */
  function Rebuilt(name: string, tag: string, digest: string, hasTag: bool, hasDigest: bool): string {
    name + (if hasTag then ":" + tag else "") + (if hasDigest then "@" + digest else "")
  }

  lemma {:induction false} RebuiltDigestOnly(r: string, i: nat)
    requires i < |r| && r[i] == '@'
    ensures TrimPrefix(r[i..], '@') == r[i + 1..]
    ensures r == Rebuilt(r[..i], "", r[i + 1..], false, true)
  {
    assert r[i..][1..] == r[i + 1..];
  }

  lemma {:induction false} RebuiltTagOnly(r: string, i: nat)
    requires i < |r| && r[i] == ':'
    ensures TrimPrefix(r[i..], ':') == r[i + 1..]
    ensures r == Rebuilt(r[..i], r[i + 1..], "", true, false)
  {
    assert r[i..][1..] == r[i + 1..];
  }

  lemma {:induction false} RebuiltBoth(r: string, i: nat, j: nat)
    requires i < j < |r| && r[i] == ':' && r[j] == '@'
    ensures TrimPrefix(r[i..j], ':') == r[i + 1..j] && TrimPrefix(r[j..], '@') == r[j + 1..]
    ensures r == Rebuilt(r[..i], r[i + 1..j], r[j + 1..], true, true)
  {
    assert r[i..j][1..] == r[i + 1..j] && r[j..][1..] == r[j + 1..];
  }

  lemma {:induction false} RebuiltBare(r: string)
    ensures r == Rebuilt(r, "", "", false, false)
  {
  }

  lemma {:induction false} SplitAtDigest(r: string, id: int, ic: int)
    requires 0 <= id < |r| && -1 <= ic < |r| && r[id] == '@' && (ic < 0 || id < ic)
    ensures var p := SplitAt(r, id, ic); r == Rebuilt(p.0, p.1, p.2, false, true) && p.1 == ""
  {
    RebuiltDigestOnly(r, id);
  }

  lemma {:induction false} SplitAtTag(r: string, id: int, ic: int)
    requires id == -1 && 0 <= ic < |r| && r[ic] == ':'
    ensures var p := SplitAt(r, id, ic); r == Rebuilt(p.0, p.1, p.2, true, false) && p.2 == ""
  {
    RebuiltTagOnly(r, ic);
  }

  lemma {:induction false} SplitAtBoth(r: string, id: int, ic: int)
    requires 0 <= ic < id < |r| && r[ic] == ':' && r[id] == '@'
    ensures var p := SplitAt(r, id, ic); r == Rebuilt(p.0, p.1, p.2, true, true)
  {
    RebuiltBoth(r, ic, id);
  }

  lemma {:induction false} SplitAtNone(r: string)
    ensures var p := SplitAt(r, -1, -1); r == Rebuilt(p.0, p.1, p.2, false, false) && p.1 == "" && p.2 == ""
  {
    RebuiltBare(r);
  }

  /** The parts make up the reference again, with the marks that it has. */
  ghost predicate TakenApart(r: string, p: (string, string, string), hasTag: bool, hasDigest: bool) {
    r == Rebuilt(p.0, p.1, p.2, hasTag, hasDigest) && (!hasTag ==> p.1 == "") && (!hasDigest ==> p.2 == "")
  }

  /** Any reference is taken apart at marks, and nothing but these marks is lost. */
  lemma {:induction false} SplitTakesApart(r: string) returns (hasTag: bool, hasDigest: bool)
    ensures TakenApart(r, SplitReference(r), hasTag, hasDigest)
  {
    hasTag, hasDigest := SplitAtTakesApart(r, IndexFrom(r, '@', SearchStart(r)), IndexFrom(r, ':', SearchStart(r)));
  }

  lemma {:induction false} SplitAtTakesApart(r: string, id: int, ic: int) returns (hasTag: bool, hasDigest: bool)
    requires -1 <= id < |r| && -1 <= ic < |r| && (id == ic ==> id == -1)
    requires (id >= 0 ==> r[id] == '@') && (ic >= 0 ==> r[ic] == ':')
    ensures TakenApart(r, SplitAt(r, id, ic), hasTag, hasDigest)
  {
    hasTag := ic >= 0 && (id < 0 || ic < id);
    hasDigest := id >= 0;
    if hasTag && hasDigest {
      SplitAtBoth(r, id, ic);
    } else if hasTag {
      SplitAtTag(r, id, ic);
    } else if hasDigest {
      SplitAtDigest(r, id, ic);
    } else {
      SplitAtNone(r);
    }
  }

  /** Every `:` of a name has a `/` somewhere after it. */
  predicate ColonsInDomain(name: string) {
    forall i :: 0 <= i < |name| && name[i] == ':' ==> SEPARATOR in name[i..]
  }

  /** Names and tags of well-formed references: the last `:` that no `/` follows starts the tag. */
  predicate WellFormed(image: Image) {
    && '@' !in image.originalName && ColonsInDomain(image.originalName)
    && ':' !in image.originalTag && SEPARATOR !in image.originalTag && '@' !in image.originalTag
  }

  function Tagged(name: string, tag: string): string {
    if tag == "" then name else name + ":" + tag
  }

  lemma {:induction false} NameIsNotTagged(name: string, n: string, t: string)
    requires ColonsInDomain(name) && SEPARATOR !in t
    ensures name != n + ":" + t
  {
    var r := n + ":" + t;
    assert r[|n|] == ':' && r[|n|..] == ":" + t;
  }

  lemma {:induction false} LastColon(n: string, t: string)
    requires ':' !in t
    ensures var r := n + ":" + t; r[|n|] == ':' && forall i :: |n| < i < |r| ==> r[i] != ':'
  {
    var r := n + ":" + t;
    forall i | |n| < i < |r| ensures r[i] != ':' {
      assert r[i] == t[i - |n| - 1];
    }
  }

  lemma {:induction false} TaggedInjective(n1: string, t1: string, n2: string, t2: string)
    requires Tagged(n1, t1) == Tagged(n2, t2)
    requires ':' !in t1 && ':' !in t2 && SEPARATOR !in t1 && SEPARATOR !in t2
    requires ColonsInDomain(n1) && ColonsInDomain(n2)
    ensures n1 == n2 && t1 == t2
  {
    NameIsNotTagged(n1, n2, t2);
    NameIsNotTagged(n2, n1, t1);
    if t1 != "" && t2 != "" {
      var r := Tagged(n1, t1);
      LastColon(n1, t1);
      LastColon(n2, t2);
      assert |n1| == |n2|;
      assert n1 == r[..|n1|] && n2 == r[..|n2|];
      assert t1 == r[|n1| + 1..] && t2 == r[|n2| + 1..];
    }
  }

  lemma {:induction false} FirstDigestMark(x: string, d: string)
    requires '@' !in x
    ensures IndexFrom(Reference(x, "", d), '@', 0) == if d == "" then -1 else |x|
  {
    var r := Reference(x, "", d);
    assert d == "" ==> r == x;
    assert d != "" ==> r[|x|] == '@';
    assert forall k :: 0 <= k < |x| ==> r[k] == x[k];
  }

  lemma {:induction false} DigestedInjective(x: string, d: string, y: string, e: string)
    requires '@' !in x && '@' !in y
    requires Reference(x, "", d) == Reference(y, "", e)
    ensures x == y && d == e
  {
    var r := Reference(x, "", d);
    FirstDigestMark(x, d);
    FirstDigestMark(y, e);
    if d == "" {
      assert r == x && r == y;
    } else {
      assert r[..|x|] == x && r[..|y|] == y;
      assert r[|x| + 1..] == d && r[|y| + 1..] == e;
    }
  }

  /** A reference stands for one name, tag and digest. */
  lemma {:induction false} RefInjective(a: Image, b: Image)
    requires WellFormed(a) && WellFormed(b)
    requires a.Ref(true) == b.Ref(true)
    ensures a.originalName == b.originalName && a.originalTag == b.originalTag && a.digest == b.digest
  {
    var x, y := Tagged(a.originalName, a.originalTag), Tagged(b.originalName, b.originalTag);
    assert a.Ref(true) == Reference(x, "", a.digest);
    assert b.Ref(true) == Reference(y, "", b.digest);
    DigestedInjective(x, a.digest, y, b.digest);
    TaggedInjective(a.originalName, a.originalTag, b.originalName, b.originalTag);
  }
}
