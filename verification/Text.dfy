/** Strings as the program uses them: cutting at a separator, gluing back, ordering. */
module Text {

  const SEPARATOR := '/'

  predicate NoSeparator(s: string) {
    SEPARATOR !in s
  }

  /** What `strings.Split(s, "/")` always returns: at least one part, none with a separator in it. */
  predicate Separated(parts: seq<string>) {
    && |parts| > 0
    && forall i :: 0 <= i < |parts| ==> NoSeparator(parts[i])
  }

  function Split(s: string): (parts: seq<string>)
    ensures Separated(parts)
  {
    if s == "" then [""]
    else
      var rest := Split(s[1..]);
      if s[0] == SEPARATOR then [""] + rest else [[s[0]] + rest[0]] + rest[1..]
  }

  function Join(parts: seq<string>): string {
    if parts == [] then ""
    else if |parts| == 1 then parts[0]
    else parts[0] + [SEPARATOR] + Join(parts[1..])
  }

  lemma {:induction false} JoinSplit(s: string)
    ensures Join(Split(s)) == s
  {
    if s == "" {
    } else {
      JoinSplit(s[1..]);
      var rest := Split(s[1..]);
      if s[0] == SEPARATOR {
        assert ([""] + rest)[1..] == rest;
      } else if |rest| > 1 {
        var parts := [[s[0]] + rest[0]] + rest[1..];
        assert parts[1..] == rest[1..];
        assert s == [s[0]] + s[1..];
      }
    }
  }

  /** A part without separators is peeled off whole. */
  lemma {:induction false} SplitCons(p: string, r: string)
    requires NoSeparator(p)
    ensures Split(p + [SEPARATOR] + r) == [p] + Split(r)
  {
    var s := p + [SEPARATOR] + r;
    if p == "" {
      assert s[1..] == r;
    } else {
      assert s[1..] == p[1..] + [SEPARATOR] + r;
      assert NoSeparator(p[1..]);
      SplitCons(p[1..], r);
      assert p == [p[0]] + p[1..];
    }
  }

  lemma {:induction false} SplitOne(p: string)
    requires NoSeparator(p)
    ensures Split(p) == [p]
  {
    if p != "" {
      assert NoSeparator(p[1..]);
      SplitOne(p[1..]);
      assert p == [p[0]] + p[1..];
    }
  }

  lemma {:induction false} SplitJoin(parts: seq<string>)
    requires Separated(parts)
    ensures Split(Join(parts)) == parts
  {
    if |parts| == 1 {
      SplitOne(parts[0]);
    } else {
      SplitJoin(parts[1..]);
      SplitCons(parts[0], Join(parts[1..]));
    }
  }

  lemma {:induction false} JoinInjective(a: seq<string>, b: seq<string>)
    requires Separated(a) && Separated(b)
    requires Join(a) == Join(b)
    ensures a == b
  {
    SplitJoin(a);
    SplitJoin(b);
  }

  /** `cmp.Compare` on numbers. */
  function CompareInt(a: int, b: int): (c: int)
    ensures c < 0 <==> a < b
    ensures c > 0 <==> a > b
  {
    if a < b then -1 else if a > b then 1 else 0
  }

  /** `cmp.Compare` on strings and `bytes.Compare`: lexicographic, a proper prefix comes first. */
  function Compare(a: string, b: string): (c: int)
    ensures c == 0 <==> a == b
  {
    if a == "" then (if b == "" then 0 else -1)
    else if b == "" then 1
    else if a[0] != b[0] then CompareInt(a[0] as int, b[0] as int)
    else
      assert a == [a[0]] + a[1..] && b == [b[0]] + b[1..];
      Compare(a[1..], b[1..])
  }

  lemma {:induction false} CompareAntisymmetric(a: string, b: string)
    ensures Compare(a, b) == -Compare(b, a)
  {
    if a != "" && b != "" && a[0] == b[0] {
      CompareAntisymmetric(a[1..], b[1..]);
    }
  }

  /** One string is before another: a proper prefix of it, or with a smaller character where they first differ. */
  ghost predicate Before(a: string, b: string) {
    exists k: nat :: DiffersAt(a, b, k) && (k == |a| || a[k] < b[k])
  }

  /** The strings agree up to `k`, and there `a` ends or has another character than `b`. */
  ghost predicate DiffersAt(a: string, b: string, k: nat) {
    k <= |a| && k < |b| && a[..k] == b[..k] && (k < |a| ==> a[k] != b[k])
  }

  /** The sign of a comparison says which of the strings is before the other. */
  lemma {:induction false} CompareMeaning(a: string, b: string)
    ensures Compare(a, b) < 0 <==> Before(a, b)
    ensures Compare(a, b) > 0 <==> Before(b, a)
  {
    CompareAntisymmetric(a, b);
    NegativeIsBefore(a, b);
    NegativeIsBefore(b, a);
    BeforeIsNegative(a, b);
    BeforeIsNegative(b, a);
  }

  lemma {:induction false} DiffersLater(a: string, b: string, k: nat)
    requires a != "" && b != "" && a[0] == b[0]
    ensures DiffersAt(a, b, k + 1) <==> DiffersAt(a[1..], b[1..], k)
  {
    if k + 1 <= |a| && k + 1 < |b| {
      assert a[..k + 1] == [a[0]] + a[1..][..k] && b[..k + 1] == [b[0]] + b[1..][..k];
      assert a[1..][..k] == a[..k + 1][1..] && b[1..][..k] == b[..k + 1][1..];
    }
  }

  lemma {:induction false} NegativeIsBefore(a: string, b: string)
    ensures Compare(a, b) < 0 ==> Before(a, b)
  {
    if a != "" && b != "" && a[0] == b[0] {
      NegativeIsBefore(a[1..], b[1..]);
      if k: nat :| DiffersAt(a[1..], b[1..], k) && (k == |a[1..]| || a[1..][k] < b[1..][k]) {
        DiffersLater(a, b, k);
      }
    } else if Compare(a, b) < 0 {
      assert DiffersAt(a, b, 0);
    }
  }

  lemma {:induction false} BeforeIsNegative(a: string, b: string)
    ensures Before(a, b) ==> Compare(a, b) < 0
  {
    if k: nat :| DiffersAt(a, b, k) && (k == |a| || a[k] < b[k]) {
      if k > 0 {
        assert a[0] == a[..k][0] && b[0] == b[..k][0];
        DiffersLater(a, b, k - 1);
        BeforeIsNegative(a[1..], b[1..]);
      }
    }
  }

  lemma {:induction false} CompareTransitive(a: string, b: string, c: string)
    requires Compare(a, b) <= 0 && Compare(b, c) <= 0
    ensures Compare(a, c) <= 0
  {
    if a != "" && b != "" && c != "" && a[0] == b[0] == c[0] {
      CompareTransitive(a[1..], b[1..], c[1..]);
    }
  }
}
