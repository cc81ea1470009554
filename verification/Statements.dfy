/** Statements, how they are ordered and how their subjects are rewritten (attest/types/types.go). */
module Statements {
  import opened Wrappers
  import opened Seqs
  import opened Sorting
  import opened Summaries
  import Text

  /** What a statement says: where an image reference was found, or what a directory contains. */
  datatype Inner =
    | ImageReference(reference: string, line: int, column: int, alias: Option<string>)
    | SourceDirectory(path: string, entries: Option<Collection>)

  datatype Predicate = Predicate(kind: string, inner: Inner)

  /** A value of unknown type: only a whole predicate can be compared with a predicate. */
  datatype Any = AnyPredicate(p: Predicate) | AnyInner(i: Inner)

  datatype View = View(statement: Predicate, subjects: seq<Subject>)
  {
    function GetType(): string {
      statement.kind
    }

    /** Hands out the inner value, not the predicate. */
    function GetPredicate(): Any {
      AnyInner(statement.inner)
    }

    function FirstName(): string
      requires subjects != []
    {
      subjects[0].name
    }
  }

  /** `Predicate.Compare`: no answer unless the other value is a predicate; `inner` compares inner values. */
  function ComparePredicate(p: Predicate, b: Any, inner: (Inner, Inner) -> int): Option<int> {
    match b
    case AnyPredicate(q) => Some(inner(p.inner, q.inner))
    case AnyInner(_) => None
  }

  /** The comparison looks at the first subjects when types and numbers of subjects agree. */
  predicate Comparable(a: View, b: View) {
    a.GetType() == b.GetType() && |a.subjects| == |b.subjects| ==> a.subjects != []
  }

  /** `GenericStatement.Compare`. */
  function CompareStatements(a: View, b: View, inner: (Inner, Inner) -> int): Option<int>
    requires Comparable(a, b)
  {
    if Text.Compare(a.GetType(), b.GetType()) != 0 then Some(Text.Compare(a.GetType(), b.GetType()))
    else if Text.CompareInt(|a.subjects|, |b.subjects|) != 0 then Some(Text.CompareInt(|a.subjects|, |b.subjects|))
    else if Text.Compare(a.FirstName(), b.FirstName()) != 0 then Some(Text.Compare(a.FirstName(), b.FirstName()))
    else ComparePredicate(a.statement, b.GetPredicate(), inner)
  }

  /** The order of `GetStatements`: the encoded predicates decide where the comparison gives no answer. */
  function Order(inner: (Inner, Inner) -> int, cbor: Inner -> string, a: View, b: View): int
    requires Comparable(a, b)
  {
    match CompareStatements(a, b, inner)
    case Some(c) => c
    case None => Text.Compare(cbor(a.statement.inner), cbor(b.statement.inner))
  }

  predicate SameHeader(a: View, b: View)
    requires Comparable(a, b)
  {
    a.GetType() == b.GetType() && |a.subjects| == |b.subjects| && a.FirstName() == b.FirstName()
  }

  /** The comparison answers exactly when the headers differ; the inner comparison is never asked. */
  lemma {:induction false} BytesDecide(a: View, b: View, inner: (Inner, Inner) -> int, inner': (Inner, Inner) -> int)
    requires Comparable(a, b)
    ensures CompareStatements(a, b, inner).None? <==> SameHeader(a, b)
    ensures CompareStatements(a, b, inner) == CompareStatements(a, b, inner')
  {
  }

  /** Tied statements agree in type, number of subjects, first subject and encoded predicate, and conversely. */
  lemma {:induction false} TieMeaning(inner: (Inner, Inner) -> int, cbor: Inner -> string, a: View, b: View)
    requires Comparable(a, b)
    ensures Order(inner, cbor, a, b) == 0 <==>
            SameHeader(a, b) && cbor(a.statement.inner) == cbor(b.statement.inner)
  {
    BytesDecide(a, b, inner, inner);
  }

  lemma {:induction false} OrderAntisymmetric(inner: (Inner, Inner) -> int, cbor: Inner -> string, a: View, b: View)
    requires Comparable(a, b)
    ensures Comparable(b, a) && Order(inner, cbor, a, b) == -Order(inner, cbor, b, a)
  {
    Text.CompareAntisymmetric(a.GetType(), b.GetType());
    if a.GetType() == b.GetType() && |a.subjects| == |b.subjects| {
      Text.CompareAntisymmetric(a.FirstName(), b.FirstName());
      Text.CompareAntisymmetric(cbor(a.statement.inner), cbor(b.statement.inner));
    }
  }

  lemma {:induction false} OrderTransitive(inner: (Inner, Inner) -> int, cbor: Inner -> string,
                                           a: View, b: View, c: View)
    requires Comparable(a, b) && Comparable(b, c)
    requires Order(inner, cbor, a, b) <= 0 && Order(inner, cbor, b, c) <= 0
    ensures Comparable(a, c) && Order(inner, cbor, a, c) <= 0
  {
    Text.CompareTransitive(a.GetType(), b.GetType(), c.GetType());
    Text.CompareAntisymmetric(a.GetType(), b.GetType());
    if a.GetType() == b.GetType() == c.GetType() && |a.subjects| == |b.subjects| == |c.subjects| {
      Text.CompareTransitive(a.FirstName(), b.FirstName(), c.FirstName());
      Text.CompareAntisymmetric(a.FirstName(), b.FirstName());
      if SameHeader(a, b) && SameHeader(b, c) {
        Text.CompareTransitive(cbor(a.statement.inner), cbor(b.statement.inner), cbor(c.statement.inner));
      }
    }
  }

  /** The order where there is one; statements of one type without subjects are left in no order. */
  function OrderOrTie(inner: (Inner, Inner) -> int, cbor: Inner -> string, a: View, b: View): int {
    if Comparable(a, b) then Order(inner, cbor, a, b) else 0
  }

  lemma {:induction false} OrderOrTieTransitive(inner: (Inner, Inner) -> int, cbor: Inner -> string,
                                                a: View, b: View, c: View)
    requires OrderOrTie(inner, cbor, a, b) <= 0 && OrderOrTie(inner, cbor, b, c) <= 0
    ensures OrderOrTie(inner, cbor, a, c) <= 0
  {
    if Comparable(a, b) && Comparable(b, c) {
      OrderTransitive(inner, cbor, a, b, c);
    } else {
      Text.CompareAntisymmetric(a.GetType(), a.GetType());
    }
  }

  lemma {:induction false} StatementsArePreordered(s: seq<View>, inner: (Inner, Inner) -> int, cbor: Inner -> string)
    ensures TotalPreorder(s, (a, b) => OrderOrTie(inner, cbor, a, b))
  {
    forall x, y | x in s && y in s ensures OrderOrTie(inner, cbor, x, y) <= 0 <==> OrderOrTie(inner, cbor, y, x) >= 0 {
      if Comparable(x, y) {
        OrderAntisymmetric(inner, cbor, x, y);
      }
    }
    forall x, y, z | x in s && y in s && z in s
                     && OrderOrTie(inner, cbor, x, y) <= 0 && OrderOrTie(inner, cbor, y, z) <= 0
      ensures OrderOrTie(inner, cbor, x, z) <= 0
    {
      OrderOrTieTransitive(inner, cbor, x, y, z);
    }
  }

  /** By type, number of subjects, name of the first subject and encoded predicate, `a` does not come after `b`. */
  ghost predicate NotAfter(cbor: Inner -> string, a: View, b: View)
    requires Comparable(a, b)
  {
    && !Text.Before(b.statement.kind, a.statement.kind)
    && (a.statement.kind == b.statement.kind ==> |a.subjects| <= |b.subjects|)
    && (a.statement.kind == b.statement.kind && |a.subjects| == |b.subjects| ==>
          !Text.Before(b.subjects[0].name, a.subjects[0].name))
    && (a.statement.kind == b.statement.kind && |a.subjects| == |b.subjects|
        && a.subjects[0].name == b.subjects[0].name ==>
          !Text.Before(cbor(b.statement.inner), cbor(a.statement.inner)))
  }

  lemma {:induction false} OrderMeaning(inner: (Inner, Inner) -> int, cbor: Inner -> string, a: View, b: View)
    requires Comparable(a, b)
    ensures Order(inner, cbor, a, b) <= 0 <==> NotAfter(cbor, a, b)
  {
    Text.CompareMeaning(a.statement.kind, b.statement.kind);
    if a.statement.kind == b.statement.kind && |a.subjects| == |b.subjects| {
      Text.CompareMeaning(a.subjects[0].name, b.subjects[0].name);
      Text.CompareMeaning(cbor(a.statement.inner), cbor(b.statement.inner));
    }
  }

  lemma {:induction false} InOrderMeaning(inner: (Inner, Inner) -> int, cbor: Inner -> string, s: seq<View>)
    requires InOrder(inner, cbor, s)
    ensures forall i, j :: 0 <= i < j < |s| ==> Comparable(s[i], s[j]) && NotAfter(cbor, s[i], s[j])
  {
    forall i, j | 0 <= i < j < |s| ensures Comparable(s[i], s[j]) && NotAfter(cbor, s[i], s[j]) {
      OrderMeaning(inner, cbor, s[i], s[j]);
    }
  }

  /** Every two of the statements can be compared. */
  ghost predicate AllComparable(s: seq<View>) {
    forall i, j :: 0 <= i < j < |s| ==> Comparable(s[i], s[j])
  }

  ghost predicate InOrder(inner: (Inner, Inner) -> int, cbor: Inner -> string, s: seq<View>) {
    forall i, j :: 0 <= i < j < |s| ==> Comparable(s[i], s[j]) && Order(inner, cbor, s[i], s[j]) <= 0
  }

  /** If tied statements encode equally, what is encoded does not depend on the order of insertion. */
  lemma {:induction false} EncodingCanonical(a: seq<View>, b: seq<View>, inner: (Inner, Inner) -> int,
                                             cbor: Inner -> string, encode: View -> string)
    requires multiset(a) == multiset(b)
    requires InOrder(inner, cbor, a) && InOrder(inner, cbor, b)
    requires forall x, y :: x in a && y in a && Comparable(x, y) && Order(inner, cbor, x, y) == 0 ==>
      encode(x) == encode(y)
    ensures Map(a, encode) == Map(b, encode)
  {
    var cmp := (x, y) => OrderOrTie(inner, cbor, x, y);
    StatementsArePreordered(a, inner, cbor);
    SortedUpToTies(a, b, cmp);
    SameMembers(a, b);
    forall i | 0 <= i < |a| ensures encode(a[i]) == encode(b[i]) {
      assert cmp(a[i], b[i]) == 0;
      assert a[i] in a && b[i] in b;
      if !Comparable(a[i], b[i]) {
        OnlyOneWithoutSubjects(a, i, b[i]);
      }
    }
  }

  lemma {:induction false} OnlyOneWithoutSubjects(s: seq<View>, i: nat, x: View)
    requires AllComparable(s) && i < |s| && x in s && !Comparable(s[i], x)
    ensures x == s[i]
  {
    var j :| 0 <= j < |s| && s[j] == x;
  }

  /** Statements about one subject each tie exactly when they say the same about the same path;
      only the digests can still differ. */
  lemma {:induction false} SingleSubjectTies(inner: (Inner, Inner) -> int, cbor: Inner -> string, a: View, b: View)
    requires |a.subjects| == 1 && |b.subjects| == 1
    requires cbor(a.statement.inner) == cbor(b.statement.inner) ==> a.statement.inner == b.statement.inner
    ensures Order(inner, cbor, a, b) == 0 <==> a.statement == b.statement && a.subjects[0].name == b.subjects[0].name
    ensures Order(inner, cbor, a, b) == 0 && a.subjects[0].digest == b.subjects[0].digest ==> a == b
  {
    TieMeaning(inner, cbor, a, b);
  }

  class Statement {
    const content: Predicate
    var subjects: seq<Subject>

    constructor (content: Predicate, subjects: seq<Subject>)
      ensures this.content == content && this.subjects == subjects
    {
      this.content := content;
      this.subjects := subjects;
    }

    function GetView(): View
      reads this
    {
      View(content, subjects)
    }

    /** Rewrites the subjects one by one, in place; the first refusal stops it where it is. */
    method SetSubjects(f: Subject -> Result<Subject>) returns (r: Result<()>)
      modifies this
      ensures r.Ok? <==> forall i :: 0 <= i < |old(subjects)| ==> f(old(subjects)[i]).Ok?
      ensures |subjects| == |old(subjects)|
      ensures r.Ok? ==> forall i :: 0 <= i < |subjects| ==> subjects[i] == f(old(subjects)[i]).value
      ensures r.Err? ==>
        exists n: nat :: Rewritten(old(subjects), subjects, n, f) && f(old(subjects)[n]).error == r.error
    {
      for i := 0 to |subjects|
        invariant |subjects| == |old(subjects)|
        invariant forall j :: 0 <= j < i ==> f(old(subjects)[j]) == Ok(subjects[j])
        invariant forall j :: i <= j < |subjects| ==> subjects[j] == old(subjects)[j]
      {
        match f(subjects[i]) {
          case Err(e) =>
            assert Rewritten(old(subjects), subjects, i, f);
            return Err(e);
          case Ok(s) => subjects := subjects[i := s];
        }
      }
      return Ok(());
    }
  }

  /** The subjects before `n` are rewritten, the one at `n` was refused, the rest are untouched. */
  ghost predicate Rewritten(before: seq<Subject>, after: seq<Subject>, n: nat, f: Subject -> Result<Subject>) {
    && n < |before| == |after|
    && f(before[n]).Err?
    && (forall j :: 0 <= j < n ==> f(before[j]) == Ok(after[j]))
    && (forall j :: n <= j < |before| ==> after[j] == before[j])
  }

  function CompareNames(a: Subject, b: Subject): int {
    Text.Compare(a.name, b.name)
  }

  lemma {:induction false} SubjectsArePreordered(s: seq<Subject>)
    ensures TotalPreorder(s, CompareNames)
  {
    forall x, y | x in s && y in s ensures CompareNames(x, y) <= 0 <==> CompareNames(y, x) >= 0 {
      Text.CompareAntisymmetric(x.name, y.name);
    }
    forall x, y, z | x in s && y in s && z in s && CompareNames(x, y) <= 0 && CompareNames(y, z) <= 0
      ensures CompareNames(x, z) <= 0
    {
      Text.CompareTransitive(x.name, y.name, z.name);
    }
  }

  ghost predicate InNameOrder(s: seq<Subject>) {
    forall i, j :: 0 <= i < j < |s| ==> !Text.Before(s[j].name, s[i].name)
  }

  lemma {:induction false} SortedInNameOrder(s: seq<Subject>)
    requires Sorted(s, CompareNames)
    ensures InNameOrder(s)
  {
    forall i, j | 0 <= i < j < |s| ensures !Text.Before(s[j].name, s[i].name) {
      assert CompareNames(s[i], s[j]) <= 0;
      Text.CompareMeaning(s[i].name, s[j].name);
    }
  }

  /** A new statement has its subjects sorted by name. */
  method MakeStatement(kind: string, inner: Inner, subjects: seq<Subject>) returns (statement: Statement)
    ensures fresh(statement) && statement.content == Predicate(kind, inner)
    ensures multiset(statement.subjects) == multiset(subjects) && Sorted(statement.subjects, CompareNames)
    ensures InNameOrder(statement.subjects)
  {
    SubjectsArePreordered(subjects);
    var sorted := SortFunc(subjects, CompareNames);
    SortedInNameOrder(sorted);
    statement := new Statement(Predicate(kind, inner), sorted);
  }
}
