/** What the two report pages share: the query parameters that choose the
    sort, and the ascending name order used to break ties. The two pages
    each carry a copy of the name comparator; the copies are identical, so
    it is defined once here. */
module Reports {
  import opened Options
  import opened Strings
  import opened Ordering
  import opened SearchParams

  /** The student fields the reports show. */
  datatype Student = Student(id: string, firstName: string, lastName: string, period: string)

  const SortKeyParam := "sort-key"
  const DescParam := "desc"
  const DefaultSortKey := "cadet"

  /** `url.searchParams.get("sort-key") ?? "cadet"`. */
  function SortKey(ps: Params): string
  {
    Get(ps, SortKeyParam).GetOr(DefaultSortKey)
  }

  /** `url.searchParams.get("desc") ? -1 : 1`: an empty value is falsy. */
  function DirectionFactor(ps: Params): (f: int)
    ensures f == 1 || f == -1
    ensures f == -1 <==> Get(ps, DescParam).Some? && Get(ps, DescParam).value != ""
  {
    match Get(ps, DescParam)
    case Some(v) => if v != "" then -1 else 1
    case None => 1
  }

  /** `localeCompare` as a comparator value. */
  const StringOrder := (a: string, b: string) => Compare(a, b)

  lemma StringOrderPreorder()
    ensures TotalPreorder(StringOrder)
  {
    forall a, b ensures Sign(StringOrder(a, b)) == -Sign(StringOrder(b, a)) {
      CompareAntisymmetric(a, b);
    }
    forall a, b, c | StringOrder(a, b) <= 0 && StringOrder(b, c) <= 0
      ensures StringOrder(a, c) <= 0
    {
      CompareTransitive(a, b, c);
    }
  }

  /** Lower-cased first names decide; lower-cased last names decide a tie. */
  ghost predicate NameBefore(a: Student, b: Student)
  {
    || LexLess(Lower(a.firstName), Lower(b.firstName))
    || (Lower(a.firstName) == Lower(b.firstName) && LexLess(Lower(a.lastName), Lower(b.lastName)))
  }

  /** `nameCmp(a, b)`: first names, then last names, both lower-cased. */
  function NameCmp(a: Student, b: Student): (r: int)
    ensures -1 <= r <= 1
    ensures r == 0 <==> Lower(a.firstName) == Lower(b.firstName) && Lower(a.lastName) == Lower(b.lastName)
    ensures r < 0 <==> NameBefore(a, b)
  {
    var first := Compare(Lower(a.firstName), Lower(b.firstName));
    CompareIsLexLess(Lower(a.firstName), Lower(b.firstName));
    CompareIsLexLess(Lower(a.lastName), Lower(b.lastName));
    if first != 0 then first else Compare(Lower(a.lastName), Lower(b.lastName))
  }

  const NameOrder := (a: Student, b: Student) => NameCmp(a, b)

  /** Swapping two students exactly negates the name comparison, so a
      descending name sort is the ascending one read backwards. */
  lemma NameCmpAntisymmetric(a: Student, b: Student)
    ensures NameCmp(a, b) == -NameCmp(b, a)
  {
    CompareAntisymmetric(Lower(a.firstName), Lower(b.firstName));
    CompareAntisymmetric(Lower(a.lastName), Lower(b.lastName));
  }

  /** The name order is a total preorder. */
  lemma NameOrderPreorder()
    ensures TotalPreorder(NameOrder)
  {
    var byFirst := On(StringOrder, (s: Student) => Lower(s.firstName));
    var byLast := On(StringOrder, (s: Student) => Lower(s.lastName));
    StringOrderPreorder();
    OnPreorder(StringOrder, (s: Student) => Lower(s.firstName));
    OnPreorder(StringOrder, (s: Student) => Lower(s.lastName));
    ThenByPreorder(byFirst, byLast);
    SameSignPreorder(NameOrder, ThenBy(byFirst, byLast));
  }
}
