/** The clickable column header of the reports: where its link points and
    which arrow it shows, read from the current query. */
module SortableHeader {
  import opened Options
  import opened Strings
  import opened SearchParams
  import opened Reports

  /** `!currentDesc` on a value of `get("desc")`: null and "" are falsy. */
  predicate Truthy(v: Option<string>)
  {
    v.Some? && v.value != ""
  }

  /** `nextDesc`: descending next only when this column is the current one
      and the current order is not descending. */
  function NextDesc(sortKey: string, ps: Params): (b: bool)
    ensures Get(ps, SortKeyParam) != Some(sortKey) ==> !b
  {
    if Get(ps, SortKeyParam) == Some(sortKey) then !Truthy(Get(ps, DescParam)) else false
  }

  /** The link's `to`: `?sort-key=<key>`, then `&desc=1` when `nextDesc`. */
  function LinkTarget(sortKey: string, nextDesc: bool): string
  {
    "?sort-key=" + sortKey + (if nextDesc then "&desc=1" else "")
  }

  /** The query a relative `?...` link leads to. */
  function QueryOf(search: string): Params
  {
    if |search| > 0 && search[0] == '?' then ParseQuery(search[1..]) else ParseQuery(search)
  }

  datatype Arrow = ArrowDown | ArrowUp | ArrowsUpDown

  /** The icon: down or up on the active column, both ways elsewhere. */
  function ArrowIcon(sortKey: string, ps: Params): (a: Arrow)
    ensures a == ArrowDown <==> Get(ps, SortKeyParam) == Some(sortKey) && Truthy(Get(ps, DescParam))
    ensures a == ArrowUp <==> Get(ps, SortKeyParam) == Some(sortKey) && !Truthy(Get(ps, DescParam))
  {
    if Get(ps, SortKeyParam) == Some(sortKey) then
      (if Truthy(Get(ps, DescParam)) then ArrowDown else ArrowUp)
    else ArrowsUpDown
  }

  /** The icon of an inactive column shows only on hover. */
  predicate HoverOnly(sortKey: string, ps: Params)
  {
    Get(ps, SortKeyParam) != Some(sortKey)
  }

  /** A key the link can carry unchanged: no separator, no escape. */
  predicate PlainKey(k: string)
  {
    '&' !in k && '%' !in k && '+' !in k && '#' !in k
  }

  /** The link's query reads back as the key and, exactly when asked for,
      the descending flag. */
  lemma LinkRoundTrip(sortKey: string, nextDesc: bool)
    requires PlainKey(sortKey)
    ensures var ps := QueryOf(LinkTarget(sortKey, nextDesc));
      && Get(ps, SortKeyParam) == Some(sortKey)
      && (nextDesc ==> Get(ps, DescParam) == Some("1"))
      && (!nextDesc ==> Get(ps, DescParam) == None)
  {
    var target := LinkTarget(sortKey, nextDesc);
    assert forall i :: 0 <= i < |sortKey| ==> sortKey[i] != '&';
    if nextDesc {
      assert target[1..] == Pair("sort-key", sortKey) + "&" + Pair("desc", "1");
      ParseTwoPairs("sort-key", sortKey, "desc", "1");
    } else {
      assert target[1..] == Pair("sort-key", sortKey);
      ParseOnePair("sort-key", sortKey);
    }
  }

  /** Clicking the active column keeps the key and reverses the loader's
      direction factor. */
  lemma ClickActiveColumnFlipsDirection(sortKey: string, ps: Params)
    requires PlainKey(sortKey)
    requires Get(ps, SortKeyParam) == Some(sortKey)
    ensures var next := QueryOf(LinkTarget(sortKey, NextDesc(sortKey, ps)));
      SortKey(next) == sortKey && DirectionFactor(next) == -DirectionFactor(ps)
  {
    LinkRoundTrip(sortKey, NextDesc(sortKey, ps));
  }

  /** Clicking any other column sorts by it ascending. */
  lemma ClickOtherColumnAscends(sortKey: string, ps: Params)
    requires PlainKey(sortKey)
    requires Get(ps, SortKeyParam) != Some(sortKey)
    ensures var next := QueryOf(LinkTarget(sortKey, NextDesc(sortKey, ps)));
      SortKey(next) == sortKey && DirectionFactor(next) == 1
  {
    LinkRoundTrip(sortKey, false);
  }

  /** On the active column the arrow shows the loader's direction. */
  lemma ArrowMatchesDirection(sortKey: string, ps: Params)
    requires Get(ps, SortKeyParam) == Some(sortKey)
    ensures SortKey(ps) == sortKey
    ensures ArrowIcon(sortKey, ps) == ArrowDown <==> DirectionFactor(ps) == -1
    ensures ArrowIcon(sortKey, ps) == ArrowUp <==> DirectionFactor(ps) == 1
  {
  }

  /** With no sort key in the query the loader sorts by "cadet", yet the
      "cadet" header is not the active one: it shows the both-ways icon on
      hover, and clicking it asks for the ascending order already shown. */
  lemma DefaultCadetSortHasInactiveHeader(ps: Params)
    requires Get(ps, SortKeyParam).None?
    ensures SortKey(ps) == "cadet"
    ensures HoverOnly("cadet", ps) && ArrowIcon("cadet", ps) == ArrowsUpDown
    ensures !NextDesc("cadet", ps)
  {
  }
}
