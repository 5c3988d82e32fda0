/** The shop table's data provider (client/src/components/ShopPage/MedicineDataProvider.jsx):
    the fixed page size it asks for, and the summary of the server's
    `pagination` object that it hands to the page for the pagination bar. */
module MedicineDataProvider {
  import opened Wrappers
  import Pagination

  /** Every request asks for this many medicines. */
  const Limit: int := 10

  /** The fields of the server's `pagination` object the provider reads;
      `None` where the field is missing or `null`. */
  datatype ServerPagination = ServerPagination(pages: Option<int>, total: Option<int>)

  /** The object passed to `onDataLoaded`. */
  datatype Summary = Summary(totalPages: int, totalItems: int, startIndex: int, endIndex: int)

  /** `x || fallback` for a number that may be missing: a missing value and
      0 (falsy) both give `fallback`. */
  function OrElse(x: Option<int>, fallback: int): (r: int)
    ensures x.Some? && x.value != 0 ==> r == x.value
    ensures x.None? || x.value == 0 ==> r == fallback
  {
    if x.Some? && x.value != 0 then x.value else fallback
  }

  /** The summary for the requested `page`; `response` is None when the
      response carries no `pagination` object (`|| {}`). */
  function Summarize(page: int, response: Option<ServerPagination>): (s: Summary)
    ensures s.startIndex == (page - 1) * Limit
    ensures s.endIndex <= page * Limit && s.endIndex <= s.totalItems
    ensures s.endIndex == page * Limit || s.endIndex == s.totalItems
    ensures s.endIndex - s.startIndex <= Limit
    ensures s.totalPages != 0
    ensures response.None? ==> s.totalPages == 1 && s.totalItems == 0
    ensures response.Some? ==>
      s.totalPages == OrElse(response.value.pages, 1) && s.totalItems == OrElse(response.value.total, 0)
  {
    var p := if response.Some? then response.value else ServerPagination(None, None);
    var total := OrElse(p.total, 0);
    Summary(
      OrElse(p.pages, 1),
      total,
      (page - 1) * Limit,
      if page * Limit < total then page * Limit else total)
  }

  /** `medicinesResponse?.data?.data?.medicines || []`. */
  function ShownMedicines<T>(medicines: Option<seq<T>>): (r: seq<T>)
    ensures medicines.Some? ==> r == medicines.value
    ensures medicines.None? ==> r == []
  {
    medicines.GetOr([])
  }

  /** For a page the server actually has (`pages` is the ceiling of
      `total / Limit`), the summary makes the pagination bar show a non-empty
      range "a-b of total" with exactly the items of that page. */
  lemma ShowingOfExistingPage(page: int, pages: int, total: int)
    requires 1 <= page <= pages
    requires (pages - 1) * Limit < total <= pages * Limit
    ensures var s := Summarize(page, Some(ServerPagination(Some(pages), Some(total))));
      && s.totalPages == pages && s.totalItems == total
      && (pages > 1 ==>
           var v := Pagination.Render(page, s.totalPages, s.startIndex, s.endIndex, s.totalItems);
           && v.Some?
           && 1 <= v.value.showingFrom <= v.value.showingTo <= total
           && v.value.showingTo - v.value.showingFrom + 1 == (if page < pages then Limit else total - (pages - 1) * Limit))
  {
    var s := Summarize(page, Some(ServerPagination(Some(pages), Some(total))));
    assert (page - 1) * Limit <= (pages - 1) * Limit;
    if page < pages {
      assert page * Limit <= (pages - 1) * Limit;
    }
  }
}
