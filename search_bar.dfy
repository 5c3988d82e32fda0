/** The shop's sort buttons (client/src/components/ShopPage/SearchBar.jsx):
    which field and order a click passes to `onSort`. */
module SearchBar {
  import ShopSearchParams

  /** The fields the two sort buttons offer. The server's price field is
      called `perUnitPrice`, so `MedicineController.SortFieldOf` maps "price"
      to no field (`MedicineController.PriceIsNoField`). */
  const SortFields: seq<string> := ["name", "price"]

  /** `handleSort(field)` with the current `sortBy` and `sortOrder`: the pair
      handed to `onSort`. */
  function HandleSort(sortBy: string, sortOrder: string, field: string): (r: (string, string))
    ensures r.0 == field
    ensures r.1 == "asc" || r.1 == "desc"
    ensures sortBy == field ==> (r.1 == "desc" <==> sortOrder == "asc")
    ensures sortBy != field ==> r.1 == "asc"
  {
    if sortBy == field then (field, if sortOrder == "asc" then "desc" else "asc")
    else (field, "asc")
  }

  /** Clicking the active field twice gives back the order it had, when that
      order was one of the two the bar emits. */
  lemma ClickTwice(field: string, sortOrder: string)
    requires sortOrder == "asc" || sortOrder == "desc"
    ensures var once := HandleSort(field, sortOrder, field);
      HandleSort(once.0, once.1, field) == (field, sortOrder)
  {
  }

  /** A click, stored through `setSort`, is what the page then reads back:
      the clicked field, an order in {asc, desc}, and page 1. */
  lemma ClickIsReadBack(q: ShopSearchParams.Query, field: string)
    requires field in SortFields
    ensures var p := ShopSearchParams.ParamsOf(q);
      var click := HandleSort(p.sortBy, p.sortOrder, field);
      var after := ShopSearchParams.ParamsOf(ShopSearchParams.Updated(q,
        map["sortBy" := ShopSearchParams.Str(click.0), "sortOrder" := ShopSearchParams.Str(click.1)]));
      after.sortBy == field && (after.sortOrder == "asc" || after.sortOrder == "desc") && after.page == 1
      && after.search == p.search
  {
    var p := ShopSearchParams.ParamsOf(q);
    var click := HandleSort(p.sortBy, p.sortOrder, field);
    var updates := map["sortBy" := ShopSearchParams.Str(click.0), "sortOrder" := ShopSearchParams.Str(click.1)];
    ShopSearchParams.UpdateRules(q, updates, "sortBy");
    ShopSearchParams.UpdateRules(q, updates, "sortOrder");
    ShopSearchParams.UpdateRules(q, updates, "search");
  }
}
