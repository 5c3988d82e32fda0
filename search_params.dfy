/** The shop page's URL state (client/src/hooks/useSearchParams.js): the
    query string as a map from key to value, the parameters derived from it
    with their defaults, and the update rules behind `setSearch`, `setSort`
    and `setPage`. */
module ShopSearchParams {
  import opened Wrappers
  import Strings

  /** The query string; key order and repeated keys are not modelled. */
  type Query = map<string, string>

  /** A JavaScript value handed to `updateParams`. */
  datatype Value = Undefined | Null | Str(s: string) | Num(n: int)

  /** The parameters the shop page reads. */
  datatype Params = Params(search: string, sortBy: string, sortOrder: string, page: int)

  /** `searchParams.get(key) || fallback`: a missing or empty value falls back. */
  function GetOr(q: Query, key: string, fallback: string): (r: string)
    ensures key in q && q[key] != "" ==> r == q[key]
    ensures key !in q || q[key] == "" ==> r == fallback
  {
    if key in q && q[key] != "" then q[key] else fallback
  }

  /** `parseInt(searchParams.get('page')) || 1`: a missing key reads as
      `parseInt(null)`, which is NaN like any other non-number. */
  function PageOf(q: Query): (page: int)
    ensures page != 0
    ensures "page" !in q ==> page == 1
    ensures "page" in q && Strings.ParseInt(q["page"]).Some? && Strings.ParseInt(q["page"]).value != 0 ==>
      page == Strings.ParseInt(q["page"]).value
  {
    if "page" !in q then 1
    else
      match Strings.ParseInt(q["page"])
      case Some(n) => if n != 0 then n else 1
      case None => 1
  }

  /** The derived `params` record. */
  function ParamsOf(q: Query): Params {
    Params(GetOr(q, "search", ""), GetOr(q, "sortBy", "name"), GetOr(q, "sortOrder", "asc"), PageOf(q))
  }

  /** `value === '' || value === null || value === undefined`. */
  predicate Clears(v: Value) {
    v == Str("") || v == Null || v == Undefined
  }

  /** `value.toString()`. */
  function Text(v: Value): string
    requires !Clears(v)
  {
    match v
    case Str(s) => s
    case Num(n) => Strings.IntToString(n)
  }

  /** The query after applying the entries of `updates` whose keys are in
      `done`: a clearing value deletes its key, any other value sets it. */
  function Applied(prev: Query, updates: map<string, Value>, done: set<string>): (q: Query)
    requires done <= updates.Keys
    ensures forall k :: k in q <==> (k in done && !Clears(updates[k])) || (k !in done && k in prev)
    ensures forall k :: k in q ==> q[k] == if k in done then Text(updates[k]) else prev[k]
  {
    map k | k in prev.Keys + done && !(k in done && Clears(updates[k])) ::
      if k in done then Text(updates[k]) else prev[k]
  }

  /** `updates.search !== undefined || updates.sortBy !== undefined || ...`. */
  predicate ResetsPage(updates: map<string, Value>) {
    || ("search" in updates && updates["search"] != Undefined)
    || ("sortBy" in updates && updates["sortBy"] != Undefined)
    || ("sortOrder" in updates && updates["sortOrder"] != Undefined)
  }

  /** The whole update rule: entries applied, then `page` forced to "1" when
      the search or the sort was mentioned. */
  function Updated(prev: Query, updates: map<string, Value>): Query {
    var q := Applied(prev, updates, updates.Keys);
    if ResetsPage(updates) then q["page" := "1"] else q
  }

  /** The update rule key by key: a named key is deleted by a clearing value
      and set to the value's string form otherwise (unless the page reset
      overrides it), an unnamed key keeps its value, and a search or sort
      update leaves page "1" even when the update also named the page. */
  lemma UpdateRules(prev: Query, updates: map<string, Value>, k: string)
    ensures var next := Updated(prev, updates);
      && (k in updates && !(k == "page" && ResetsPage(updates)) ==>
            (k in next <==> !Clears(updates[k])) && (k in next ==> next[k] == Text(updates[k])))
      && (k !in updates && k != "page" ==> (k in next <==> k in prev) && (k in next ==> next[k] == prev[k]))
      && (ResetsPage(updates) ==> "page" in next && next["page"] == "1" && ParamsOf(next).page == 1)
  {
    PageOne();
  }

  /** `updateParams`: copies the query and applies the entries one by one. */
  method UpdateParams(prev: Query, updates: map<string, Value>) returns (next: Query)
    ensures next == Updated(prev, updates)
  {
    next := prev;
    var todo := updates.Keys;
    AppliedNothing(prev, updates);
    assert updates.Keys - todo == {};
    while todo != {}
      invariant todo <= updates.Keys
      invariant next == Applied(prev, updates, updates.Keys - todo)
      decreases todo
    {
      var key :| key in todo;
      var value := updates[key];
      ghost var done := updates.Keys - todo;
      AppliedStep(prev, updates, done, key);
      if value == Str("") || value == Null || value == Undefined {
        next := next - {key};
      } else {
        next := next[key := Text(value)];
      }
      assert next == Applied(prev, updates, done + {key});
      todo := todo - {key};
      assert updates.Keys - todo == done + {key};
    }
    assert updates.Keys - todo == updates.Keys;
    if ("search" in updates && updates["search"] != Undefined)
      || ("sortBy" in updates && updates["sortBy"] != Undefined)
      || ("sortOrder" in updates && updates["sortOrder"] != Undefined)
    {
      next := next["page" := "1"];
    }
  }

  /** Applying no entry leaves the query as it was. */
  lemma AppliedNothing(prev: Query, updates: map<string, Value>)
    ensures Applied(prev, updates, {}) == prev
  {
    var a := Applied(prev, updates, {});
    assert forall k :: k in a <==> k in prev;
  }

  /** Applying one more entry deletes or sets its key in the query so far. */
  lemma AppliedStep(prev: Query, updates: map<string, Value>, done: set<string>, key: string)
    requires done <= updates.Keys && key in updates && key !in done
    ensures Applied(prev, updates, done + {key}) ==
      if Clears(updates[key]) then Applied(prev, updates, done) - {key}
      else Applied(prev, updates, done)[key := Text(updates[key])]
  {
    var a := Applied(prev, updates, done);
    var b := Applied(prev, updates, done + {key});
    var c := if Clears(updates[key]) then a - {key} else a[key := Text(updates[key])];
    assert forall k :: k in b <==> k in c;
    assert forall k :: k in b ==> b[k] == c[k];
  }

  /** The page reset writes "1", which reads back as page 1. */
  lemma PageOne()
    ensures Strings.ParseInt("1") == Some(1)
  {
    Strings.ParseIntOfIntToString(1);
    assert Strings.IntToString(1) == "1";
  }

  /** `setSearch(search)`: the new term is read back, and the page goes back to 1. */
  method SetSearch(prev: Query, search: string) returns (next: Query)
    ensures ParamsOf(next).search == search
    ensures ParamsOf(next).page == 1
    ensures ParamsOf(next).sortBy == ParamsOf(prev).sortBy && ParamsOf(next).sortOrder == ParamsOf(prev).sortOrder
    ensures forall k :: k != "search" && k != "page" ==> (k in next <==> k in prev) && (k in next ==> next[k] == prev[k])
  {
    var u := map["search" := Str(search)];
    next := UpdateParams(prev, u);
    assert ResetsPage(u);
    UpdateRules(prev, u, "search");
    UpdateRules(prev, u, "sortBy");
    UpdateRules(prev, u, "sortOrder");
    forall k | k != "search" && k != "page" ensures (k in next <==> k in prev) && (k in next ==> next[k] == prev[k]) {
      UpdateRules(prev, u, k);
    }
  }

  /** `setSort(sortBy, sortOrder)` with the strings the search bar emits. */
  method SetSort(prev: Query, sortBy: string, sortOrder: string) returns (next: Query)
    ensures ParamsOf(next).sortBy == (if sortBy == "" then "name" else sortBy)
    ensures ParamsOf(next).sortOrder == (if sortOrder == "" then "asc" else sortOrder)
    ensures ParamsOf(next).page == 1 && ParamsOf(next).search == ParamsOf(prev).search
    ensures forall k :: k != "sortBy" && k != "sortOrder" && k != "page" ==>
      (k in next <==> k in prev) && (k in next ==> next[k] == prev[k])
  {
    next := UpdateParams(prev, SortUpdate(sortBy, sortOrder));
    SortParams(prev, sortBy, sortOrder);
    SortKeeps(prev, sortBy, sortOrder);
  }

  function SortUpdate(sortBy: string, sortOrder: string): map<string, Value> {
    map["sortBy" := Str(sortBy), "sortOrder" := Str(sortOrder)]
  }

  lemma SortParams(prev: Query, sortBy: string, sortOrder: string)
    ensures var next := Updated(prev, SortUpdate(sortBy, sortOrder));
      && ParamsOf(next).sortBy == (if sortBy == "" then "name" else sortBy)
      && ParamsOf(next).sortOrder == (if sortOrder == "" then "asc" else sortOrder)
      && ParamsOf(next).page == 1 && ParamsOf(next).search == ParamsOf(prev).search
  {
    var u := SortUpdate(sortBy, sortOrder);
    assert ResetsPage(u);
    UpdateRules(prev, u, "search");
    UpdateRules(prev, u, "sortBy");
    UpdateRules(prev, u, "sortOrder");
  }

  lemma SortKeeps(prev: Query, sortBy: string, sortOrder: string)
    ensures var next := Updated(prev, SortUpdate(sortBy, sortOrder));
      forall k :: k != "sortBy" && k != "sortOrder" && k != "page" ==>
        (k in next <==> k in prev) && (k in next ==> next[k] == prev[k])
  {
    var u := SortUpdate(sortBy, sortOrder);
    forall k | k != "sortBy" && k != "sortOrder" && k != "page"
      ensures var next := Updated(prev, u); (k in next <==> k in prev) && (k in next ==> next[k] == prev[k])
    {
      UpdateRules(prev, u, k);
    }
  }

  /** `setPage(page)`: only the page key changes, and the page reads back as
      the number set (0 reads back as 1, since 0 is falsy). */
  method SetPage(prev: Query, page: int) returns (next: Query)
    ensures ParamsOf(next).page == if page == 0 then 1 else page
    ensures forall k :: k != "page" ==> (k in next <==> k in prev) && (k in next ==> next[k] == prev[k])
  {
    next := UpdateParams(prev, map["page" := Num(page)]);
    PageReadBack(prev, page);
    PageKeepsOthers(prev, page);
  }

  /** The page written by `setPage` is the page read back. */
  lemma PageReadBack(prev: Query, page: int)
    ensures ParamsOf(Updated(prev, map["page" := Num(page)])).page == if page == 0 then 1 else page
  {
    var u := map["page" := Num(page)];
    var next := Updated(prev, u);
    assert !ResetsPage(u);
    UpdateRules(prev, u, "page");
    assert next["page"] == Strings.IntToString(page);
    Strings.ParseIntOfIntToString(page);
    assert PageOf(next) == if page == 0 then 1 else page;
  }

  /** `setPage` leaves every other key as it was. */
  lemma PageKeepsOthers(prev: Query, page: int)
    ensures var next := Updated(prev, map["page" := Num(page)]);
      forall k :: k != "page" ==> (k in next <==> k in prev) && (k in next ==> next[k] == prev[k])
  {
    var u := map["page" := Num(page)];
    var next := Updated(prev, u);
    forall k | k != "page" ensures (k in next <==> k in prev) && (k in next ==> next[k] == prev[k]) {
      UpdateRules(prev, u, k);
    }
  }
}
