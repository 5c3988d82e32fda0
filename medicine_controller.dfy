/** The medicine endpoints (server/src/controllers/medicineController.js).
    The listings (`getMedicines`, `getFeaturedMedicines`,
    `getMedicinesByCategory`, `getLowStockMedicines`) are queries: a filter,
    a sort and a skip/limit slice over the collection in natural order. The
    writes (`createMedicine`, `updateMedicine`, `deleteMedicine`,
    `updateStock`) are methods on the database that return the HTTP status
    the handler sends. */
module MedicineController {
  import opened Wrappers
  import Strings
  import Collections
  import Sorting
  import opened Documents
  import MedicineModel
  import CatalogStore
  import opened Http

  type Medicine = MedicineModel.Medicine

  /* ---------------- sorting ---------------- */

  /** The fields a `.sort({ [sortBy]: ±1 })` can name. Any other name is a
      field no document has: every document ties. */
  datatype SortField =
    | ById | ByName | ByGenericName | ByDescription | ByCategory | ByCompany
    | ByPrice | ByDiscount | ByStock | ByMassUnit | ByImage | ByPrescription
    | ByExpiry | ByBatch | ByActive | ByFeatured | ByCreatedBy | ByCreatedAt
    | ByUpdatedAt | Unsorted

  function SortFieldOf(name: string): SortField {
    match name
    case "_id" => ById
    case "name" => ByName
    case "genericName" => ByGenericName
    case "description" => ByDescription
    case "category" => ByCategory
    case "company" => ByCompany
    case "perUnitPrice" => ByPrice
    case "discountPercentage" => ByDiscount
    case "stock" => ByStock
    case "massUnit" => ByMassUnit
    case "image" => ByImage
    case "prescriptionRequired" => ByPrescription
    case "expiryDate" => ByExpiry
    case "batchNumber" => ByBatch
    case "isActive" => ByActive
    case "isFeatured" => ByFeatured
    case "createdBy" => ByCreatedBy
    case "createdAt" => ByCreatedAt
    case "updatedAt" => ByUpdatedAt
    case _ => Unsorted
  }

  /** `false` sorts before `true`. */
  predicate BoolLe(a: bool, b: bool) { !a || b }

  /** `a` sorts no later than `b` on `field`, ascending. Strings compare by
      code point. */
  predicate FieldLe(field: SortField, a: Medicine, b: Medicine) {
    match field
    case ById => a.id <= b.id
    case ByName => Strings.StrLe(a.name, b.name)
    case ByGenericName => Strings.StrLe(a.genericName, b.genericName)
    case ByDescription => Strings.StrLe(a.description, b.description)
    case ByCategory => a.category <= b.category
    case ByCompany => Strings.StrLe(a.company, b.company)
    case ByPrice => a.perUnitPrice <= b.perUnitPrice
    case ByDiscount => a.discountPercentage <= b.discountPercentage
    case ByStock => a.stock <= b.stock
    case ByMassUnit => Strings.StrLe(MedicineModel.UnitName(a.massUnit), MedicineModel.UnitName(b.massUnit))
    case ByImage => Strings.StrLe(a.image, b.image)
    case ByPrescription => BoolLe(a.prescriptionRequired, b.prescriptionRequired)
    case ByExpiry => a.expiryDate <= b.expiryDate
    case ByBatch => Strings.StrLe(a.batchNumber, b.batchNumber)
    case ByActive => BoolLe(a.isActive, b.isActive)
    case ByFeatured => BoolLe(a.isFeatured, b.isFeatured)
    case ByCreatedBy => a.createdBy <= b.createdBy
    case ByCreatedAt => a.createdAt <= b.createdAt
    case ByUpdatedAt => a.updatedAt <= b.updatedAt
    case Unsorted => true
  }

  /** The order `{ [field]: descending ? -1 : 1 }` asks for. */
  function SortLe(field: SortField, descending: bool): (Medicine, Medicine) -> bool {
    (a: Medicine, b: Medicine) => if descending then FieldLe(field, b, a) else FieldLe(field, a, b)
  }

  lemma FieldLeTotal(field: SortField, a: Medicine, b: Medicine)
    ensures FieldLe(field, a, b) || FieldLe(field, b, a)
  {
    match field
    case ByName => Strings.StrLeTotal(a.name, b.name);
    case ByGenericName => Strings.StrLeTotal(a.genericName, b.genericName);
    case ByDescription => Strings.StrLeTotal(a.description, b.description);
    case ByCompany => Strings.StrLeTotal(a.company, b.company);
    case ByMassUnit =>
      Strings.StrLeTotal(MedicineModel.UnitName(a.massUnit), MedicineModel.UnitName(b.massUnit));
    case ByImage => Strings.StrLeTotal(a.image, b.image);
    case ByBatch => Strings.StrLeTotal(a.batchNumber, b.batchNumber);
    case _ =>
  }

  /** Every sort the handlers ask for relates any two medicines, so the
      sorted result is ordered. */
  lemma SortLeTotal(field: SortField, descending: bool)
    ensures Sorting.Total(SortLe(field, descending))
  {
    forall a: Medicine, b: Medicine ensures SortLe(field, descending)(a, b) || SortLe(field, descending)(b, a) {
      FieldLeTotal(field, a, b);
    }
  }

  /** `s` sorted under `le`: the same medicines, ordered. */
  function SortBy(s: seq<Medicine>, field: SortField, descending: bool): (r: seq<Medicine>)
    ensures multiset(r) == multiset(s)
    ensures Sorting.SortedBy(r, SortLe(field, descending))
  {
    SortLeTotal(field, descending);
    Sorting.SortSorted(s, SortLe(field, descending));
    Sorting.Sort(s, SortLe(field, descending))
  }

  /** A sort on a field no document has keeps the collection's order. */
  lemma UnsortedKeepsOrder(s: seq<Medicine>, descending: bool)
    ensures SortBy(s, Unsorted, descending) == s
  {
    var le := SortLe(Unsorted, descending);
    forall a: Medicine, b: Medicine ensures le(a, b) {
      assert FieldLe(Unsorted, a, b) && FieldLe(Unsorted, b, a);
    }
    Sorting.SortAllTiesIsIdentity(s, le);
  }

  lemma PriceIsNoField()
    ensures SortFieldOf("price") == Unsorted
  {
  }

  /** The shop's "price" sort key names no field of a medicine (the field
      is `perUnitPrice`), so a listing sorted by "price" comes back in
      collection order. */
  lemma PriceSortKeepsOrder(s: seq<Medicine>, descending: bool)
    ensures SortFieldOf("price") == Unsorted
    ensures SortBy(s, SortFieldOf("price"), descending) == s
  {
    PriceIsNoField();
    UnsortedKeepsOrder(s, descending);
  }

  /* ---------------- skip and limit ---------------- */

  function Abs(n: int): nat { if n < 0 then -n else n }

  /** `.skip(skip).limit(limit)` on a cursor over `s`: limit 0 means no
      limit, and a negative limit returns at most `-limit` documents. */
  function Slice<T>(s: seq<T>, skip: nat, limit: int): (r: seq<T>)
    ensures forall i :: 0 <= i < |r| ==> skip + i < |s| && r[i] == s[skip + i]
    ensures limit == 0 ==> |r| == if skip <= |s| then |s| - skip else 0
    ensures limit != 0 ==> |r| == if skip >= |s| then 0 else if |s| - skip < Abs(limit) then |s| - skip else Abs(limit)
  {
    if skip >= |s| then []
    else if limit == 0 || |s| - skip < Abs(limit) then s[skip..]
    else s[skip..skip + Abs(limit)]
  }

  /** A slice of an ordered sequence is ordered. */
  lemma SliceSorted(s: seq<Medicine>, skip: nat, limit: int, le: (Medicine, Medicine) -> bool)
    requires Sorting.SortedBy(s, le)
    ensures Sorting.SortedBy(Slice(s, skip, limit), le)
  {
    var r := Slice(s, skip, limit);
    forall i | 0 <= i < |r| - 1 ensures le(r[i], r[i + 1]) {
      assert r[i] == s[skip + i] && r[i + 1] == s[skip + i + 1];
    }
  }

  /** `Math.ceil(total / limit)` for a limit that is not 0. */
  function CeilDiv(total: nat, limit: int): (pages: int)
    requires limit != 0
    ensures limit > 0 ==> (pages - 1) * limit < total <= pages * limit
    ensures limit > 0 ==> (pages == 0 <==> total == 0)
    ensures limit < 0 ==> pages <= 0 && pages * limit <= total < (pages - 1) * limit
  {
    if limit > 0 then (total + limit - 1) / limit else -(total / -limit)
  }

  /* ---------------- getMedicines ---------------- */

  /** `req.query` of the listing: each parameter as the string it arrived
      as, None when absent. `category` is the id the string names and the
      price bounds are what `parseFloat` reads from non-empty strings. */
  datatype ListQuery = ListQuery(
    page: Option<string>,
    limit: Option<string>,
    search: Option<string>,
    category: Option<Id>,
    company: Option<string>,
    minPrice: Option<real>,
    maxPrice: Option<real>,
    prescriptionRequired: Option<string>,
    sortBy: Option<string>,
    sortOrder: Option<string>)

  /** A string parameter that is present and not empty (truthy). */
  predicate Truthy(o: Option<string>) {
    o.Some? && o.value != ""
  }

  /** `parseInt` of a parameter with a numeric default; None is NaN. */
  function NumberOr(o: Option<string>, default: int): Option<int> {
    if o.None? then Some(default) else Strings.ParseInt(o.value)
  }

  /** The `$or` of case-insensitive matches of the search term (a literal,
      not a pattern) against the four text fields. */
  predicate TextMatches(m: Medicine, term: string) {
    || Strings.IncludesIgnoreCase(m.name, term)
    || Strings.IncludesIgnoreCase(m.genericName, term)
    || Strings.IncludesIgnoreCase(m.description, term)
    || Strings.IncludesIgnoreCase(m.company, term)
  }

  /** The query object `getMedicines` builds, as a test on one document:
      always active; each filter only when its parameter is given. */
  predicate Matches(q: ListQuery, m: Medicine) {
    && m.isActive
    && (Truthy(q.search) ==> TextMatches(m, q.search.value))
    && (q.category.Some? ==> m.category == q.category.value)
    && (Truthy(q.company) ==> Strings.IncludesIgnoreCase(m.company, q.company.value))
    && (q.minPrice.Some? ==> m.perUnitPrice >= q.minPrice.value)
    && (q.maxPrice.Some? ==> m.perUnitPrice <= q.maxPrice.value)
    && (q.prescriptionRequired.Some? ==> m.prescriptionRequired == (q.prescriptionRequired.value == "true"))
  }

  function MatchesQuery(q: ListQuery): Medicine -> bool {
    (m: Medicine) => Matches(q, m)
  }

  function SortFieldOfQuery(q: ListQuery): SortField {
    SortFieldOf(q.sortBy.GetOr("name"))
  }

  /** Descending only for the exact string 'desc'. */
  predicate Descending(q: ListQuery) {
    q.sortOrder == Some("desc")
  }

  /** The whole filtered set, in the requested order. */
  function Selected(ms: seq<Medicine>, q: ListQuery): (r: seq<Medicine>)
    ensures forall m :: m in r <==> m in ms && Matches(q, m)
    ensures |r| == Collections.Count(ms, MatchesQuery(q))
    ensures Sorting.SortedBy(r, SortLe(SortFieldOfQuery(q), Descending(q)))
  {
    var matching := Collections.Filter(ms, MatchesQuery(q));
    var r := SortBy(matching, SortFieldOfQuery(q), Descending(q));
    MedicineModel.FilterMembers(ms, MatchesQuery(q));
    assert forall m :: m in r <==> m in matching by {
      forall m ensures m in r <==> m in matching {
        assert m in r <==> m in multiset(r);
      }
    }
    assert |r| == |multiset(r)| == |multiset(matching)| == |matching|;
    r
  }

  /** The `data` of a successful listing. `pages` is None where
      `Math.ceil(total / limit)` is not a number JSON can carry (limit 0). */
  datatype Listing = Listing(medicines: seq<Medicine>, page: int, limit: int, total: nat, pages: Option<int>)

  /** One page of `all`: the slice that starts at `(page - 1) * limit`,
      with the `pagination` numbers of the response. */
  function PageOf(all: seq<Medicine>, page: int, limit: int): (l: Listing)
    requires (page - 1) * limit >= 0
    ensures l.page == page && l.limit == limit && l.total == |all|
    ensures forall i :: 0 <= i < |l.medicines| ==>
      (page - 1) * limit + i < |all| && l.medicines[i] == all[(page - 1) * limit + i]
    ensures limit != 0 ==> |l.medicines| <= Abs(limit) && l.pages == Some(CeilDiv(|all|, limit))
    ensures limit == 0 ==> l.pages.None? && l.medicines == all
  {
    var shown := Slice(all, (page - 1) * limit, limit);
    assert limit == 0 ==> shown == all;
    Listing(shown, page, limit, |all|, if limit == 0 then None else Some(CeilDiv(|all|, limit)))
  }

  /** `getMedicines`: page and limit are read with `parseInt` as they come
      (the route does not validate them). A page or limit that is NaN, or a
      negative skip, makes the query fail with 500. Otherwise the response
      is the page of the filtered, sorted set that starts at
      `(page - 1) * limit`. */
  function GetMedicines(ms: seq<Medicine>, q: ListQuery): (r: Result<Listing, int>)
    ensures r.Err? <==>
      || NumberOr(q.page, 1).None? || NumberOr(q.limit, 10).None?
      || (NumberOr(q.page, 1).value - 1) * NumberOr(q.limit, 10).value < 0
    ensures r.Err? ==> r.error == ServerError500
    ensures r.Ok? ==> r.value == PageOf(Selected(ms, q), NumberOr(q.page, 1).value, NumberOr(q.limit, 10).value)
  {
    var page := NumberOr(q.page, 1);
    var limit := NumberOr(q.limit, 10);
    if page.None? || limit.None? || (page.value - 1) * limit.value < 0 then Err(ServerError500)
    else Ok(PageOf(Selected(ms, q), page.value, limit.value))
  }

  /** A page of an ordered sequence is ordered. */
  lemma PageSorted(all: seq<Medicine>, page: int, limit: int, le: (Medicine, Medicine) -> bool)
    requires (page - 1) * limit >= 0
    requires Sorting.SortedBy(all, le)
    ensures Sorting.SortedBy(PageOf(all, page, limit).medicines, le)
  {
    var skip := (page - 1) * limit;
    assert PageOf(all, page, limit).medicines == Slice(all, skip, limit);
    SliceSorted(all, skip, limit, le);
  }

  /** A listing's page comes out in the order the query asked for. */
  lemma ListingSorted(ms: seq<Medicine>, q: ListQuery)
    requires GetMedicines(ms, q).Ok?
    ensures Sorting.SortedBy(GetMedicines(ms, q).value.medicines, SortLe(SortFieldOfQuery(q), Descending(q)))
  {
    PageSorted(Selected(ms, q), NumberOr(q.page, 1).value, NumberOr(q.limit, 10).value,
      SortLe(SortFieldOfQuery(q), Descending(q)));
  }

  /** Every medicine a listing returns is in the collection, active, and
      passes each filter that was given. */
  lemma ListedMatch(ms: seq<Medicine>, q: ListQuery, m: Medicine)
    requires GetMedicines(ms, q).Ok? && m in GetMedicines(ms, q).value.medicines
    ensures m in ms && Matches(q, m) && m.isActive
    ensures q.prescriptionRequired.Some? ==> (m.prescriptionRequired <==> q.prescriptionRequired.value == "true")
    ensures q.minPrice.Some? && q.maxPrice.Some? ==> q.minPrice.value <= m.perUnitPrice <= q.maxPrice.value
  {
    var shown := GetMedicines(ms, q).value.medicines;
    var i :| 0 <= i < |shown| && shown[i] == m;
  }

  /** With the defaults (page 1, limit 10) the listing is the first ten of
      the filtered set, and `pages` is how many pages of ten it fills. */
  lemma DefaultListing(ms: seq<Medicine>, q: ListQuery)
    requires q.page.None? && q.limit.None?
    ensures GetMedicines(ms, q).Ok?
    ensures var l := GetMedicines(ms, q).value;
      && |l.medicines| == (if l.total < 10 then l.total else 10)
      && l.pages.Some? && (l.pages.value - 1) * 10 < l.total <= l.pages.value * 10
  {
  }

  /* ---------------- the other listings ---------------- */

  /** `getFeaturedMedicines`: active and featured, newest first, at most
      `parseInt(limit)` of them (10 by default); a NaN limit fails. */
  function GetFeatured(ms: seq<Medicine>, limit: Option<string>): (r: Result<seq<Medicine>, int>)
    ensures r.Err? <==> NumberOr(limit, 10).None?
    ensures r.Err? ==> r.error == ServerError500
    ensures r.Ok? ==> forall m :: m in r.value ==> m in ms && m.isActive && m.isFeatured
    ensures r.Ok? ==> Sorting.SortedBy(r.value, SortLe(ByCreatedAt, true))
    ensures r.Ok? && NumberOr(limit, 10).value != 0 ==> |r.value| <= Abs(NumberOr(limit, 10).value)
    ensures r.Ok? ==>
      |r.value| == if |MedicineModel.FeaturedMedicines(ms)| < Abs(NumberOr(limit, 10).value) || NumberOr(limit, 10).value == 0
                   then |MedicineModel.FeaturedMedicines(ms)| else Abs(NumberOr(limit, 10).value)
    ensures r.Ok? ==> multiset(r.value) <= multiset(MedicineModel.FeaturedMedicines(ms))
    ensures r.Ok? ==> forall m, x :: m in MedicineModel.FeaturedMedicines(ms) && m !in r.value && x in r.value ==>
      m.createdAt <= x.createdAt
  {
    var n := NumberOr(limit, 10);
    if n.None? then Err(ServerError500)
    else Ok(NewestFeatured(ms, n.value))
  }

  /** The active featured medicines newest first, cut to `n` as `limit(n)`
      cuts: 0 keeps them all and a negative `n` counts as `-n`. */
  function NewestFeatured(ms: seq<Medicine>, n: int): (r: seq<Medicine>)
    ensures forall m :: m in r ==> m in ms && m.isActive && m.isFeatured
    ensures Sorting.SortedBy(r, SortLe(ByCreatedAt, true))
    ensures |r| == if |MedicineModel.FeaturedMedicines(ms)| < Abs(n) || n == 0
                   then |MedicineModel.FeaturedMedicines(ms)| else Abs(n)
    ensures multiset(r) <= multiset(MedicineModel.FeaturedMedicines(ms))
    ensures forall m, x :: m in MedicineModel.FeaturedMedicines(ms) && m !in r && x in r ==>
      m.createdAt <= x.createdAt
  {
    FeaturedSliceShape(ms, n);
    FeaturedSliceNewest(ms, n);
    Slice(SortBy(MedicineModel.FeaturedMedicines(ms), ByCreatedAt, true), 0, n)
  }

  /** The cut is of active featured medicines, newest first, and as long as
      `limit(n)` allows. */
  lemma FeaturedSliceShape(ms: seq<Medicine>, n: int)
    ensures var r := Slice(SortBy(MedicineModel.FeaturedMedicines(ms), ByCreatedAt, true), 0, n);
      && (forall m :: m in r ==> m in ms && m.isActive && m.isFeatured)
      && Sorting.SortedBy(r, SortLe(ByCreatedAt, true))
      && |r| == if |MedicineModel.FeaturedMedicines(ms)| < Abs(n) || n == 0
                then |MedicineModel.FeaturedMedicines(ms)| else Abs(n)
  {
    var featured := MedicineModel.FeaturedMedicines(ms);
    var sorted := SortBy(featured, ByCreatedAt, true);
    assert forall m :: m in sorted ==> m in featured by {
      forall m | m in sorted ensures m in featured {
        assert m in multiset(sorted);
      }
    }
    assert |sorted| == |multiset(sorted)| == |featured|;
    SliceSorted(sorted, 0, n, SortLe(ByCreatedAt, true));
  }

  /** The cut is a prefix of the newest-first order: no medicine repeats
      more often than stored, and none left out is newer than one kept. */
  lemma FeaturedSliceNewest(ms: seq<Medicine>, n: int)
    ensures var r := Slice(SortBy(MedicineModel.FeaturedMedicines(ms), ByCreatedAt, true), 0, n);
      && multiset(r) <= multiset(MedicineModel.FeaturedMedicines(ms))
      && forall m, x :: m in MedicineModel.FeaturedMedicines(ms) && m !in r && x in r ==>
           m.createdAt <= x.createdAt
  {
    var featured := MedicineModel.FeaturedMedicines(ms);
    var sorted := SortBy(featured, ByCreatedAt, true);
    var shown := Slice(sorted, 0, n);
    assert shown == sorted[..|shown|];
    NewestPrefix(featured, sorted, |shown|);
  }

  /** In a newest-first sequence nothing later is newer than anything
      earlier. */
  lemma {:induction false} NewestFirst(s: seq<Medicine>, i: int, j: int)
    requires Sorting.SortedBy(s, SortLe(ByCreatedAt, true))
    requires 0 <= i <= j < |s|
    ensures s[j].createdAt <= s[i].createdAt
    decreases j - i
  {
    if i < j {
      NewestFirst(s, i + 1, j);
      assert SortLe(ByCreatedAt, true)(s[i], s[i + 1]);
    }
  }

  /** The first `k` of `all` sorted newest first are `k` of its medicines,
      each taken at most as often as it occurs, and no medicine left out is
      newer than one kept. */
  lemma NewestPrefix(all: seq<Medicine>, sorted: seq<Medicine>, k: nat)
    requires multiset(sorted) == multiset(all) && k <= |sorted|
    requires Sorting.SortedBy(sorted, SortLe(ByCreatedAt, true))
    ensures multiset(sorted[..k]) <= multiset(all)
    ensures forall m, x :: m in all && m !in sorted[..k] && x in sorted[..k] ==> m.createdAt <= x.createdAt
  {
    assert sorted == sorted[..k] + sorted[k..];
    forall m, x | m in all && m !in sorted[..k] && x in sorted[..k] ensures m.createdAt <= x.createdAt {
      assert m in multiset(all);
      var j :| 0 <= j < |sorted| && sorted[j] == m;
      var i :| 0 <= i < k && sorted[..k][i] == x;
      NewestFirst(sorted, i, j);
    }
  }

  /** The query `getMedicinesByCategory` runs: the request's paging and
      sort, with the category as the only filter. */
  function CategoryQuery(q: ListQuery, categoryId: Id): ListQuery {
    ListQuery(q.page, q.limit, None, Some(categoryId), None, None, None, None, q.sortBy, q.sortOrder)
  }

  /** `getMedicinesByCategory`: 404 when no category has the id (an
      inactive category is still found); otherwise the `getMedicines`
      pipeline with the category as the only filter, so a NaN page or
      limit or a negative skip is a 500. */
  function GetByCategory(ms: seq<Medicine>, cs: seq<CatalogStore.Category>, categoryId: Id, q: ListQuery): (r: Result<Listing, int>)
    ensures CatalogStore.IndexOf(cs, CatalogStore.CategoryId, categoryId).None? <==> r == Err(NotFound404)
    ensures CatalogStore.IndexOf(cs, CatalogStore.CategoryId, categoryId).Some? ==>
      r == GetMedicines(ms, CategoryQuery(q, categoryId))
    ensures r.Ok? ==> forall m :: m in r.value.medicines ==> m in ms && m.isActive && m.category == categoryId
  {
    if CatalogStore.IndexOf(cs, CatalogStore.CategoryId, categoryId).None? then Err(NotFound404)
    else
      var cq := CategoryQuery(q, categoryId);
      var r := GetMedicines(ms, cq);
      assert r.Err? ==> r.error == ServerError500;
      if r.Ok? then
        assert forall m :: m in r.value.medicines ==> m in ms && m.isActive && m.category == categoryId by {
          forall m | m in r.value.medicines ensures m in ms && m.isActive && m.category == categoryId {
            ListedMatch(ms, cq, m);
          }
        }
        r
      else r
  }

  /** The category listing draws on every active medicine of the category
      and on nothing else: its `total` is the count `updateMedicineCount`
      stores for the category. */
  lemma CategoryListingComplete(ms: seq<Medicine>, cs: seq<CatalogStore.Category>, categoryId: Id, q: ListQuery)
    requires GetByCategory(ms, cs, categoryId, q).Ok?
    ensures forall m :: m in Selected(ms, CategoryQuery(q, categoryId)) <==> m in ms && m.isActive && m.category == categoryId
    ensures GetByCategory(ms, cs, categoryId, q).value.total == CatalogStore.ActiveCount(ms, categoryId)
  {
    var cq := CategoryQuery(q, categoryId);
    Collections.CountMonotone(ms, MatchesQuery(cq), CatalogStore.ActiveIn(categoryId));
    Collections.CountMonotone(ms, CatalogStore.ActiveIn(categoryId), MatchesQuery(cq));
  }

  /** The response of `getLowStockMedicines`; `threshold` is None when it
      is NaN, which no stock is at or below. */
  datatype LowStockList = LowStockList(medicines: seq<Medicine>, threshold: Option<int>)

  /** `getLowStockMedicines`: active medicines with stock at most the
      threshold (10 by default), lowest stock first. */
  function GetLowStock(ms: seq<Medicine>, threshold: Option<string>): (r: LowStockList)
    ensures r.threshold == NumberOr(threshold, 10)
    ensures forall m :: m in r.medicines <==>
      m in ms && m.isActive && r.threshold.Some? && m.stock <= r.threshold.value
    ensures Sorting.SortedBy(r.medicines, SortLe(ByStock, false))
  {
    var t := NumberOr(threshold, 10);
    if t.None? then LowStockList([], t)
    else
      var low := MedicineModel.LowStockMedicines(ms, t);
      var sorted := SortBy(low, ByStock, false);
      assert forall m :: m in sorted <==> m in low by {
        forall m ensures m in sorted <==> m in low {
          assert m in sorted <==> m in multiset(sorted);
        }
      }
      LowStockList(sorted, t)
  }

  /** The endpoint lists the same medicines as the model's static
      `getLowStockMedicines`, only ordered by stock. */
  lemma LowStockIsModelQuery(ms: seq<Medicine>, t: int)
    ensures multiset(GetLowStock(ms, Some(Strings.IntToString(t))).medicines)
         == multiset(MedicineModel.LowStockMedicines(ms, Some(t)))
  {
    Strings.ParseIntOfIntToString(t);
  }

  /** A medicine that is not active is in no listing. */
  lemma InactiveNotListed(ms: seq<Medicine>, m: Medicine, q: ListQuery, limit: Option<string>, threshold: Option<string>)
    requires !m.isActive
    ensures GetMedicines(ms, q).Ok? ==> m !in GetMedicines(ms, q).value.medicines
    ensures GetFeatured(ms, limit).Ok? ==> m !in GetFeatured(ms, limit).value
    ensures m !in GetLowStock(ms, threshold).medicines
  {
    if GetMedicines(ms, q).Ok? && m in GetMedicines(ms, q).value.medicines {
      ListedMatch(ms, q, m);
    }
  }

  /* ---------------- writes ---------------- */

  /** `createMedicine`. `validated` is the outcome of the route's
      `validateMedicine` rules. The body is saved with the caller as
      `createdBy` once its category is found; a save the schema refuses is a
      500. */
  method CreateMedicine(db: CatalogStore.Database, validated: bool, body: MedicineModel.Body, user: Id, now: int)
    returns (status: int, created: Option<Medicine>)
    requires db.Valid()
    modifies db
    ensures db.Valid()
    ensures !validated ==> status == BadRequest400
    ensures validated && CatalogStore.IndexOf(old(db.categories), CatalogStore.CategoryId, body.category).None? ==>
      status == BadRequest400
    ensures status != Created201 ==> created.None? && db.medicines == old(db.medicines) && db.categories == old(db.categories)
    ensures validated && CatalogStore.IndexOf(old(db.categories), CatalogStore.CategoryId, body.category).Some? ==>
      var v := MedicineModel.Validate(MedicineModel.FromBody(body, user));
      && (v.Err? ==> status == ServerError500)
      && (v.Ok? ==>
           var m := v.value.(id := CatalogStore.NextId(old(db.medicines), CatalogStore.MedicineId), createdAt := now, updatedAt := now);
           && status == Created201 && created == Some(m)
           && db.medicines == old(db.medicines) + [m]
           && db.categories == CatalogStore.IncCount(old(db.categories), body.category, 1, now))
  {
    if !validated {
      return BadRequest400, None;
    }
    var doc := MedicineModel.FromBody(body, user);
    if CatalogStore.IndexOf(db.categories, CatalogStore.CategoryId, doc.category).None? {
      return BadRequest400, None;
    }
    var r := db.SaveNewMedicine(doc, now);
    if r.Err? {
      return ServerError500, None;
    }
    return Created201, Some(r.value);
  }

  /** `updateMedicine`: the body with the caller as `updatedBy`, a category
      check when the body names a category, then `findByIdAndUpdate` with
      the update validators, whose refusal is a 500. */
  method UpdateMedicine(db: CatalogStore.Database, validated: bool, id: Id, body: MedicineModel.Patch, user: Id, now: int)
    returns (status: int, updated: Option<Medicine>)
    requires db.Valid()
    modifies db
    ensures db.Valid()
    ensures db.categories == old(db.categories)
    ensures !validated ==> status == BadRequest400
    ensures validated && body.category.Some?
            && CatalogStore.IndexOf(old(db.categories), CatalogStore.CategoryId, body.category.value).None? ==>
      status == BadRequest400
    ensures status != Ok200 ==> updated.None? && db.medicines == old(db.medicines)
    ensures validated
            && (body.category.Some? ==> CatalogStore.IndexOf(old(db.categories), CatalogStore.CategoryId, body.category.value).Some?) ==>
      var p := body.(updatedBy := Some(user));
      && (!MedicineModel.PatchOk(p) ==> status == ServerError500)
      && (MedicineModel.PatchOk(p) && CatalogStore.IndexOf(old(db.medicines), CatalogStore.MedicineId, id).None? ==>
            status == NotFound404)
      && (MedicineModel.PatchOk(p) && CatalogStore.IndexOf(old(db.medicines), CatalogStore.MedicineId, id).Some? ==>
            var i := CatalogStore.IndexOf(old(db.medicines), CatalogStore.MedicineId, id).value;
            && status == Ok200
            && updated == Some(MedicineModel.ApplyPatch(old(db.medicines)[i], p, now))
            && db.medicines == old(db.medicines)[i := updated.value])
  {
    if !validated {
      return BadRequest400, None;
    }
    var p := body.(updatedBy := Some(user));
    if p.category.Some? && CatalogStore.IndexOf(db.categories, CatalogStore.CategoryId, p.category.value).None? {
      return BadRequest400, None;
    }
    var r := db.UpdateMedicineById(id, p, now);
    match r
    case Rejected(_) => return ServerError500, None;
    case NotFound => return NotFound404, None;
    case Updated(m) => return Ok200, Some(m);
  }

  /** The update of a soft delete. */
  function SoftDelete(user: Id): MedicineModel.Patch {
    MedicineModel.EditorOnly(user).(isActive := Some(false))
  }

  /** `deleteMedicine`: a soft delete. The record stays where it is, marked
      inactive (so no listing shows it) and stamped with the editor; 404
      when no medicine has the id. */
  method DeleteMedicine(db: CatalogStore.Database, id: Id, user: Id, now: int) returns (status: int)
    requires db.Valid()
    modifies db
    ensures db.Valid()
    ensures db.categories == old(db.categories)
    ensures CatalogStore.IndexOf(old(db.medicines), CatalogStore.MedicineId, id).None? ==>
      status == NotFound404 && db.medicines == old(db.medicines)
    ensures CatalogStore.IndexOf(old(db.medicines), CatalogStore.MedicineId, id).Some? ==>
      var i := CatalogStore.IndexOf(old(db.medicines), CatalogStore.MedicineId, id).value;
      && status == Ok200
      && |db.medicines| == |old(db.medicines)|
      && db.medicines == old(db.medicines)[i := old(db.medicines)[i].(isActive := false, updatedBy := Some(user), updatedAt := now)]
      && !db.medicines[i].isActive
  {
    var r := db.UpdateMedicineById(id, SoftDelete(user), now);
    status := if r.NotFound? then NotFound404 else Ok200;
  }

  /** The `stock` of an `updateStock` body: absent, a number (or a string
      Mongoose casts to one), or a value no cast turns into a number. */
  datatype StockField = NoStock | StockValue(value: int) | NotNumeric

  /** The body reaches `findByIdAndUpdate`: no stock, or one that is not
      negative. */
  predicate StockWritable(stock: StockField) {
    stock.NoStock? || (stock.StockValue? && stock.value >= 0)
  }

  /** The update `updateStock` sends. An absent `stock` is an `undefined`
      key, which Mongoose drops from the update, so only the editor is
      written. */
  function StockPatch(stock: StockField, user: Id): MedicineModel.Patch {
    if stock.StockValue? then MedicineModel.EditorOnly(user).(stock := Some(stock.value))
    else MedicineModel.EditorOnly(user)
  }

  /** `updateStock`. The route's `validateStockUpdate` result is never read
      by the handler, so only its own check decides: a negative stock is
      refused with 400 before anything is looked up. A value that cannot be
      cast to a number fails the update with 500, an unknown id is 404, and
      otherwise the stock is set to exactly the value sent (left as it was
      when the body has none) and the editor recorded. */
  method UpdateStock(db: CatalogStore.Database, id: Id, stock: StockField, user: Id, now: int)
    returns (status: int, updated: Option<Medicine>)
    requires db.Valid()
    modifies db
    ensures db.Valid()
    ensures db.categories == old(db.categories)
    ensures stock.StockValue? && stock.value < 0 ==> status == BadRequest400
    ensures stock.NotNumeric? ==> status == ServerError500
    ensures StockWritable(stock) && CatalogStore.IndexOf(old(db.medicines), CatalogStore.MedicineId, id).None? ==>
      status == NotFound404
    ensures status != Ok200 ==> updated.None? && db.medicines == old(db.medicines)
    ensures StockWritable(stock) && CatalogStore.IndexOf(old(db.medicines), CatalogStore.MedicineId, id).Some? ==>
      var i := CatalogStore.IndexOf(old(db.medicines), CatalogStore.MedicineId, id).value;
      var m := old(db.medicines)[i];
      && status == Ok200
      && updated == Some(m.(stock := if stock.StockValue? then stock.value else m.stock,
                            updatedBy := Some(user), updatedAt := now))
      && db.medicines == old(db.medicines)[i := updated.value]
  {
    if stock.StockValue? && stock.value < 0 {
      return BadRequest400, None;
    }
    if stock.NotNumeric? {
      return ServerError500, None;
    }
    var r := db.UpdateMedicineById(id, StockPatch(stock, user), now);
    if r.NotFound? {
      return NotFound404, None;
    }
    return Ok200, Some(r.doc);
  }
}
