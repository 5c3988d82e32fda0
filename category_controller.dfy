/** The category endpoints (server/src/controllers/categoryController.js).
    The listing and the statistics are queries over the collections; the
    writes are methods on the database that return the HTTP status the
    handler sends. */
module CategoryController {
  import opened Wrappers
  import Collections
  import Sorting
  import opened Documents
  import CategoryModel
  import MedicineModel
  import CatalogStore
  import opened Http

  type Category = CategoryModel.Category
  type Medicine = MedicineModel.Medicine

  /* ---------------- listing ---------------- */

  /** The filter `getCategories` builds: `{ isActive: true }` only when the
      `active` query parameter is the string "true". The destructuring
      default is the boolean `true`, which is not that string, so an absent
      parameter lists every category. */
  predicate ActiveOnly(active: Option<string>) {
    active == Some("true")
  }

  /** `getCategories`: the categories the filter keeps, ordered by
      `sortOrder` and then by name. */
  function GetCategories(cs: seq<Category>, active: Option<string>): (r: seq<Category>)
    ensures multiset(r) == multiset(if ActiveOnly(active) then Collections.Filter(cs, CategoryModel.IsActive) else cs)
    ensures forall c :: c in r <==> c in cs && (ActiveOnly(active) ==> c.isActive)
    ensures Sorting.SortedBy(r, CategoryModel.SortOrderLe)
  {
    if ActiveOnly(active) then CategoryModel.ActiveCategories(cs)
    else
      var r := CategoryModel.Ordered(cs);
      assert forall c :: c in r <==> c in multiset(r);
      r
  }

  /** Without `?active=true` the inactive (soft-deleted) categories are
      listed as well. */
  lemma AbsentActiveListsInactive(cs: seq<Category>, c: Category)
    requires c in cs && !c.isActive
    ensures c in GetCategories(cs, None)
    ensures c !in GetCategories(cs, Some("true"))
  {
  }

  /* ---------------- statistics ---------------- */

  /** The four counts of `getCategoryStats`. */
  datatype Stats = Stats(totalMedicines: nat, lowStockMedicines: nat, outOfStockMedicines: nat, featuredMedicines: nat)

  /** `{ category, isActive: true, stock: { $lte: 10 } }`. */
  function LowStockIn(catId: Id): Medicine -> bool {
    (m: Medicine) => m.isActive && m.category == catId && m.stock <= 10
  }

  /** `{ category, isActive: true, stock: 0 }`. */
  function OutOfStockIn(catId: Id): Medicine -> bool {
    (m: Medicine) => m.isActive && m.category == catId && m.stock == 0
  }

  /** `{ category, isActive: true, isFeatured: true }`. */
  function FeaturedIn(catId: Id): Medicine -> bool {
    (m: Medicine) => m.isActive && m.category == catId && m.isFeatured
  }

  /** The counts over the active medicines of one category. Each query
      narrows the total's, so the counts nest. */
  function StatsOf(ms: seq<Medicine>, catId: Id): (s: Stats)
    ensures s.totalMedicines == CatalogStore.ActiveCount(ms, catId)
    ensures s.lowStockMedicines == Collections.Count(ms, LowStockIn(catId))
    ensures s.outOfStockMedicines == Collections.Count(ms, OutOfStockIn(catId))
    ensures s.featuredMedicines == Collections.Count(ms, FeaturedIn(catId))
    ensures s.outOfStockMedicines <= s.lowStockMedicines <= s.totalMedicines
    ensures s.featuredMedicines <= s.totalMedicines
  {
    Collections.CountMonotone(ms, OutOfStockIn(catId), LowStockIn(catId));
    Collections.CountMonotone(ms, LowStockIn(catId), CatalogStore.ActiveIn(catId));
    Collections.CountMonotone(ms, FeaturedIn(catId), CatalogStore.ActiveIn(catId));
    Stats(
      CatalogStore.ActiveCount(ms, catId),
      Collections.Count(ms, LowStockIn(catId)),
      Collections.Count(ms, OutOfStockIn(catId)),
      Collections.Count(ms, FeaturedIn(catId)))
  }

  /** `getCategoryStats`: 404 when no category has the id (inactive ones
      included, as `findById` does not filter); otherwise the category and
      the counts for its id. */
  function GetCategoryStats(cs: seq<Category>, ms: seq<Medicine>, id: Id): (r: Result<(Category, Stats), int>)
    ensures r.Err? <==> CatalogStore.IndexOf(cs, CatalogStore.CategoryId, id).None?
    ensures r.Err? ==> r.error == NotFound404
    ensures r.Ok? ==> r.value.0 in cs && r.value.0.id == id && r.value.1 == StatsOf(ms, id)
  {
    match CatalogStore.IndexOf(cs, CatalogStore.CategoryId, id)
    case None => Err(NotFound404)
    case Some(i) => Ok((cs[i], StatsOf(ms, id)))
  }

  /** The statistics' total is the count `updateMedicineCount` stores. */
  lemma StatsTotalIsMedicineCount(ms: seq<Medicine>, c: Category)
    ensures StatsOf(ms, c.id).totalMedicines == CatalogStore.ActiveCount(ms, c.id)
  {
  }

  /* ---------------- writes ---------------- */

  /** `createCategory`. `validated` is the outcome of the route's rules.
      The body is saved with the caller as `createdBy`: a schema refusal is
      a 500, a name the unique index already holds is a 409. */
  method CreateCategory(db: CatalogStore.Database, validated: bool, body: CategoryModel.Body, user: Id, now: int)
    returns (status: int, created: Option<Category>)
    requires db.Valid()
    modifies db
    ensures db.Valid()
    ensures db.medicines == old(db.medicines)
    ensures !validated ==> status == BadRequest400
    ensures status != Created201 ==> created.None? && db.categories == old(db.categories)
    ensures validated ==>
      var v := CategoryModel.Validate(CategoryModel.FromBody(body, user));
      && (v.Err? ==> status == ServerError500)
      && (v.Ok? ==>
           var c := v.value.(id := CatalogStore.NextId(old(db.categories), CatalogStore.CategoryId),
                             medicineCount := 0, createdAt := now, updatedAt := now);
           && (CatalogStore.IndexOf(old(db.categories), CatalogStore.CategoryName, c.name).Some? ==>
                 status == Conflict409)
           && (CatalogStore.IndexOf(old(db.categories), CatalogStore.CategoryName, c.name).None? ==>
                 status == Created201 && created == Some(c) && db.categories == old(db.categories) + [c]))
  {
    if !validated {
      return BadRequest400, None;
    }
    var r := db.SaveNewCategory(CategoryModel.FromBody(body, user), now);
    match r
    case Err(ValidationError) => return ServerError500, None;
    case Err(DuplicateKey) => return Conflict409, None;
    case Ok(c) => return Created201, Some(c);
  }

  /** `updateCategory`: `findByIdAndUpdate` with the update validators. A
      validator's refusal is a 500, a name another category holds a 409, an
      unknown id a 404. */
  method UpdateCategory(db: CatalogStore.Database, validated: bool, id: Id, body: CategoryModel.Patch, now: int)
    returns (status: int, updated: Option<Category>)
    requires db.Valid()
    modifies db
    ensures db.Valid()
    ensures db.medicines == old(db.medicines)
    ensures !validated ==> status == BadRequest400
    ensures status != Ok200 ==> updated.None? && db.categories == old(db.categories)
    ensures validated && !CategoryModel.PatchOk(body) ==> status == ServerError500
    ensures validated && CategoryModel.PatchOk(body)
            && CatalogStore.IndexOf(old(db.categories), CatalogStore.CategoryId, id).None? ==>
      status == NotFound404
    ensures validated && CategoryModel.PatchOk(body)
            && CatalogStore.IndexOf(old(db.categories), CatalogStore.CategoryId, id).Some? ==>
      var i := CatalogStore.IndexOf(old(db.categories), CatalogStore.CategoryId, id).value;
      var c := CategoryModel.ApplyPatch(old(db.categories)[i], body, now);
      && (CatalogStore.NameTaken(old(db.categories), i, c.name) ==> status == Conflict409)
      && (!CatalogStore.NameTaken(old(db.categories), i, c.name) ==>
            status == Ok200 && updated == Some(c) && db.categories == old(db.categories)[i := c])
  {
    if !validated {
      return BadRequest400, None;
    }
    var r := db.UpdateCategoryById(id, body, now);
    match r
    case Rejected(ValidationError) => return ServerError500, None;
    case Rejected(DuplicateKey) => return Conflict409, None;
    case NotFound => return NotFound404, None;
    case Updated(c) => return Ok200, Some(c);
  }

  /** `deleteCategory`: refused with 400, and nothing changed, while any
      active medicine references the category; otherwise a soft delete
      (`isActive: false`, the record stays), or 404 for an unknown id. */
  method DeleteCategory(db: CatalogStore.Database, id: Id, now: int) returns (status: int)
    requires db.Valid()
    modifies db
    ensures db.Valid()
    ensures db.medicines == old(db.medicines)
    ensures CatalogStore.ActiveCount(old(db.medicines), id) > 0 ==>
      status == BadRequest400 && db.categories == old(db.categories)
    ensures CatalogStore.ActiveCount(old(db.medicines), id) == 0 ==>
      match CatalogStore.IndexOf(old(db.categories), CatalogStore.CategoryId, id)
      case None => status == NotFound404 && db.categories == old(db.categories)
      case Some(i) =>
        && status == Ok200
        && db.categories == old(db.categories)[i := old(db.categories)[i].(isActive := false, updatedAt := now)]
        && !db.categories[i].isActive
  {
    if CatalogStore.ActiveCount(db.medicines, id) > 0 {
      return BadRequest400;
    }
    assert CategoryModel.PatchOk(CategoryModel.Deactivate);
    var k := CatalogStore.IndexOf(db.categories, CatalogStore.CategoryId, id);
    var cs := db.categories;
    if k.Some? {
      // Only `isActive` changes, and the category's own name is unique.
      CategoryModel.DeactivateOnlyDeactivates(cs[k.value], now);
      assert !CatalogStore.NameTaken(cs, k.value, cs[k.value].name) by {
        assert CatalogStore.Unique(cs, CatalogStore.CategoryName);
      }
    }
    var r := db.UpdateCategoryById(id, CategoryModel.Deactivate, now);
    if k.Some? {
      assert r.Updated?;
    }
    status := if r.NotFound? then NotFound404 else Ok200;
  }

  /** `updateMedicineCount`: 404 for an unknown id; otherwise the category's
      count is recomputed from the active medicines, stored and returned. */
  method UpdateMedicineCount(db: CatalogStore.Database, id: Id, now: int) returns (status: int, count: Option<nat>)
    requires db.Valid()
    modifies db
    ensures db.Valid()
    ensures db.medicines == old(db.medicines)
    ensures match CatalogStore.IndexOf(old(db.categories), CatalogStore.CategoryId, id)
      case None => status == NotFound404 && count.None? && db.categories == old(db.categories)
      case Some(i) =>
        && status == Ok200
        && count == Some(CatalogStore.ActiveCount(db.medicines, id))
        && db.categories == CatalogStore.Recounted(old(db.categories), db.medicines, i, now)
  {
    var k := CatalogStore.IndexOf(db.categories, CatalogStore.CategoryId, id);
    if k.None? {
      return NotFound404, None;
    }
    var n := db.UpdateMedicineCount(k.value, now);
    return Ok200, Some(n);
  }
}
