/** The two collections the server keeps, as one in-memory database, and the
    document-level writes of server/src/models/Medicine.js and
    server/src/models/Category.js: the save and remove hooks that keep a
    category's `medicineCount`, the `updateStock`, `reduceStock` and
    `updateMedicineCount` instance methods, and `findByIdAndUpdate` with
    update validators. A collection is a sequence in natural (insertion)
    order; `now` is the clock reading a write stamps. */
module CatalogStore {
  import opened Wrappers
  import Collections
  import opened Documents
  import MedicineModel
  import CategoryModel

  type Medicine = MedicineModel.Medicine
  type Category = CategoryModel.Category

  function MedicineId(m: Medicine): Id { m.id }
  function CategoryId(c: Category): Id { c.id }
  function CategoryName(c: Category): string { c.name }

  /** No two documents share a key (the `_id` index, a unique index). */
  predicate Unique<T, K(==)>(s: seq<T>, key: T -> K) {
    forall i, j :: 0 <= i < j < |s| ==> key(s[i]) != key(s[j])
  }

  /** Where the document with key `k` is, if anywhere. */
  function IndexOf<T, K(==)>(s: seq<T>, key: T -> K, k: K): (r: Option<nat>)
    ensures r.Some? ==> r.value < |s| && key(s[r.value]) == k
    ensures r.None? <==> forall i :: 0 <= i < |s| ==> key(s[i]) != k
  {
    if s == [] then None
    else if key(s[0]) == k then Some(0)
    else match IndexOf(s[1..], key, k)
      case None => None
      case Some(i) => Some(i + 1)
  }

  /** Under a unique key, the document found is the one holding the key. */
  lemma IndexOfUnique<T, K>(s: seq<T>, key: T -> K, i: nat)
    requires Unique(s, key) && i < |s|
    ensures IndexOf(s, key, key(s[i])) == Some(i)
  {
  }

  /** An id no document has yet. */
  function NextId<T>(s: seq<T>, key: T -> Id): (r: Id)
    ensures forall i :: 0 <= i < |s| ==> key(s[i]) < r
  {
    if s == [] then 0
    else
      var rest := NextId(s[1..], key);
      assert forall i :: 1 <= i < |s| ==> key(s[i]) < rest by {
        forall i | 1 <= i < |s| ensures key(s[i]) < rest {
          assert s[i] == s[1..][i - 1];
        }
      }
      if key(s[0]) < rest then rest else key(s[0]) + 1
  }

  /** Every document satisfies `ok`. */
  predicate AllOk<T>(s: seq<T>, ok: T -> bool) {
    forall i :: 0 <= i < |s| ==> ok(s[i])
  }

  lemma AllOkAppend<T>(s: seq<T>, ok: T -> bool, x: T)
    requires AllOk(s, ok) && ok(x)
    ensures AllOk(s + [x], ok)
  {
  }

  lemma AllOkUpdate<T>(s: seq<T>, ok: T -> bool, i: nat, x: T)
    requires AllOk(s, ok) && i < |s| && ok(x)
    ensures AllOk(s[i := x], ok)
  {
  }

  lemma AllOkRemove<T>(s: seq<T>, ok: T -> bool, i: nat)
    requires AllOk(s, ok) && i < |s|
    ensures AllOk(s[..i] + s[i + 1..], ok)
  {
    var r := s[..i] + s[i + 1..];
    forall a | 0 <= a < |r| ensures ok(r[a]) {
      assert r[a] == s[if a < i then a else a + 1];
    }
  }

  lemma UniqueAppend<T, K>(s: seq<T>, key: T -> K, x: T)
    requires Unique(s, key)
    requires forall i :: 0 <= i < |s| ==> key(s[i]) != key(x)
    ensures Unique(s + [x], key)
  {
  }

  lemma UniqueUpdate<T, K>(s: seq<T>, key: T -> K, i: nat, x: T)
    requires Unique(s, key) && i < |s|
    requires forall j :: 0 <= j < |s| && j != i ==> key(s[j]) != key(x)
    ensures Unique(s[i := x], key)
  {
  }

  lemma UniqueRemove<T, K>(s: seq<T>, key: T -> K, i: nat)
    requires Unique(s, key) && i < |s|
    ensures Unique(s[..i] + s[i + 1..], key)
  {
    var r := s[..i] + s[i + 1..];
    forall a, b | 0 <= a < b < |r| ensures key(r[a]) != key(r[b]) {
      var a' := if a < i then a else a + 1;
      var b' := if b < i then b else b + 1;
      assert r[a] == s[a'] && r[b] == s[b'];
    }
  }

  /** The medicines counted in a category's `medicineCount`: the active ones
      that reference it. */
  function ActiveIn(catId: Id): Medicine -> bool {
    (m: Medicine) => m.isActive && m.category == catId
  }

  /** `countDocuments({ category, isActive: true })`. */
  function ActiveCount(ms: seq<Medicine>, catId: Id): (n: nat)
    ensures n <= |ms|
  {
    Collections.Count(ms, ActiveIn(catId))
  }

  /** Some category other than the one at `i` is called `name`. */
  predicate NameTaken(cs: seq<Category>, i: nat, name: string) {
    exists j :: 0 <= j < |cs| && j != i && cs[j].name == name
  }

  /** `Category.findByIdAndUpdate(catId, { $inc: { medicineCount: delta } })`:
      no validators, no hooks, and no effect when the category is missing. */
  function IncCount(cs: seq<Category>, catId: Id, delta: int, now: int): (r: seq<Category>)
    ensures |r| == |cs|
    ensures forall i :: 0 <= i < |cs| && cs[i].id == catId ==>
      r[i] == cs[i].(medicineCount := cs[i].medicineCount + delta, updatedAt := now)
    ensures forall i :: 0 <= i < |cs| && cs[i].id != catId ==> r[i] == cs[i]
  {
    seq(|cs|, i requires 0 <= i < |cs| =>
      if cs[i].id == catId then cs[i].(medicineCount := cs[i].medicineCount + delta, updatedAt := now) else cs[i])
  }

  /** The categories after `updateMedicineCount` on the one at `i`: its
      count is the number of active medicines that reference it, and no
      other category changes. A `save()` with nothing modified writes
      nothing, so `updatedAt` moves only when the count does. */
  function Recounted(cs: seq<Category>, ms: seq<Medicine>, i: nat, now: int): (r: seq<Category>)
    requires i < |cs|
    ensures |r| == |cs| && r[i].medicineCount == ActiveCount(ms, cs[i].id)
    ensures r[i].updatedAt == if r[i].medicineCount == cs[i].medicineCount then cs[i].updatedAt else now
    ensures r[i] == cs[i].(medicineCount := r[i].medicineCount, updatedAt := r[i].updatedAt)
    ensures forall j :: 0 <= j < |cs| && j != i ==> r[j] == cs[j]
  {
    var count := ActiveCount(ms, cs[i].id);
    if count == cs[i].medicineCount then cs
    else cs[i := cs[i].(medicineCount := count, updatedAt := now)]
  }

  /** Recounting again, with the medicines unchanged, changes nothing,
      whenever the second recount happens. */
  lemma RecountIdempotent(cs: seq<Category>, ms: seq<Medicine>, i: nat, now: int, later: int)
    requires i < |cs|
    ensures Recounted(Recounted(cs, ms, i, now), ms, i, later) == Recounted(cs, ms, i, now)
  {
  }

  /** A medicine after its stock is set and the document saved. A `save()`
      that modifies nothing writes nothing, so `updatedAt` moves only when
      the stock does. */
  function WithStock(m: Medicine, stock: int, now: int): (r: Medicine)
    ensures r.stock == stock
    ensures r.updatedAt == if stock == m.stock then m.updatedAt else now
    ensures r == m.(stock := stock, updatedAt := r.updatedAt)
  {
    if stock == m.stock then m else m.(stock := stock, updatedAt := now)
  }

  /** Setting the same stock again, at any later time, changes nothing. */
  lemma WithStockIdempotent(m: Medicine, stock: int, now: int, later: int)
    ensures WithStock(WithStock(m, stock, now), stock, later) == WithStock(m, stock, now)
  {
  }

  /** The result of `findByIdAndUpdate`: the updated document, no document
      with that id (`null`), or a rejected update. */
  datatype Outcome<T> = Updated(doc: T) | NotFound | Rejected(error: SaveError)

  datatype StockError = InsufficientStock

  class Database {
    var medicines: seq<Medicine>
    var categories: seq<Category>

    /** Ids are unique, category names are unique (the `unique` index), and
        every stored document satisfies its schema. */
    ghost predicate Valid()
      reads this
    {
      && Unique(medicines, MedicineId)
      && Unique(categories, CategoryId)
      && Unique(categories, CategoryName)
      && AllOk(medicines, MedicineModel.Schema)
      && AllOk(categories, CategoryModel.Schema)
    }

    constructor ()
      ensures Valid()
      ensures medicines == [] && categories == []
    {
      medicines := [];
      categories := [];
    }

    /** The `$inc` the Medicine hooks send to a category. */
    method IncMedicineCount(catId: Id, delta: int, now: int)
      requires Valid()
      modifies this
      ensures Valid()
      ensures medicines == old(medicines)
      ensures categories == IncCount(old(categories), catId, delta, now)
    {
      var cs := IncCount(categories, catId, delta, now);
      assert forall i :: 0 <= i < |cs| ==> cs[i].id == categories[i].id && cs[i].name == categories[i].name;
      forall i | 0 <= i < |cs| ensures CategoryModel.Schema(cs[i]) {
        CategoryModel.SchemaOfCount(categories[i], categories[i].medicineCount + delta, now);
      }
      categories := cs;
    }

    /** `new Medicine(doc).save()`: setters and validators first, then the
        pre-save hook adds one to the medicine's category, then the document
        is inserted with a fresh id and both timestamps. */
    method SaveNewMedicine(doc: Medicine, now: int) returns (r: Result<Medicine, SaveError>)
      requires Valid()
      modifies this
      ensures Valid()
      ensures MedicineModel.Validate(doc).Err? ==>
        r == Err(ValidationError) && medicines == old(medicines) && categories == old(categories)
      ensures MedicineModel.Validate(doc).Ok? ==>
        var m := MedicineModel.Validate(doc).value.(id := NextId(old(medicines), MedicineId), createdAt := now, updatedAt := now);
        && r == Ok(m)
        && medicines == old(medicines) + [m]
        && categories == IncCount(old(categories), m.category, 1, now)
    {
      var v := MedicineModel.Validate(doc);
      if v.Err? {
        return Err(v.error);
      }
      var m := v.value.(id := NextId(medicines, MedicineId), createdAt := now, updatedAt := now);
      MedicineModel.SchemaOfStamped(v.value, m.id, now, now);
      InsertMedicine(m, now);
      return Ok(m);
    }

    /** The write behind a medicine save: the pre-save hook's `$inc` on the
        category, then the new document at the end of the collection. */
    method InsertMedicine(m: Medicine, now: int)
      requires Valid() && MedicineModel.Schema(m)
      requires forall i :: 0 <= i < |medicines| ==> medicines[i].id < m.id
      modifies this
      ensures Valid()
      ensures medicines == old(medicines) + [m]
      ensures categories == IncCount(old(categories), m.category, 1, now)
    {
      IncMedicineCount(m.category, 1, now);
      AllOkAppend(medicines, MedicineModel.Schema, m);
      UniqueAppend(medicines, MedicineId, m);
      medicines := medicines + [m];
    }

    /** `medicine.remove()`: the pre-remove hook takes one off the medicine's
        category, then the document is deleted. */
    method RemoveMedicine(id: Id, now: int) returns (found: bool)
      requires Valid()
      modifies this
      ensures Valid()
      ensures found <==> IndexOf(old(medicines), MedicineId, id).Some?
      ensures !found ==> medicines == old(medicines) && categories == old(categories)
      ensures found ==>
        var i := IndexOf(old(medicines), MedicineId, id).value;
        && medicines == old(medicines)[..i] + old(medicines)[i + 1..]
        && categories == IncCount(old(categories), old(medicines)[i].category, -1, now)
    {
      var i := IndexOf(medicines, MedicineId, id);
      if i.None? {
        return false;
      }
      var k := i.value;
      IncMedicineCount(medicines[k].category, -1, now);
      UniqueRemove(medicines, MedicineId, k);
      AllOkRemove(medicines, MedicineModel.Schema, k);
      medicines := medicines[..k] + medicines[k + 1..];
      return true;
    }

    /** `medicine.updateStock(newStock)`: set the stock and save; the schema's
        `min: 0` rejects a negative stock, and an unchanged stock keeps its
        timestamp. */
    method UpdateStock(i: nat, newStock: int, now: int) returns (r: Result<Medicine, SaveError>)
      requires Valid() && i < |medicines|
      modifies this
      ensures Valid()
      ensures categories == old(categories)
      ensures r.Err? <==> newStock < 0
      ensures r.Err? ==> r.error == ValidationError && medicines == old(medicines)
      ensures r.Ok? ==>
        && r.value == WithStock(old(medicines)[i], newStock, now)
        && medicines == old(medicines)[i := r.value]
    {
      if newStock < 0 {
        return Err(ValidationError);
      }
      var m := WithStock(medicines[i], newStock, now);
      MedicineModel.SchemaOfStock(medicines[i], newStock, now);
      ReplaceMedicine(i, m);
      return Ok(m);
    }

    /** `medicine.reduceStock(quantity)`: 'Insufficient stock' when the stock
        is below the quantity, otherwise the stock goes down by exactly that
        much (a quantity of 0 saves nothing). */
    method ReduceStock(i: nat, quantity: int, now: int) returns (r: Result<Medicine, StockError>)
      requires Valid() && i < |medicines|
      modifies this
      ensures Valid()
      ensures categories == old(categories)
      ensures r.Err? <==> old(medicines)[i].stock < quantity
      ensures r.Err? ==> medicines == old(medicines)
      ensures r.Ok? ==>
        && r.value.stock == old(medicines)[i].stock - quantity
        && r.value == WithStock(old(medicines)[i], r.value.stock, now)
        && medicines == old(medicines)[i := r.value]
    {
      if medicines[i].stock < quantity {
        return Err(InsufficientStock);
      }
      var m := WithStock(medicines[i], medicines[i].stock - quantity, now);
      MedicineModel.SchemaOfStock(medicines[i], m.stock, now);
      ReplaceMedicine(i, m);
      return Ok(m);
    }

    /** `Medicine.findByIdAndUpdate(id, patch, { runValidators: true })`: the
        update validators run before the lookup; no save hook runs, so no
        category count changes, not even when the category does. */
    method UpdateMedicineById(id: Id, p: MedicineModel.Patch, now: int) returns (r: Outcome<Medicine>)
      requires Valid()
      modifies this
      ensures Valid()
      ensures categories == old(categories)
      ensures !MedicineModel.PatchOk(p) <==> r.Rejected?
      ensures r.Rejected? ==> r.error == ValidationError
      ensures r.NotFound? <==> MedicineModel.PatchOk(p) && IndexOf(old(medicines), MedicineId, id).None?
      ensures !r.Updated? ==> medicines == old(medicines)
      ensures r.Updated? ==>
        var i := IndexOf(old(medicines), MedicineId, id).value;
        && r.doc == MedicineModel.ApplyPatch(old(medicines)[i], p, now)
        && medicines == old(medicines)[i := r.doc]
    {
      if !MedicineModel.PatchOk(p) {
        return Rejected(ValidationError);
      }
      var i := IndexOf(medicines, MedicineId, id);
      if i.None? {
        return NotFound;
      }
      var m := MedicineModel.ApplyPatch(medicines[i.value], p, now);
      MedicineModel.PatchKeepsSchema(medicines[i.value], p, now);
      ReplaceMedicine(i.value, m);
      return Updated(m);
    }

    /** `new Category(doc).save()`: setters and validators, the pre-save hook
        sets `medicineCount` to 0 whatever was supplied, and the unique index
        refuses a name another category has (duplicate key, code 11000). */
    method SaveNewCategory(doc: Category, now: int) returns (r: Result<Category, SaveError>)
      requires Valid()
      modifies this
      ensures Valid()
      ensures medicines == old(medicines)
      ensures CategoryModel.Validate(doc).Err? ==> r == Err(ValidationError) && categories == old(categories)
      ensures CategoryModel.Validate(doc).Ok? ==>
        var c := CategoryModel.Validate(doc).value.(id := NextId(old(categories), CategoryId),
                   medicineCount := 0, createdAt := now, updatedAt := now);
        && (IndexOf(old(categories), CategoryName, c.name).Some? ==> r == Err(DuplicateKey) && categories == old(categories))
        && (IndexOf(old(categories), CategoryName, c.name).None? ==> r == Ok(c) && categories == old(categories) + [c])
    {
      var v := CategoryModel.Validate(doc);
      if v.Err? {
        return Err(v.error);
      }
      var c := v.value.(id := NextId(categories, CategoryId), medicineCount := 0, createdAt := now, updatedAt := now);
      CategoryModel.SchemaOfStamped(v.value, c.id, 0, now, now);
      r := InsertCategory(c);
    }

    /** The insert behind a category save: the unique index on names, then the
        new document at the end of the collection. */
    method InsertCategory(c: Category) returns (r: Result<Category, SaveError>)
      requires Valid() && CategoryModel.Schema(c)
      requires forall i :: 0 <= i < |categories| ==> categories[i].id < c.id
      modifies this
      ensures Valid()
      ensures medicines == old(medicines)
      ensures IndexOf(old(categories), CategoryName, c.name).Some? ==> r == Err(DuplicateKey) && categories == old(categories)
      ensures IndexOf(old(categories), CategoryName, c.name).None? ==> r == Ok(c) && categories == old(categories) + [c]
    {
      if IndexOf(categories, CategoryName, c.name).Some? {
        return Err(DuplicateKey);
      }
      AllOkAppend(categories, CategoryModel.Schema, c);
      UniqueAppend(categories, CategoryId, c);
      UniqueAppend(categories, CategoryName, c);
      categories := categories + [c];
      return Ok(c);
    }

    /** `Category.findByIdAndUpdate(id, patch, { runValidators: true })`:
        update validators, then the lookup, then the unique index on names. */
    method UpdateCategoryById(id: Id, p: CategoryModel.Patch, now: int) returns (r: Outcome<Category>)
      requires Valid()
      modifies this
      ensures Valid()
      ensures medicines == old(medicines)
      ensures !CategoryModel.PatchOk(p) <==> r == Rejected(ValidationError)
      ensures r.NotFound? <==> CategoryModel.PatchOk(p) && IndexOf(old(categories), CategoryId, id).None?
      ensures r == Rejected(DuplicateKey) <==>
        && CategoryModel.PatchOk(p)
        && IndexOf(old(categories), CategoryId, id).Some?
        && var i := IndexOf(old(categories), CategoryId, id).value;
           NameTaken(old(categories), i, CategoryModel.ApplyPatch(old(categories)[i], p, now).name)
      ensures r.Updated? <==>
        && CategoryModel.PatchOk(p)
        && IndexOf(old(categories), CategoryId, id).Some?
        && var i := IndexOf(old(categories), CategoryId, id).value;
           !NameTaken(old(categories), i, CategoryModel.ApplyPatch(old(categories)[i], p, now).name)
      ensures !r.Updated? ==> categories == old(categories)
      ensures r.Updated? ==>
        var i := IndexOf(old(categories), CategoryId, id).value;
        && r.doc == CategoryModel.ApplyPatch(old(categories)[i], p, now)
        && categories == old(categories)[i := r.doc]
    {
      if !CategoryModel.PatchOk(p) {
        return Rejected(ValidationError);
      }
      var i := IndexOf(categories, CategoryId, id);
      if i.None? {
        return NotFound;
      }
      var k := i.value;
      var c := CategoryModel.ApplyPatch(categories[k], p, now);
      if NameTaken(categories, k, c.name) {
        return Rejected(DuplicateKey);
      }
      CategoryModel.PatchKeepsSchema(categories[k], p, now);
      ReplaceCategory(k, c);
      return Updated(c);
    }

    /** `category.updateMedicineCount()`: count the active medicines that
        reference the category, store that count, and return it. */
    method UpdateMedicineCount(i: nat, now: int) returns (count: nat)
      requires Valid() && i < |categories|
      modifies this
      ensures Valid()
      ensures medicines == old(medicines)
      ensures count == ActiveCount(medicines, old(categories)[i].id)
      ensures categories == Recounted(old(categories), medicines, i, now)
    {
      count := ActiveCount(medicines, categories[i].id);
      if count != categories[i].medicineCount {
        var c := categories[i].(medicineCount := count, updatedAt := now);
        CategoryModel.SchemaOfCount(categories[i], count, now);
        ReplaceCategory(i, c);
      }
    }

    /** Writes a document back in place of the one with the same id. */
    method ReplaceMedicine(i: nat, m: Medicine)
      requires Valid() && i < |medicines| && MedicineModel.Schema(m) && m.id == medicines[i].id
      modifies this
      ensures Valid()
      ensures medicines == old(medicines)[i := m] && categories == old(categories)
    {
      AllOkUpdate(medicines, MedicineModel.Schema, i, m);
      UniqueUpdate(medicines, MedicineId, i, m);
      medicines := medicines[i := m];
    }

    /** Writes a category back in place of the one with the same id; no other
        category may hold its name. */
    method ReplaceCategory(i: nat, c: Category)
      requires Valid() && i < |categories| && CategoryModel.Schema(c) && c.id == categories[i].id
      requires forall j :: 0 <= j < |categories| && j != i ==> categories[j].name != c.name
      modifies this
      ensures Valid()
      ensures categories == old(categories)[i := c] && medicines == old(medicines)
    {
      AllOkUpdate(categories, CategoryModel.Schema, i, c);
      UniqueUpdate(categories, CategoryId, i, c);
      UniqueUpdate(categories, CategoryName, i, c);
      categories := categories[i := c];
    }
  }
}
