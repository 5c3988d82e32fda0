/** The Category document (server/src/models/Category.js): its schema
    bounds and the order `getActiveCategories` lists categories in. The
    writes the model performs (the pre-save count reset and
    `updateMedicineCount`) are methods of `CatalogStore.Database`. */
module CategoryModel {
  import Strings
  import Sorting
  import Collections
  import opened Wrappers
  import opened Documents

  datatype Category = Category(
    id: Id,
    name: string,
    description: string,
    image: string,
    icon: string,
    medicineCount: int,
    isActive: bool,
    sortOrder: int,
    createdBy: Id,
    createdAt: int,
    updatedAt: int)

  /** The `trim: true` setters applied to the fields that declare them. */
  function Normalize(c: Category): Category {
    c.(name := Strings.Trim(c.name), description := Strings.Trim(c.description), icon := Strings.Trim(c.icon))
  }

  /** The schema's validators, on the values the setters produced: name
      required, 2..50; description required, at most 500; image empty or an
      image URL. Trimmed fields hold their trimmed value. */
  predicate Schema(c: Category) {
    && Strings.IsTrimmed(c.name) && 2 <= |c.name| <= 50
    && Strings.IsTrimmed(c.description) && 1 <= |c.description| <= 500
    && Strings.IsTrimmed(c.icon)
    && ImageFieldOk(c.image)
  }

  /** Setters, then validators: the document that would be stored, or the
      validation error. */
  function Validate(c: Category): (r: Result<Category, SaveError>)
    ensures r.Ok? ==> Schema(r.value) && r.value == Normalize(c)
    ensures r.Err? ==> r.error == ValidationError && !Schema(Normalize(c))
  {
    var n := Normalize(c);
    if Schema(n) then Ok(n) else Err(ValidationError)
  }

  /** A stored category validates to itself: re-saving it changes nothing. */
  lemma ValidateStored(c: Category)
    requires Schema(c)
    ensures Validate(c) == Ok(c)
  {
    NormalizeStored(c);
  }

  lemma NormalizeStored(c: Category)
    requires Strings.IsTrimmed(c.name) && Strings.IsTrimmed(c.description) && Strings.IsTrimmed(c.icon)
    ensures Normalize(c) == c
  {
    Strings.TrimOfTrimmed(c.name);
    Strings.TrimOfTrimmed(c.description);
    Strings.TrimOfTrimmed(c.icon);
  }

  /** Validation is idempotent on whatever it accepts. */
  lemma ValidateIdempotent(c: Category)
    requires Validate(c).Ok?
    ensures Validate(Validate(c).value) == Validate(c)
  {
    ValidateStored(Validate(c).value);
  }

  /** The schema default for `icon`, a Lucide icon name. */
  const DefaultIcon := "Package"

  /** The default icon has nothing for the `trim` setter to remove. */
  lemma DefaultIconTrimmed()
    ensures Strings.IsTrimmed(DefaultIcon) && Strings.Trim(DefaultIcon) == DefaultIcon
  {
    assert DefaultIcon[0] == 'P' && DefaultIcon[|DefaultIcon| - 1] == 'e';
    Strings.TrimOfTrimmed(DefaultIcon);
  }

  /** A create request body after Mongoose's casts: the fields the schema
      gives a default are `None` when the body leaves them out. A
      `medicineCount` in the body is left out, since the pre-save hook
      resets it. */
  datatype Body = Body(
    name: string,
    description: string,
    image: Option<string>,
    icon: Option<string>,
    isActive: Option<bool>,
    sortOrder: Option<int>)

  /** `new Category({ ...body, createdBy })` before the setters: the schema
      defaults fill what the body leaves out (image null, icon "Package",
      active, sort order 0). The id, the count and the timestamps are the
      save's. */
  function FromBody(b: Body, createdBy: Id): (c: Category)
    ensures c.createdBy == createdBy && c.name == b.name && c.description == b.description
    ensures c.isActive <==> b.isActive != Some(false)
    ensures b.icon.None? ==> c.icon == DefaultIcon
    ensures b.sortOrder.None? ==> c.sortOrder == 0
    ensures b.image.None? ==> c.image == ""
  {
    Category(0, b.name, b.description, b.image.GetOr(""), b.icon.GetOr(DefaultIcon), 0,
             b.isActive.GetOr(true), b.sortOrder.GetOr(0), createdBy, 0, 0)
  }

  /** The defaults pass the validators: leaving out the image, icon,
      `isActive` and `sortOrder` never turns an accepted body into a refused
      one, and what it creates is active with the "Package" icon. */
  lemma DefaultsValidate(b: Body, createdBy: Id)
    requires Validate(FromBody(b, createdBy)).Ok?
    ensures var v := Validate(FromBody(b.(image := None, icon := None, isActive := None, sortOrder := None), createdBy));
      && v.Ok? && v.value.isActive && v.value.icon == DefaultIcon && v.value.sortOrder == 0
  {
    var x := FromBody(b, createdBy);
    var d := FromBody(b.(image := None, icon := None, isActive := None, sortOrder := None), createdBy);
    assert d == Defaulted(x);
    NormalizeDefaulted(x);
    SchemaOfDefaulted(Normalize(x));
  }

  /** A body whose trimmed name and description are within the schema's
      lengths and whose image is empty or an image URL is saved; an icon
      left out is the default one. */
  lemma ValidateFromBody(b: Body, createdBy: Id)
    requires 2 <= |Strings.Trim(b.name)| <= 50 && 1 <= |Strings.Trim(b.description)| <= 500
    requires ImageFieldOk(b.image.GetOr(""))
    ensures Validate(FromBody(b, createdBy)).Ok?
    ensures b.icon.None? ==> Validate(FromBody(b, createdBy)).value.icon == DefaultIcon
  {
    var c := FromBody(b, createdBy);
    Strings.TrimIsTrimmed(c.name);
    Strings.TrimIsTrimmed(c.description);
    if b.icon.None? {
      DefaultIconTrimmed();
      assert Normalize(c).icon == DefaultIcon;
    } else {
      Strings.TrimIsTrimmed(b.icon.value);
    }
    assert Schema(Normalize(c));
  }

  /** A category with the defaults in place of the image, icon, `isActive`
      and `sortOrder`. */
  function Defaulted(c: Category): Category {
    c.(image := "", icon := DefaultIcon, isActive := true, sortOrder := 0)
  }

  lemma NormalizeDefaulted(c: Category)
    ensures Normalize(Defaulted(c)) == Defaulted(Normalize(c))
  {
    DefaultIconTrimmed();
  }

  lemma SchemaOfDefaulted(c: Category)
    requires Schema(c)
    ensures Schema(Defaulted(c))
  {
    DefaultIconTrimmed();
  }

  /** The schema says nothing about the id, the count or the timestamps. */
  lemma SchemaOfStamped(c: Category, id: Id, medicineCount: int, createdAt: int, updatedAt: int)
    requires Schema(c)
    ensures Schema(c.(id := id, medicineCount := medicineCount, createdAt := createdAt, updatedAt := updatedAt))
  {
  }

  lemma SchemaOfCount(c: Category, medicineCount: int, updatedAt: int)
    requires Schema(c)
    ensures Schema(c.(medicineCount := medicineCount, updatedAt := updatedAt))
  {
  }

  /** The fields an update (`findByIdAndUpdate` with the request body) may
      set; `None` where the body leaves the field alone. */
  datatype Patch = Patch(
    name: Option<string>,
    description: Option<string>,
    image: Option<string>,
    icon: Option<string>,
    medicineCount: Option<int>,
    isActive: Option<bool>,
    sortOrder: Option<int>)

  /** The patch of a soft delete. */
  const Deactivate := Patch(None, None, None, None, None, Some(false), None)

  /** The update, with the `trim` setters applied and `updatedAt` refreshed. */
  function ApplyPatch(c: Category, p: Patch, now: int): Category {
    c.(name := if p.name.Some? then Strings.Trim(p.name.value) else c.name,
       description := if p.description.Some? then Strings.Trim(p.description.value) else c.description,
       image := p.image.GetOr(c.image),
       icon := if p.icon.Some? then Strings.Trim(p.icon.value) else c.icon,
       medicineCount := p.medicineCount.GetOr(c.medicineCount),
       isActive := p.isActive.GetOr(c.isActive),
       sortOrder := p.sortOrder.GetOr(c.sortOrder),
       updatedAt := now)
  }

  /** The update validators (`runValidators: true`), path by path. */
  predicate PatchOk(p: Patch) {
    && (p.name.Some? ==> 2 <= |Strings.Trim(p.name.value)| <= 50)
    && (p.description.Some? ==> 1 <= |Strings.Trim(p.description.value)| <= 500)
    && (p.image.Some? ==> ImageFieldOk(p.image.value))
  }

  /** A stored category updated by a patch that passes is still valid. */
  lemma PatchKeepsSchema(c: Category, p: Patch, now: int)
    requires Schema(c) && PatchOk(p)
    ensures Schema(ApplyPatch(c, p, now))
  {
    if p.name.Some? { Strings.TrimIsTrimmed(p.name.value); }
    if p.description.Some? { Strings.TrimIsTrimmed(p.description.value); }
    if p.icon.Some? { Strings.TrimIsTrimmed(p.icon.value); }
  }

  /** The soft-delete patch passes the validators and changes nothing but
      `isActive` and the timestamp. */
  lemma DeactivateOnlyDeactivates(c: Category, now: int)
    ensures PatchOk(Deactivate)
    ensures ApplyPatch(c, Deactivate, now) == c.(isActive := false, updatedAt := now)
  {
  }

  /** `.sort({ sortOrder: 1, name: 1 })`. */
  predicate SortOrderLe(a: Category, b: Category) {
    a.sortOrder < b.sortOrder || (a.sortOrder == b.sortOrder && Strings.StrLe(a.name, b.name))
  }

  lemma SortOrderLeTotal()
    ensures Sorting.Total(SortOrderLe)
  {
    forall a: Category, b: Category ensures SortOrderLe(a, b) || SortOrderLe(b, a) {
      Strings.StrLeTotal(a.name, b.name);
    }
  }

  predicate IsActive(c: Category) { c.isActive }

  /** Categories in `(sortOrder, name)` order. */
  function Ordered(cs: seq<Category>): (r: seq<Category>)
    ensures multiset(r) == multiset(cs)
    ensures Sorting.SortedBy(r, SortOrderLe)
  {
    SortOrderLeTotal();
    Sorting.SortSorted(cs, SortOrderLe);
    Sorting.Sort(cs, SortOrderLe)
  }

  /** `getActiveCategories`: exactly the active categories, ordered by
      `sortOrder` and then by name. */
  function ActiveCategories(cs: seq<Category>): (r: seq<Category>)
    ensures multiset(r) == multiset(Collections.Filter(cs, IsActive))
    ensures forall c :: c in r <==> c in cs && c.isActive
    ensures Sorting.SortedBy(r, SortOrderLe)
  {
    var active := Collections.Filter(cs, IsActive);
    var r := Ordered(active);
    assert forall c :: c in r <==> c in active by {
      forall c ensures c in r <==> c in active {
        assert c in r <==> c in multiset(r);
      }
    }
    assert forall c :: c in cs && c.isActive ==> c in active by {
      forall c | c in cs && c.isActive ensures c in active {
        var i :| 0 <= i < |cs| && cs[i] == c;
      }
    }
    r
  }
}
