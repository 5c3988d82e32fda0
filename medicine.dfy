/** The Medicine document (server/src/models/Medicine.js): the mass-unit
    enum, the schema bounds, the `discountedPrice`, `stockStatus` and
    `expiryStatus` virtuals, and the `getLowStockMedicines` and
    `searchMedicines` queries. The writes (the count hooks, `updateStock`,
    `reduceStock`) are methods of `CatalogStore.Database`. */
module MedicineModel {
  import opened Wrappers
  import Strings
  import Collections
  import opened Documents

  datatype MassUnit = Mg | G | Ml | Tablet | Capsule | Syrup | Injection | Cream | Ointment

  /** The schema's enum values, in declaration order. */
  const MassUnitNames: seq<string> := ["mg", "g", "ml", "tablet", "capsule", "syrup", "injection", "cream", "ointment"]

  function UnitName(u: MassUnit): (s: string)
    ensures s in MassUnitNames
  {
    match u
    case Mg => "mg"
    case G => "g"
    case Ml => "ml"
    case Tablet => "tablet"
    case Capsule => "capsule"
    case Syrup => "syrup"
    case Injection => "injection"
    case Cream => "cream"
    case Ointment => "ointment"
  }

  /** The enum validator: a string is accepted iff it is one of the values. */
  function ParseUnit(s: string): (u: Option<MassUnit>)
    ensures u.Some? <==> s in MassUnitNames
  {
    match s
    case "mg" => Some(Mg)
    case "g" => Some(G)
    case "ml" => Some(Ml)
    case "tablet" => Some(Tablet)
    case "capsule" => Some(Capsule)
    case "syrup" => Some(Syrup)
    case "injection" => Some(Injection)
    case "cream" => Some(Cream)
    case "ointment" => Some(Ointment)
    case _ => None
  }

  lemma ParseUnitName(u: MassUnit)
    ensures ParseUnit(UnitName(u)) == Some(u)
  {
  }

  lemma UnitNameOfParse(s: string)
    requires ParseUnit(s).Some?
    ensures UnitName(ParseUnit(s).value) == s
  {
    match ParseUnit(s).value
    case Mg => assert s == "mg";
    case G => assert s == "g";
    case Ml => assert s == "ml";
    case Tablet => assert s == "tablet";
    case Capsule => assert s == "capsule";
    case Syrup => assert s == "syrup";
    case Injection => assert s == "injection";
    case Cream => assert s == "cream";
    case Ointment => assert s == "ointment";
  }

  /** The schema default for `massUnit`. */
  const DefaultMassUnit := Tablet

  /** A stored medicine. `image` and `batchNumber` are "" when missing;
      `expiryDate`, `createdAt` and `updatedAt` are milliseconds. */
  datatype Medicine = Medicine(
    id: Id,
    name: string,
    genericName: string,
    description: string,
    category: Id,
    company: string,
    perUnitPrice: real,
    discountPercentage: real,
    stock: int,
    massUnit: MassUnit,
    image: string,
    images: seq<string>,
    prescriptionRequired: bool,
    expiryDate: int,
    batchNumber: string,
    isActive: bool,
    isFeatured: bool,
    tags: seq<string>,
    createdBy: Id,
    updatedBy: Option<Id>,
    createdAt: int,
    updatedAt: int)

  /** The `trim: true` setters. */
  function Normalize(m: Medicine): Medicine {
    m.(name := Strings.Trim(m.name), genericName := Strings.Trim(m.genericName),
       description := Strings.Trim(m.description), company := Strings.Trim(m.company),
       batchNumber := Strings.Trim(m.batchNumber),
       tags := TrimAll(m.tags))
  }

  function TrimAll(ss: seq<string>): (r: seq<string>)
    ensures |r| == |ss|
    ensures forall i :: 0 <= i < |ss| ==> r[i] == Strings.Trim(ss[i])
  {
    seq(|ss|, i requires 0 <= i < |ss| => Strings.Trim(ss[i]))
  }

  predicate TrimmedFields(m: Medicine) {
    && Strings.IsTrimmed(m.name) && Strings.IsTrimmed(m.genericName)
    && Strings.IsTrimmed(m.description) && Strings.IsTrimmed(m.company)
    && Strings.IsTrimmed(m.batchNumber)
    && (forall i :: 0 <= i < |m.tags| ==> Strings.IsTrimmed(m.tags[i]))
  }

  /** The schema's validators: required strings are non-empty, lengths are
      within bounds, price at least 0, discount within [0, 100], stock at
      least 0, images are image URLs. The mass unit's enum is the type. */
  predicate Schema(m: Medicine) {
    && TrimmedFields(m)
    && 2 <= |m.name| <= 100
    && 2 <= |m.genericName| <= 100
    && 1 <= |m.description| <= 1000
    && 1 <= |m.company| <= 100
    && m.perUnitPrice >= 0.0
    && 0.0 <= m.discountPercentage <= 100.0
    && m.stock >= 0
    && ImageFieldOk(m.image)
    && (forall i :: 0 <= i < |m.images| ==> ImageUrlOk(m.images[i]))
    && |m.batchNumber| <= 50
    && (forall i :: 0 <= i < |m.tags| ==> |m.tags[i]| <= 30)
  }

  /** Setters, then validators. */
  function Validate(m: Medicine): (r: Result<Medicine, SaveError>)
    ensures r.Ok? ==> Schema(r.value) && r.value == Normalize(m)
    ensures r.Err? ==> r.error == ValidationError && !Schema(Normalize(m))
  {
    var n := Normalize(m);
    if Schema(n) then Ok(n) else Err(ValidationError)
  }

  lemma NormalizeTrimmed(m: Medicine)
    requires TrimmedFields(m)
    ensures Normalize(m) == m
  {
    Strings.TrimOfTrimmed(m.name);
    Strings.TrimOfTrimmed(m.genericName);
    Strings.TrimOfTrimmed(m.description);
    Strings.TrimOfTrimmed(m.company);
    Strings.TrimOfTrimmed(m.batchNumber);
    TrimTags(m.tags);
    var n := Normalize(m);
    assert n.name == m.name && n.genericName == m.genericName && n.description == m.description;
    assert n.company == m.company && n.batchNumber == m.batchNumber && n.tags == m.tags;
  }

  lemma TrimTags(tags: seq<string>)
    requires forall i :: 0 <= i < |tags| ==> Strings.IsTrimmed(tags[i])
    ensures TrimAll(tags) == tags
  {
    forall i | 0 <= i < |tags| ensures Strings.Trim(tags[i]) == tags[i] {
      Strings.TrimOfTrimmed(tags[i]);
    }
  }

  /** A stored medicine validates to itself. */
  lemma ValidateStored(m: Medicine)
    requires Schema(m)
    ensures Validate(m) == Ok(m)
  {
    NormalizeTrimmed(m);
  }

  /** Validation is idempotent on whatever it accepts. */
  lemma ValidateIdempotent(m: Medicine)
    requires Validate(m).Ok?
    ensures Validate(Validate(m).value) == Validate(m)
  {
    ValidateStored(Validate(m).value);
  }

  /** A create request body after Mongoose's casts. The fields the schema
      gives a default are `None` when the body leaves them out; `images`
      and `tags` are [] and `batchNumber` "" when missing, and `updatedBy`
      is whatever the body carries. */
  datatype Body = Body(
    name: string,
    genericName: string,
    description: string,
    category: Id,
    company: string,
    perUnitPrice: real,
    discountPercentage: Option<real>,
    stock: Option<int>,
    massUnit: Option<MassUnit>,
    image: Option<string>,
    images: seq<string>,
    prescriptionRequired: Option<bool>,
    expiryDate: int,
    batchNumber: string,
    isActive: Option<bool>,
    isFeatured: Option<bool>,
    tags: seq<string>,
    updatedBy: Option<Id>)

  /** `new Medicine({ ...body, createdBy })` before the setters: the schema
      defaults fill what the body leaves out (discount 0, stock 0, unit
      tablet, image null, no prescription, active, not featured). The id and
      the timestamps are the save's. */
  function FromBody(b: Body, createdBy: Id): (m: Medicine)
    ensures m.createdBy == createdBy
    ensures m.isActive <==> b.isActive != Some(false)
    ensures m.isFeatured <==> b.isFeatured == Some(true)
    ensures m.prescriptionRequired <==> b.prescriptionRequired == Some(true)
    ensures b.massUnit.None? ==> m.massUnit == DefaultMassUnit
    ensures b.stock.None? ==> m.stock == 0
    ensures b.discountPercentage.None? ==> m.discountPercentage == 0.0
    ensures b.image.None? ==> m.image == ""
  {
    Medicine(0, b.name, b.genericName, b.description, b.category, b.company, b.perUnitPrice,
             b.discountPercentage.GetOr(0.0), b.stock.GetOr(0), b.massUnit.GetOr(DefaultMassUnit),
             b.image.GetOr(""), b.images, b.prescriptionRequired.GetOr(false), b.expiryDate,
             b.batchNumber, b.isActive.GetOr(true), b.isFeatured.GetOr(false), b.tags,
             createdBy, b.updatedBy, 0, 0)
  }

  /** The body with every defaulted field left out. */
  function WithoutDefaulted(b: Body): Body {
    b.(discountPercentage := None, stock := None, massUnit := None, image := None,
       prescriptionRequired := None, isActive := None, isFeatured := None)
  }

  /** The defaults pass the validators: leaving out every defaulted field
      never turns an accepted body into a refused one, and what it creates
      is active, not featured, with no stock, no discount, no image and
      the default unit. */
  lemma DefaultsValidate(b: Body, createdBy: Id)
    requires Validate(FromBody(b, createdBy)).Ok?
    ensures var v := Validate(FromBody(WithoutDefaulted(b), createdBy));
      && v.Ok? && v.value.isActive && !v.value.isFeatured && v.value.stock == 0
      && v.value.massUnit == DefaultMassUnit && v.value.image == "" && v.value.discountPercentage == 0.0
  {
    var x := FromBody(b, createdBy);
    assert FromBody(WithoutDefaulted(b), createdBy) == Defaulted(x);
    NormalizeDefaulted(x);
    SchemaOfDefaulted(Normalize(x));
  }

  /** A medicine with the schema defaults in place of the defaulted
      fields. */
  function Defaulted(m: Medicine): Medicine {
    m.(discountPercentage := 0.0, stock := 0, massUnit := DefaultMassUnit, image := "",
       prescriptionRequired := false, isActive := true, isFeatured := false)
  }

  lemma NormalizeDefaulted(m: Medicine)
    ensures Normalize(Defaulted(m)) == Defaulted(Normalize(m))
  {
  }

  lemma SchemaOfDefaulted(m: Medicine)
    requires Schema(m)
    ensures Schema(Defaulted(m))
  {
    assert TrimmedFields(Defaulted(m));
  }

  /** The schema says nothing about the id or the timestamps a save fills
      in. */
  lemma SchemaOfStamped(m: Medicine, id: Id, createdAt: int, updatedAt: int)
    requires Schema(m)
    ensures Schema(m.(id := id, createdAt := createdAt, updatedAt := updatedAt))
  {
    var n := m.(id := id, createdAt := createdAt, updatedAt := updatedAt);
    assert TrimmedFields(n);
  }

  /** A stock write keeps a medicine valid exactly when the stock is not
      negative. */
  lemma SchemaOfStock(m: Medicine, stock: int, updatedAt: int)
    requires Schema(m)
    ensures Schema(m.(stock := stock, updatedAt := updatedAt)) <==> stock >= 0
  {
    var n := m.(stock := stock, updatedAt := updatedAt);
    assert TrimmedFields(n);
  }

  /** The fields an update (`findByIdAndUpdate` with the request body) may
      set; `None` where the body leaves the field alone. */
  datatype Patch = Patch(
    name: Option<string>,
    genericName: Option<string>,
    description: Option<string>,
    category: Option<Id>,
    company: Option<string>,
    perUnitPrice: Option<real>,
    discountPercentage: Option<real>,
    stock: Option<int>,
    massUnit: Option<MassUnit>,
    image: Option<string>,
    images: Option<seq<string>>,
    prescriptionRequired: Option<bool>,
    expiryDate: Option<int>,
    batchNumber: Option<string>,
    isActive: Option<bool>,
    isFeatured: Option<bool>,
    tags: Option<seq<string>>,
    updatedBy: Option<Id>)

  /** A patch that sets nothing but the editor. */
  function EditorOnly(updatedBy: Id): Patch {
    Patch(None, None, None, None, None, None, None, None, None, None, None, None, None, None, None, None, None, Some(updatedBy))
  }

  /** The update, with the `trim` setters applied to the values it sets and
      `updatedAt` refreshed by the timestamps option. */
  function ApplyPatch(m: Medicine, p: Patch, now: int): Medicine {
    m.(name := SetTrimmedField(p.name, m.name),
       genericName := SetTrimmedField(p.genericName, m.genericName),
       description := SetTrimmedField(p.description, m.description),
       category := p.category.GetOr(m.category),
       company := SetTrimmedField(p.company, m.company),
       perUnitPrice := p.perUnitPrice.GetOr(m.perUnitPrice),
       discountPercentage := p.discountPercentage.GetOr(m.discountPercentage),
       stock := p.stock.GetOr(m.stock),
       massUnit := p.massUnit.GetOr(m.massUnit),
       image := p.image.GetOr(m.image),
       images := p.images.GetOr(m.images),
       prescriptionRequired := p.prescriptionRequired.GetOr(m.prescriptionRequired),
       expiryDate := p.expiryDate.GetOr(m.expiryDate),
       batchNumber := SetTrimmedField(p.batchNumber, m.batchNumber),
       isActive := p.isActive.GetOr(m.isActive),
       isFeatured := p.isFeatured.GetOr(m.isFeatured),
       tags := if p.tags.Some? then TrimAll(p.tags.value) else m.tags,
       updatedBy := if p.updatedBy.Some? then p.updatedBy else m.updatedBy,
       updatedAt := now)
  }

  /** A trimmed path of an update: the trimmed new value, or the current one. */
  function SetTrimmedField(o: Option<string>, current: string): string {
    if o.Some? then Strings.Trim(o.value) else current
  }

  /** `o` is absent, or its trimmed value has a length in [lo, hi]. */
  predicate TrimmedLengthOk(o: Option<string>, lo: nat, hi: nat) {
    o.None? || lo <= |Strings.Trim(o.value)| <= hi
  }

  /** The update validators (`runValidators: true`): each path the update
      sets is checked on its own, after its setter. */
  predicate PatchOk(p: Patch) {
    && TrimmedLengthOk(p.name, 2, 100)
    && TrimmedLengthOk(p.genericName, 2, 100)
    && TrimmedLengthOk(p.description, 1, 1000)
    && TrimmedLengthOk(p.company, 1, 100)
    && (p.perUnitPrice.Some? ==> p.perUnitPrice.value >= 0.0)
    && (p.discountPercentage.Some? ==> 0.0 <= p.discountPercentage.value <= 100.0)
    && (p.stock.Some? ==> p.stock.value >= 0)
    && (p.image.Some? ==> ImageFieldOk(p.image.value))
    && (p.images.Some? ==> forall i :: 0 <= i < |p.images.value| ==> ImageUrlOk(p.images.value[i]))
    && TrimmedLengthOk(p.batchNumber, 0, 50)
    && (p.tags.Some? ==> forall i :: 0 <= i < |p.tags.value| ==> |Strings.Trim(p.tags.value[i])| <= 30)
  }

  /** Checking only the paths an update sets is enough: a stored medicine
      updated by a patch that passes is still a valid medicine. */
  lemma PatchKeepsSchema(m: Medicine, p: Patch, now: int)
    requires Schema(m) && PatchOk(p)
    ensures Schema(ApplyPatch(m, p, now))
  {
    var n := ApplyPatch(m, p, now);
    SetTrimmed(p.name, m.name, 2, 100);
    SetTrimmed(p.genericName, m.genericName, 2, 100);
    SetTrimmed(p.description, m.description, 1, 1000);
    SetTrimmed(p.company, m.company, 1, 100);
    SetTrimmed(p.batchNumber, m.batchNumber, 0, 50);
    if p.tags.Some? {
      SetTags(p.tags.value);
    }
    assert TrimmedFields(n);
  }

  /** A trimmed string field set by a patch that passes stays trimmed and
      within its length bounds. */
  lemma SetTrimmed(o: Option<string>, current: string, lo: nat, hi: nat)
    requires Strings.IsTrimmed(current) && lo <= |current| <= hi
    requires TrimmedLengthOk(o, lo, hi)
    ensures Strings.IsTrimmed(SetTrimmedField(o, current)) && lo <= |SetTrimmedField(o, current)| <= hi
  {
    if o.Some? {
      Strings.TrimIsTrimmed(o.value);
    }
  }

  lemma SetTags(tags: seq<string>)
    requires forall i :: 0 <= i < |tags| ==> |Strings.Trim(tags[i])| <= 30
    ensures forall i :: 0 <= i < |TrimAll(tags)| ==> Strings.IsTrimmed(TrimAll(tags)[i]) && |TrimAll(tags)[i]| <= 30
  {
    forall i | 0 <= i < |tags| ensures Strings.IsTrimmed(Strings.Trim(tags[i])) {
      Strings.TrimIsTrimmed(tags[i]);
    }
  }

  /* ---------------- virtuals ---------------- */

  /** `discountedPrice`: the price less the discount, when the discount is
      positive. */
  function DiscountedPrice(perUnitPrice: real, discountPercentage: real): (p: real)
    ensures discountPercentage <= 0.0 ==> p == perUnitPrice
    ensures perUnitPrice >= 0.0 && 0.0 <= discountPercentage <= 100.0 ==> 0.0 <= p <= perUnitPrice
    ensures perUnitPrice >= 0.0 && discountPercentage == 100.0 ==> p == 0.0
  {
    if discountPercentage > 0.0 then perUnitPrice - (perUnitPrice * discountPercentage / 100.0)
    else perUnitPrice
  }

  /** A larger discount never gives a higher price. */
  lemma DiscountMonotone(perUnitPrice: real, d1: real, d2: real)
    requires perUnitPrice >= 0.0 && 0.0 <= d1 <= d2
    ensures DiscountedPrice(perUnitPrice, d2) <= DiscountedPrice(perUnitPrice, d1)
  {
    assert perUnitPrice * d1 <= perUnitPrice * d2;
  }

  /** The price a stored medicine is offered at is within [0, list price]. */
  lemma StoredDiscountedPrice(m: Medicine)
    requires Schema(m)
    ensures 0.0 <= DiscountedPrice(m.perUnitPrice, m.discountPercentage) <= m.perUnitPrice
  {
  }

  datatype StockStatus = OutOfStock | LowStock | InStock

  /** The stock level at or below which a medicine counts as low. */
  const LowStockLevel := 10

  /** `stockStatus`. */
  function StockStatusOf(stock: int): (s: StockStatus)
    ensures s == OutOfStock <==> stock == 0
    ensures s == LowStock <==> stock != 0 && stock <= LowStockLevel
    ensures s == InStock <==> stock > LowStockLevel
  {
    if stock == 0 then OutOfStock
    else if stock <= LowStockLevel then LowStock
    else InStock
  }

  datatype ExpiryStatus = Expired | ExpiringSoon | Valid

  const DayMs := 1000 * 60 * 60 * 24

  /** `Math.ceil(ms / DayMs)` for a millisecond difference `ms`. */
  function DaysUntil(ms: int): (d: int)
    ensures (d - 1) * DayMs < ms <= d * DayMs
  {
    -((-ms) / DayMs)
  }

  /** The classification by whole days left. */
  function ExpiryOfDays(days: int): (s: ExpiryStatus)
    ensures s == Expired <==> days < 0
    ensures s == ExpiringSoon <==> 0 <= days <= 30
    ensures s == Valid <==> days > 30
  {
    if days < 0 then Expired
    else if days <= 30 then ExpiringSoon
    else Valid
  }

  /** `expiryStatus`, for `msUntilExpiry` = expiry date minus the clock. A
      medicine less than a day past its expiry date still rounds up to day 0
      and counts as expiring soon, not expired. */
  function ExpiryStatusOf(msUntilExpiry: int): (s: ExpiryStatus)
    ensures s == Expired <==> msUntilExpiry <= -DayMs
    ensures s == ExpiringSoon <==> -DayMs < msUntilExpiry <= 30 * DayMs
    ensures s == Valid <==> msUntilExpiry > 30 * DayMs
  {
    var d := DaysUntil(msUntilExpiry);
    assert d < 0 <==> msUntilExpiry <= -DayMs;
    assert d <= 30 <==> msUntilExpiry <= 30 * DayMs;
    ExpiryOfDays(d)
  }

  /* ---------------- queries ---------------- */

  /** `getLowStockMedicines(threshold)`: active medicines with stock at most
      `threshold` (10 when not given), in collection order. */
  function LowStockMedicines(ms: seq<Medicine>, threshold: Option<int>): (r: seq<Medicine>)
    ensures forall m :: m in r <==> m in ms && m.isActive && m.stock <= threshold.GetOr(LowStockLevel)
    ensures Collections.IsSubsequence(r, ms)
  {
    var t := threshold.GetOr(LowStockLevel);
    var keep := (m: Medicine) => m.isActive && m.stock <= t;
    Collections.FilterIsSubsequence(ms, keep);
    FilterMembers(ms, keep);
    Collections.FilterIsSubsequence(ms, keep);
    Collections.Filter(ms, keep)
  }

  /** `getActiveMedicines`. */
  function ActiveMedicines(ms: seq<Medicine>): (r: seq<Medicine>)
    ensures forall m :: m in r <==> m in ms && m.isActive
    ensures Collections.IsSubsequence(r, ms)
  {
    var keep := (m: Medicine) => m.isActive;
    Collections.FilterIsSubsequence(ms, keep);
    FilterMembers(ms, keep);
    Collections.FilterIsSubsequence(ms, keep);
    Collections.Filter(ms, keep)
  }

  /** `getFeaturedMedicines`: active and featured. */
  function FeaturedMedicines(ms: seq<Medicine>): (r: seq<Medicine>)
    ensures forall m :: m in r <==> m in ms && m.isActive && m.isFeatured
    ensures Collections.IsSubsequence(r, ms)
  {
    var keep := (m: Medicine) => m.isActive && m.isFeatured;
    Collections.FilterIsSubsequence(ms, keep);
    FilterMembers(ms, keep);
    Collections.FilterIsSubsequence(ms, keep);
    Collections.Filter(ms, keep)
  }

  const HourMs := 1000 * 60 * 60

  /** `futureDate` after `setDate(getDate() + days)` at clock `nowMs`: the
      same local time of day `days` calendar days ahead (30 when not given).
      A daylight-saving change inside the window makes that up to an hour
      more or less than `days` whole days; the time zone itself is not
      modelled, only this bound. */
  predicate CalendarWindowEnd(nowMs: int, days: Option<int>, futureMs: int) {
    var exact := nowMs + days.GetOr(30) * DayMs;
    exact - HourMs <= futureMs <= exact + HourMs
  }

  /** `getExpiringMedicines(days)` with window end `futureMs` (see
      `CalendarWindowEnd`): active medicines whose expiry date is not after
      it, in collection order. */
  function ExpiringMedicines(ms: seq<Medicine>, futureMs: int): (r: seq<Medicine>)
    ensures forall m :: m in r <==> m in ms && m.isActive && m.expiryDate <= futureMs
    ensures Collections.IsSubsequence(r, ms)
  {
    var keep := (m: Medicine) => m.isActive && m.expiryDate <= futureMs;
    FilterMembers(ms, keep);
    Collections.FilterIsSubsequence(ms, keep);
    Collections.Filter(ms, keep)
  }

  /** With the default window, whatever `getExpiringMedicines` lists has at
      most 31 whole days left by the `expiryStatus` virtual. */
  lemma ExpiringWithinAMonth(ms: seq<Medicine>, nowMs: int, futureMs: int, m: Medicine)
    requires CalendarWindowEnd(nowMs, None, futureMs)
    requires m in ExpiringMedicines(ms, futureMs)
    ensures DaysUntil(m.expiryDate - nowMs) <= 31
  {
    var d := DaysUntil(m.expiryDate - nowMs);
    assert (d - 1) * DayMs < m.expiryDate - nowMs <= 30 * DayMs + HourMs;
  }

  /** When no daylight-saving change lengthens the default window, whatever
      `getExpiringMedicines` lists is expiring soon or expired by the
      `expiryStatus` virtual. */
  lemma ExpiringAreNotValid(ms: seq<Medicine>, nowMs: int, futureMs: int, m: Medicine)
    requires CalendarWindowEnd(nowMs, None, futureMs) && futureMs <= nowMs + 30 * DayMs
    requires m in ExpiringMedicines(ms, futureMs)
    ensures ExpiryStatusOf(m.expiryDate - nowMs) != Valid
  {
  }

  /** Across a change that lengthens the window by an hour, an active
      medicine expiring half an hour after the 30 whole days is listed as
      expiring although `expiryStatus` calls it valid. */
  lemma DaylightSavingListsValid(ms: seq<Medicine>, nowMs: int, m: Medicine)
    requires m in ms && m.isActive && m.expiryDate == nowMs + 30 * DayMs + HourMs / 2
    ensures CalendarWindowEnd(nowMs, None, nowMs + 30 * DayMs + HourMs)
    ensures m in ExpiringMedicines(ms, nowMs + 30 * DayMs + HourMs)
    ensures ExpiryStatusOf(m.expiryDate - nowMs) == Valid
  {
  }

  /** The filters `searchMedicines` accepts; `None` or "" where not given. */
  datatype SearchFilters = SearchFilters(
    category: Option<Id>,
    company: string,
    minPrice: Option<real>,
    maxPrice: Option<real>,
    prescriptionRequired: Option<bool>)

  /** The query `searchMedicines` builds, as a predicate on one document.
      `textMatches` stands for MongoDB's `$text` search. */
  predicate SearchMatches(m: Medicine, searchTerm: string, f: SearchFilters, textMatches: (Medicine, string) -> bool) {
    && m.isActive
    && (searchTerm != "" ==> textMatches(m, searchTerm))
    && (f.category.Some? ==> m.category == f.category.value)
    && (f.company != "" ==> Strings.IncludesIgnoreCase(m.company, f.company))
    && (f.minPrice.Some? ==> m.perUnitPrice >= f.minPrice.value)
    && (f.maxPrice.Some? ==> m.perUnitPrice <= f.maxPrice.value)
    && (f.prescriptionRequired.Some? ==> m.prescriptionRequired == f.prescriptionRequired.value)
  }

  /** `searchMedicines`: always active only; both price bounds, when given,
      are kept together as one inclusive range. */
  function SearchMedicines(ms: seq<Medicine>, searchTerm: string, f: SearchFilters,
                           textMatches: (Medicine, string) -> bool): (r: seq<Medicine>)
    ensures Collections.IsSubsequence(r, ms)
    ensures forall m :: multiset(r)[m] == if SearchMatches(m, searchTerm, f, textMatches) then multiset(ms)[m] else 0
    ensures forall m :: m in r <==> m in ms && SearchMatches(m, searchTerm, f, textMatches)
    ensures forall m :: m in r ==> m.isActive
    ensures f.minPrice.Some? && f.maxPrice.Some? ==>
      forall m :: m in r ==> f.minPrice.value <= m.perUnitPrice <= f.maxPrice.value
  {
    var keep := (m: Medicine) => SearchMatches(m, searchTerm, f, textMatches);
    FilterMembers(ms, keep);
    Collections.FilterIsSubsequence(ms, keep);
    Collections.FilterMultiplicity(ms, keep);
    Collections.Filter(ms, keep)
  }

  /** Membership in a filter, in both directions. */
  lemma FilterMembers(ms: seq<Medicine>, keep: Medicine -> bool)
    ensures forall m :: m in Collections.Filter(ms, keep) <==> m in ms && keep(m)
  {
    forall m | m in ms && keep(m) ensures m in Collections.Filter(ms, keep) {
      var i :| 0 <= i < |ms| && ms[i] == m;
    }
    forall m | m in Collections.Filter(ms, keep) ensures keep(m) {
      var r := Collections.Filter(ms, keep);
      var i :| 0 <= i < |r| && r[i] == m;
    }
  }
}
