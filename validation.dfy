/** The request validators (server/src/middleware/validation.js) as
    predicates on the string values express-validator sees. A field that is
    absent is `None` when the rule is `.optional()`, and "" when it is not
    (express-validator checks a missing value as the empty string). */
module Validation {
  import opened Wrappers
  import Strings
  import MedicineModel
  import CategoryModel
  import Documents

  /* ---------------- field checks ---------------- */

  /** `.trim().isLength({ min, max })`. */
  predicate TrimmedLengthIn(s: string, min: nat, max: nat) {
    min <= |Strings.Trim(s)| <= max
  }

  /** An `.optional()` rule: absent, or present and accepted. */
  predicate OptionalOk(o: Option<string>, ok: string -> bool) {
    o.None? || ok(o.value)
  }

  /** The text up to the first line terminator: the part of the input that
      a look-ahead `(?=.*x)` anchored at `^` can see. */
  function FirstLine(s: string): (r: string)
    ensures |r| <= |s| && r == s[..|r|]
    ensures forall i :: 0 <= i < |r| ==> !Strings.IsLineTerminator(r[i])
  {
    if s == [] || Strings.IsLineTerminator(s[0]) then [] else [s[0]] + FirstLine(s[1..])
  }

  predicate HasLower(s: string) { exists i :: 0 <= i < |s| && Strings.IsLower(s[i]) }
  predicate HasUpper(s: string) { exists i :: 0 <= i < |s| && Strings.IsUpper(s[i]) }
  predicate HasDigit(s: string) { exists i :: 0 <= i < |s| && Strings.IsDigit(s[i]) }

  /** `.isLength({ min: 6 }).matches(/^(?=.*[a-z])(?=.*[A-Z])(?=.*\d)/)`. */
  predicate StrongPassword(p: string) {
    var line := FirstLine(p);
    |p| >= 6 && HasLower(line) && HasUpper(line) && HasDigit(line)
  }

  /** On a single line, the rule is: at least six characters with a lower-case
      letter, an upper-case letter and a digit somewhere. */
  lemma StrongPasswordSingleLine(p: string)
    requires forall i :: 0 <= i < |p| ==> !Strings.IsLineTerminator(p[i])
    ensures StrongPassword(p) <==> |p| >= 6 && HasLower(p) && HasUpper(p) && HasDigit(p)
  {
    FirstLineOfSingleLine(p);
  }

  lemma {:induction false} FirstLineOfSingleLine(p: string)
    requires forall i :: 0 <= i < |p| ==> !Strings.IsLineTerminator(p[i])
    ensures FirstLine(p) == p
  {
    if p != [] {
      FirstLineOfSingleLine(p[1..]);
    }
  }

  /** A phone number without its optional leading '+'. */
  function PhoneDigits(s: string): string {
    if s != [] && s[0] == '+' then s[1..] else s
  }

  /** `/^[\+]?[1-9][\d]{0,15}$/`. */
  predicate PhoneOk(s: string) {
    var t := PhoneDigits(s);
    && 1 <= |t| <= 16
    && '1' <= t[0] <= '9'
    && forall i :: 0 <= i < |t| ==> Strings.IsDigit(t[i])
  }

  /** A leading '+' is optional: it makes no difference to the check. */
  lemma PhonePlus(t: string)
    requires t == [] || t[0] != '+'
    ensures PhoneOk("+" + t) <==> PhoneOk(t)
  {
    var s := "+" + t;
    assert s[0] == '+' && s[1..] == t;
    assert PhoneDigits(s) == t == PhoneDigits(t);
  }

  /** Between one and seventeen characters. */
  lemma PhoneLength(s: string)
    requires PhoneOk(s)
    ensures 1 <= |s| <= 17
  {
  }

  /** `isInt()`'s default syntax, `/^[-+]?[0-9]+$/` (leading zeros allowed). */
  predicate IntSyntax(s: string) {
    var digits := Strings.Unsigned(s);
    |digits| >= 1 && forall i :: 0 <= i < |digits| ==> Strings.IsDigit(digits[i])
  }

  /** The number an integer string stands for. */
  function IntValue(s: string): int
    requires IntSyntax(s)
  {
    Strings.Signed(s[0] == '-', Strings.ValueIn(Strings.Unsigned(s), 10))
  }

  /** `.isInt({ min, max })`, with either bound optional. */
  predicate IsIntIn(s: string, min: Option<int>, max: Option<int>) {
    && IntSyntax(s)
    && (min.Some? ==> IntValue(s) >= min.value)
    && (max.Some? ==> IntValue(s) <= max.value)
  }

  /** Every integer's `toString` is an integer string of that value. */
  lemma IntSyntaxOfIntToString(n: int)
    ensures IntSyntax(Strings.IntToString(n))
    ensures IntValue(Strings.IntToString(n)) == n
  {
    var m: nat := if n < 0 then -n else n;
    Strings.NatToStringValue(m);
    var s := Strings.IntToString(n);
    if n < 0 {
      assert s[1..] == Strings.NatToString(m);
    }
  }

  /** A value `isInt` accepts reaches the controllers' `parseInt` as the same
      number. */
  lemma ParseIntOfIntSyntax(s: string)
    requires IntSyntax(s)
    ensures Strings.ParseInt(s) == Some(IntValue(s))
  {
    var digits := Strings.Unsigned(s);
    if s[0] == '-' || s[0] == '+' {
      assert s == [s[0]] + digits;
    }
    Strings.ParseIntOfDecimal(s, digits);
  }

  /** `.isFloat({ min, max })` on a value already read as a number; the
      float syntax itself is not modelled. */
  datatype Float = Finite(value: real) | NotFloat

  predicate IsFloatIn(f: Float, min: real, max: Option<real>) {
    f.Finite? && f.value >= min && (max.Some? ==> f.value <= max.value)
  }

  /** `isBoolean()` in its default (strict) mode. */
  predicate IsBooleanStr(s: string) {
    s == "true" || s == "false" || s == "1" || s == "0"
  }

  /* ---------------- rule sets ---------------- */

  const Roles: seq<string> := ["user", "seller", "admin"]

  datatype RegisterBody = RegisterBody(
    name: string,
    password: string,
    role: Option<string>,
    phone: Option<string>,
    street: Option<string>,
    city: Option<string>,
    state: Option<string>,
    postalCode: Option<string>,
    country: Option<string>)

  /** `validateRegister` (the email check is not part of this model). */
  predicate RegisterOk(b: RegisterBody) {
    && TrimmedLengthIn(b.name, 2, 50)
    && StrongPassword(b.password)
    && OptionalOk(b.role, r => r in Roles)
    && OptionalOk(b.phone, PhoneOk)
    && OptionalOk(b.street, s => TrimmedLengthIn(s, 0, 100))
    && OptionalOk(b.city, s => TrimmedLengthIn(s, 0, 50))
    && OptionalOk(b.state, s => TrimmedLengthIn(s, 0, 50))
    && OptionalOk(b.postalCode, s => TrimmedLengthIn(s, 0, 20))
    && OptionalOk(b.country, s => TrimmedLengthIn(s, 0, 50))
  }

  /** A registration that passes has a role the account can hold, given or
      defaulted. */
  lemma RegisteredRole(b: RegisterBody)
    requires RegisterOk(b)
    ensures b.role.GetOr("user") in Roles
  {
  }

  /** `validateChangePassword`. */
  predicate ChangePasswordOk(currentPassword: string, newPassword: string) {
    currentPassword != "" && StrongPassword(newPassword)
  }

  /** `validatePagination`. */
  predicate PaginationOk(page: Option<string>, limit: Option<string>) {
    && OptionalOk(page, s => IsIntIn(s, Some(1), None))
    && OptionalOk(limit, s => IsIntIn(s, Some(1), Some(100)))
  }

  /** For numbers written the usual way, the rule is exactly page at least 1
      and limit in [1, 100]. */
  lemma PaginationOfNumbers(page: int, limit: int)
    ensures PaginationOk(Some(Strings.IntToString(page)), Some(Strings.IntToString(limit)))
            <==> page >= 1 && 1 <= limit <= 100
  {
    IntSyntaxOfIntToString(page);
    IntSyntaxOfIntToString(limit);
  }

  /** `validateSort`. */
  predicate SortOk(sortBy: Option<string>, sortOrder: Option<string>) {
    && OptionalOk(sortBy, s => TrimmedLengthIn(s, 0, 50))
    && OptionalOk(sortOrder, s => s == "asc" || s == "desc")
  }

  /** The fields `validateMedicineFilters` lets the listing sort by. */
  const ListingSortFields: seq<string> := ["name", "genericName", "perUnitPrice", "stock", "createdAt", "updatedAt"]

  /** `validateMedicineFilters` (the category id check is not part of this
      model). */
  predicate MedicineFiltersOk(company: Option<string>, minPrice: Option<Float>, maxPrice: Option<Float>,
                              prescriptionRequired: Option<string>, sortBy: Option<string>) {
    && OptionalOk(company, s => TrimmedLengthIn(s, 0, 100))
    && (minPrice.None? || IsFloatIn(minPrice.value, 0.0, None))
    && (maxPrice.None? || IsFloatIn(maxPrice.value, 0.0, None))
    && OptionalOk(prescriptionRequired, IsBooleanStr)
    && OptionalOk(sortBy, s => s in ListingSortFields)
  }

  /** The shop's "price" sort key is not one of the listing's sort fields. */
  lemma PriceIsNotASortField()
    ensures !MedicineFiltersOk(None, None, None, None, Some("price"))
  {
    assert "price" != "perUnitPrice";
  }

  /** The mass units `validateMedicine` lists. */
  const MassUnits: seq<string> := ["mg", "g", "ml", "tablet", "capsule", "syrup", "injection", "cream", "ointment"]

  /** The validator's list is the schema's enum. */
  lemma MassUnitsAgree(s: string)
    ensures s in MassUnits <==> MedicineModel.ParseUnit(s).Some?
  {
  }

  datatype MedicineBody = MedicineBody(
    name: string,
    genericName: string,
    description: string,
    company: string,
    perUnitPrice: Float,
    discountPercentage: Option<Float>,
    stock: string,
    massUnit: Option<string>,
    prescriptionRequired: Option<string>,
    batchNumber: Option<string>,
    isFeatured: Option<string>,
    tags: Option<seq<string>>)

  /** `validateMedicine` (the category id, image URL and expiry date checks
      are not part of this model). */
  predicate MedicineOk(b: MedicineBody) {
    && TrimmedLengthIn(b.name, 2, 100)
    && TrimmedLengthIn(b.genericName, 2, 100)
    && TrimmedLengthIn(b.description, 10, 1000)
    && TrimmedLengthIn(b.company, 2, 100)
    && IsFloatIn(b.perUnitPrice, 0.0, None)
    && (b.discountPercentage.None? || IsFloatIn(b.discountPercentage.value, 0.0, Some(100.0)))
    && IsIntIn(b.stock, Some(0), None)
    && OptionalOk(b.massUnit, s => s in MassUnits)
    && OptionalOk(b.prescriptionRequired, IsBooleanStr)
    && OptionalOk(b.batchNumber, s => TrimmedLengthIn(s, 0, 50))
    && OptionalOk(b.isFeatured, IsBooleanStr)
    && (b.tags.None? || forall i :: 0 <= i < |b.tags.value| ==> TrimmedLengthIn(b.tags.value[i], 0, 30))
  }

  /** What `validateMedicine` lets through meets the schema's numeric bounds:
      price at least 0, discount (0 by default) in [0, 100], stock a
      non-negative integer, and a unit of the schema's enum. */
  lemma MedicineNumbers(b: MedicineBody)
    requires MedicineOk(b)
    ensures b.perUnitPrice.value >= 0.0
    ensures var d := if b.discountPercentage.Some? then b.discountPercentage.value.value else 0.0;
            0.0 <= d <= 100.0
    ensures IntValue(b.stock) >= 0
    ensures MedicineModel.ParseUnit(b.massUnit.GetOr("tablet")).Some?
  {
  }

  datatype CategoryBody = CategoryBody(
    name: string,
    description: string,
    icon: Option<string>,
    sortOrder: Option<string>,
    isActive: Option<string>)

  /** `validateCategory` (the image URL check is not part of this model). */
  predicate CategoryOk(b: CategoryBody) {
    && TrimmedLengthIn(b.name, 2, 50)
    && TrimmedLengthIn(b.description, 10, 500)
    && OptionalOk(b.icon, s => TrimmedLengthIn(s, 0, 50))
    && OptionalOk(b.sortOrder, s => IsIntIn(s, Some(0), None))
    && OptionalOk(b.isActive, IsBooleanStr)
  }

  /** A category body whose name, description and icon passed
      `validateCategory` and whose image the schema accepts is saved without
      a validation error; an icon left out takes the schema default. */
  lemma CategoryOkSaves(b: CategoryBody, cast: CategoryModel.Body, user: Documents.Id)
    requires CategoryOk(b)
    requires cast.name == b.name && cast.description == b.description && cast.icon == b.icon
    requires Documents.ImageFieldOk(cast.image.GetOr(""))
    ensures CategoryModel.Validate(CategoryModel.FromBody(cast, user)).Ok?
    ensures b.icon.None? ==> CategoryModel.Validate(CategoryModel.FromBody(cast, user)).value.icon == CategoryModel.DefaultIcon
  {
    CategoryModel.ValidateFromBody(cast, user);
  }

  /** `validateStockUpdate`. The stock route mounts it, but `updateStock`
      never reads the validation result, so it guards nothing there. */
  predicate StockUpdateOk(stock: string) {
    IsIntIn(stock, Some(0), None)
  }

  /** A stock value that passes is the non-negative integer it spells, as
      `parseInt` reads it (a fact about the rule alone). */
  lemma StockUpdateValue(stock: string)
    requires StockUpdateOk(stock)
    ensures Strings.ParseInt(stock) == Some(IntValue(stock)) && IntValue(stock) >= 0
  {
    ParseIntOfIntSyntax(stock);
  }
}
