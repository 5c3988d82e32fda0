# Medicine storefront: catalogue, accounts and shop page

This project models the core of a medicine e-commerce application. An
Express/Mongoose server keeps two collections, medicines and categories. It
serves a filtered, sorted and paginated catalogue, keeps each category's
medicine count in step with the medicines that reference it, and
authenticates users who register and log in. A React client renders the shop
page: a search bar with toggling sort buttons, query-string state, a
pagination bar, category cards, the admin's user list, and a route guard that
checks roles.

How the server side is laid out:

- **Schemas.** `CategoryModel` and `MedicineModel` hold the Mongoose
  schemas. The `trim` setters are a normalisation, and validators
  are a predicate on the normalised document. The virtuals (discounted price,
  stock status, expiry status) and the static queries are functions.
- **Database.** `CatalogStore.Database` is a class whose `medicines` and
  `categories` sequences its methods reassign. Its invariant covers the
  schemas, unique ids and the unique category name. The saves, hooks and
  `findByIdAndUpdate` writes are methods on it.
- **Controllers.** `MedicineController`, `CategoryController` and
  `AuthController` hold the request handlers. The reads are functions of the
  collections and the query. The writes are methods that return the HTTP
  status the handler sends. `AuthController.UserAccounts` is the user
  collection as a class.
- **Validators.** `Validation` gives the express-validator rules as
  predicates on the strings the rules see.

How the client side is laid out:

- `ShopSearchParams` holds the query-string hook. `UpdateParams` is the loop
  over the updates, with its invariant.
- `Pagination` holds `getVisiblePages`, which is a method, and the pagination
  bar as a list of controls.
- `SearchBar`, `MedicineDataProvider`, `CategoryCards`, `UserManagement` and
  `ProtectedRoute` hold the pure pieces of those components.

Integers are unbounded. Prices are `real`. Timestamps are milliseconds passed
in as `now`. The clock, the network, hashing and token signing are
parameters, and so is the local-time end of the expiring-medicines window,
which is only bounded to within an hour of the exact number of days.

## Model

| member | source | states |
|---|---|---|
| MedicineModel.UnitName | server/src/models/Medicine.js:52-60 | every mass unit is spelled as one of the schema's enum strings |
| MedicineModel.ParseUnit | server/src/models/Medicine.js:52-60 | a string is accepted as a mass unit exactly when it is in the enum |
| MedicineModel.ParseUnitName | server/src/models/Medicine.js:52-60 | reading a unit's name gives back the unit (round trip) |
| MedicineModel.UnitNameOfParse | server/src/models/Medicine.js:52-60 | an accepted string is the name of the unit it reads as (round trip the other way) |
| MedicineModel.TrimAll | server/src/models/Medicine.js:102-106 | the tags setter trims every tag and keeps their number and order |
| MedicineModel.Validate | server/src/models/Medicine.js:3-120 | a save succeeds with the normalised document exactly when that document meets the schema; otherwise it is a validation error |
| MedicineModel.NormalizeTrimmed | server/src/models/Medicine.js:3-120 | the setters leave a document whose fields are already trimmed unchanged |
| MedicineModel.TrimTags | server/src/models/Medicine.js:102-106 | tags that are already trimmed are kept as they are |
| MedicineModel.ValidateStored | server/src/models/Medicine.js:3-120 | re-saving a stored medicine succeeds and changes nothing |
| MedicineModel.ValidateIdempotent | server/src/models/Medicine.js:3-120 | validating a validated medicine again gives the same result |
| MedicineModel.SchemaOfStamped | server/src/models/Medicine.js:3-120 | stamping an id and timestamps keeps a valid medicine valid |
| MedicineModel.FromBody | server/src/models/Medicine.js:40-101 | a field the body leaves out takes the schema default: discount 0, stock 0, unit tablet, image null, no prescription, active, not featured; `createdBy` is the caller |
| MedicineModel.DefaultsValidate | server/src/models/Medicine.js:40-101 | leaving out every defaulted field never makes an accepted body refused, and creates an active, unfeatured medicine with no stock, no discount, no image and unit tablet |
| MedicineModel.SchemaOfStock | server/src/models/Medicine.js:46-51 | a new stock keeps a medicine valid exactly when it is not negative |
| MedicineModel.PatchKeepsSchema | server/src/models/Medicine.js:3-120 | a patch that passes the update validators keeps a valid medicine valid |
| MedicineModel.SetTrimmed | server/src/models/Medicine.js:4-34 | a trimmed field set by a patch stays trimmed and within its length bounds |
| MedicineModel.SetTags | server/src/models/Medicine.js:102-106 | patched tags are trimmed and at most 30 characters long |
| MedicineModel.DiscountedPrice | server/src/models/Medicine.js:133-138 | no discount gives the unit price; a discount of 0-100% gives a price between 0 and the unit price; 100% gives 0 |
| MedicineModel.DiscountMonotone | server/src/models/Medicine.js:133-138 | a larger discount never gives a higher price |
| MedicineModel.StoredDiscountedPrice | server/src/models/Medicine.js:35-45 | for a stored medicine the discounted price is between 0 and the unit price |
| MedicineModel.StockStatusOf | server/src/models/Medicine.js:141-145 | out of stock iff the stock is 0, low iff it is nonzero and at most 10, in stock iff above 10 |
| MedicineModel.DaysUntil | server/src/models/Medicine.js:151 | `Math.ceil` of the milliseconds in days: the least d with ms <= d days |
| MedicineModel.ExpiryOfDays | server/src/models/Medicine.js:153-155 | expired iff the days are negative, expiring soon iff 0-30 days, valid iff more than 30 |
| MedicineModel.ExpiryStatusOf | server/src/models/Medicine.js:148-156 | the same three cases as bounds on the milliseconds left: expired iff at least a day ago |
| MedicineModel.LowStockMedicines | server/src/models/Medicine.js:211-216 | exactly the active medicines whose stock is at most the threshold (10 by default), in stored order |
| MedicineModel.ActiveMedicines | server/src/models/Medicine.js:203-205 | exactly the active medicines, in stored order |
| MedicineModel.FeaturedMedicines | server/src/models/Medicine.js:207-209 | exactly the active featured medicines, in stored order |
| MedicineModel.ExpiringMedicines | server/src/models/Medicine.js:218-226 | exactly the active medicines expiring no later than the window end, in stored order |
| MedicineModel.ExpiringWithinAMonth | server/src/models/Medicine.js:148-156 | with the default 30 calendar days, a listed medicine has at most 31 whole days left |
| MedicineModel.ExpiringAreNotValid | server/src/models/Medicine.js:148-156 | when no daylight-saving change lengthens the 30-day window, a listed medicine never has the expiry status "valid" |
| MedicineModel.DaylightSavingListsValid | server/src/models/Medicine.js:218-226 | across a change that adds an hour, a medicine expiring 30 days and 30 minutes ahead is listed yet "valid" |
| MedicineModel.SearchMedicines | server/src/models/Medicine.js:228-256 | exactly the medicines that match every given filter, in stored order and each as often as stored; all are active; with both price bounds, the price is within them |
| CategoryModel.Validate | server/src/models/Category.js:3-55 | a save succeeds with the normalised category exactly when it meets the schema; otherwise it is a validation error |
| CategoryModel.ValidateStored | server/src/models/Category.js:3-55 | re-saving a stored category succeeds and changes nothing |
| CategoryModel.NormalizeStored | server/src/models/Category.js:4-33 | the setters leave trimmed names, descriptions and icons unchanged |
| CategoryModel.ValidateIdempotent | server/src/models/Category.js:3-55 | validating a validated category again gives the same result |
| CategoryModel.SchemaOfStamped | server/src/models/Category.js:71-77 | stamping an id, a medicine count and timestamps keeps a valid category valid |
| CategoryModel.FromBody | server/src/models/Category.js:18-45 | a field the body leaves out takes the schema default: image null, icon "Package", active, sort order 0; `createdBy` is the caller |
| CategoryModel.DefaultsValidate | server/src/models/Category.js:18-45 | leaving out the image, icon, `isActive` and `sortOrder` never makes an accepted body refused, and creates an active category with the "Package" icon and sort order 0 |
| CategoryModel.ValidateFromBody | server/src/models/Category.js:3-45 | a body whose trimmed name and description fit the schema's lengths and whose image is empty or an image URL is accepted; an icon left out is "Package" |
| CategoryModel.SchemaOfCount | server/src/models/Category.js:90-99 | storing a recomputed count keeps a valid category valid |
| CategoryModel.PatchKeepsSchema | server/src/controllers/categoryController.js:140-151 | a patch that passes the update validators keeps a valid category valid |
| CategoryModel.DeactivateOnlyDeactivates | server/src/controllers/categoryController.js:199-210 | the soft-delete patch passes the validators and changes only `isActive` and the timestamp |
| CategoryModel.SortOrderLeTotal | server/src/models/Category.js:81 | ordering by `sortOrder` and then by name is total |
| CategoryModel.Ordered | server/src/models/Category.js:81 | the categories, permuted into `sortOrder`-then-name order |
| CategoryModel.ActiveCategories | server/src/models/Category.js:80-82 | exactly the active categories, each as often as stored, in `sortOrder`-then-name order |
| Documents.ImageUrlIgnoresCase | server/src/models/Medicine.js:61-71 | the image URL check does not depend on letter case |
| Documents.ImageUrlLength | server/src/models/Medicine.js:61-71 | an accepted image URL has at least 12 characters |
| CatalogStore.IndexOf | server/src/controllers/medicineController.js:227-232 | `findById` finds the document holding the key, and finds nothing exactly when no document holds it |
| CatalogStore.IndexOfUnique | server/src/models/Category.js:7 | under a unique key, the lookup finds the one document holding it |
| CatalogStore.NextId | server/src/controllers/categoryController.js:85-91 | a new document's id is larger than every stored id, so it is fresh |
| CatalogStore.ActiveCount | server/src/models/Category.js:92-95 | counts the active medicines of a category; never more than there are medicines |
| CatalogStore.IncCount | server/src/models/Medicine.js:161-167 | `$inc` adds the delta to the count of the category with the id and leaves every other category as it was |
| CatalogStore.Recounted | server/src/models/Category.js:90-99 | the recounted category holds the active count, its `updatedAt` moves only when the count changes, and the others are unchanged |
| CatalogStore.WithStock | server/src/models/Medicine.js:259-270 | the stock set and saved: the new stock, and `updatedAt` moved only when the stock changed |
| CatalogStore.WithStockIdempotent | server/src/models/Medicine.js:259-263 | setting the same stock again, at any later time, changes nothing |
| CatalogStore.RecountIdempotent | server/src/models/Category.js:90-99 | recounting twice with the same medicines, at any later time, is the same as recounting once |
| CatalogStore.Database.constructor | server/src/models/Medicine.js:3-120 | the database starts empty and valid |
| CatalogStore.Database.IncMedicineCount | server/src/models/Medicine.js:161-167 | applies `IncCount` and keeps the invariant |
| CatalogStore.Database.SaveNewMedicine | server/src/models/Medicine.js:159-167 | a schema refusal changes nothing; otherwise the validated medicine is appended with a fresh id and its category's count goes up by one |
| CatalogStore.Database.InsertMedicine | server/src/models/Medicine.js:159-167 | appends the medicine and increments its category's count |
| CatalogStore.Database.RemoveMedicine | server/src/models/Medicine.js:192-200 | reports whether the id exists; removes that medicine and decrements its category's count, or changes nothing |
| CatalogStore.Database.UpdateStock | server/src/models/Medicine.js:259-263 | fails with a validation error and no change exactly when the new stock is negative; otherwise only that medicine changes, to `WithStock` of it |
| CatalogStore.Database.ReduceStock | server/src/models/Medicine.js:265-272 | "Insufficient stock" and no change exactly when the stock is below the quantity; otherwise the stock drops by the quantity, and the timestamp moves only if the stock did |
| CatalogStore.Database.UpdateMedicineById | server/src/controllers/medicineController.js:219-232 | the validators run first and refuse with no change; an unknown id is not found; otherwise only that medicine is replaced by the patched one |
| CatalogStore.Database.SaveNewCategory | server/src/controllers/categoryController.js:85-91 | a schema refusal or a taken name changes nothing; otherwise the category is appended with a fresh id and a count of 0 |
| CatalogStore.Database.InsertCategory | server/src/models/Category.js:7 | a duplicate name is a duplicate-key error and changes nothing; otherwise the category is appended |
| CatalogStore.Database.UpdateCategoryById | server/src/controllers/categoryController.js:140-151 | validation error iff the patch fails the validators; not found iff the id is unknown; duplicate key iff another category holds the new name; otherwise only that category changes |
| CatalogStore.Database.UpdateMedicineCount | server/src/models/Category.js:90-99 | returns the active count and stores it in that category (`Recounted`); medicines unchanged |
| CatalogStore.Database.ReplaceMedicine | server/src/models/Medicine.js:259-263 | writes one medicine back in place and keeps the invariant |
| CatalogStore.Database.ReplaceCategory | server/src/models/Category.js:97 | writes one category back in place and keeps the invariant |
| MedicineController.FieldLeTotal | server/src/controllers/medicineController.js:59-60 | comparing two medicines on any sort field is total |
| MedicineController.SortLeTotal | server/src/controllers/medicineController.js:59-60 | the ascending and the descending order are both total |
| MedicineController.SortBy | server/src/controllers/medicineController.js:59-70 | `.sort()` returns a permutation of the matches that is ordered on the field |
| MedicineController.UnsortedKeepsOrder | server/src/controllers/medicineController.js:59-60 | in the model, a sort on a field the documents do not have ties every medicine and so returns the stored order |
| MedicineController.PriceSortKeepsOrder | client/src/components/ShopPage/SearchBar.jsx:49 | the shop's "price" sort names no medicine field, so in the model the listing comes back in stored order |
| MedicineController.Slice | server/src/controllers/medicineController.js:63-70 | `skip`/`limit` gives the documents from the skip onwards, at most the absolute limit of them; a limit of 0 means no limit |
| MedicineController.SliceSorted | server/src/controllers/medicineController.js:66-70 | a slice of a sorted list is sorted |
| MedicineController.CeilDiv | server/src/controllers/medicineController.js:84 | `Math.ceil(total / limit)`: the least number of pages of `limit` that hold `total` |
| MedicineController.Selected | server/src/controllers/medicineController.js:23-60 | exactly the medicines that match the filter, sorted as the query asks; their number is the count `countDocuments` gives |
| MedicineController.PageOf | server/src/controllers/medicineController.js:63-85 | the listing echoes page, limit and total; its medicines are the matches from offset (page-1)*limit, at most the absolute limit of them; pages is the ceiling (none for limit 0) |
| MedicineController.GetMedicines | server/src/controllers/medicineController.js:8-96 | 500 exactly when page or limit is not a number or the skip is negative; otherwise the page of the selected medicines |
| MedicineController.PageSorted | server/src/controllers/medicineController.js:66-70 | a page cut from a sorted list is sorted |
| MedicineController.ListingSorted | server/src/controllers/medicineController.js:59-70 | a successful listing is ordered on the requested field and direction |
| MedicineController.ListedMatch | server/src/controllers/medicineController.js:23-56 | every listed medicine is stored, active and matches the filters, including the prescription flag and the price range |
| MedicineController.DefaultListing | server/src/controllers/medicineController.js:10-21 | with no page or limit the listing succeeds as page 1 of 10 |
| MedicineController.GetFeatured | server/src/controllers/medicineController.js:288-315 | 500 iff the limit is not a number; otherwise active featured medicines, newest first, at most the limit, each at most as often as stored, and none left out is newer than one shown |
| MedicineController.NewestFeatured | server/src/controllers/medicineController.js:292-298 | the newest active featured medicines first, as many as the limit allows (all for 0), none repeated beyond its stored count, none left out newer than one kept |
| MedicineController.GetByCategory | server/src/controllers/medicineController.js:320-379 | 404 exactly when the category id is unknown; otherwise the general listing with the category filter and the request's page, limit and sort; listed medicines are active and of that category |
| MedicineController.CategoryListingComplete | server/src/controllers/medicineController.js:320-379 | a found category's listing selects exactly its active medicines, and its total is their count |
| MedicineController.GetLowStock | server/src/controllers/medicineController.js:384-411 | exactly the active medicines at or below the threshold (10 by default), by ascending stock |
| MedicineController.LowStockIsModelQuery | server/src/models/Medicine.js:211-216 | the endpoint returns the same medicines as the model's `getLowStockMedicines` |
| MedicineController.InactiveNotListed | server/src/controllers/medicineController.js:24 | a soft-deleted medicine is never in the listing, the featured list or the low-stock list |
| MedicineController.CreateMedicine | server/src/controllers/medicineController.js:137-185 | 400 when the request is invalid or the category is unknown; 500 when the schema refuses the body with its defaults; else 201 with the validated medicine appended under a fresh id and its category's count incremented; nothing changes otherwise |
| MedicineController.UpdateMedicine | server/src/controllers/medicineController.js:190-249 | 400 when invalid or the new category is unknown; 500 when the update validators refuse; 404 for an unknown id; else 200 with only that medicine patched and the editor recorded |
| MedicineController.DeleteMedicine | server/src/controllers/medicineController.js:254-283 | 404 for an unknown id; otherwise 200 with the record kept but marked inactive and stamped with the editor (a soft delete) |
| MedicineController.UpdateStock | server/src/controllers/medicineController.js:416-456 | 400 for a negative stock, 500 for a stock no cast makes a number, 404 for an unknown id; else 200 with the stock set to the value sent (kept when the body has none) and the editor recorded; the route's validator is not consulted |
| CategoryController.GetCategories | server/src/controllers/categoryController.js:8-33 | a category is listed iff it is stored and, with `active=true`, active; each as often as stored; in `sortOrder`-then-name order |
| CategoryController.AbsentActiveListsInactive | server/src/controllers/categoryController.js:10-12 | without `active=true` inactive categories are listed as well; with it they are not |
| CategoryController.StatsOf | server/src/controllers/categoryController.js:242-263 | the total is the active count; low stock, out of stock and featured are the counts of their queries; out of stock <= low stock <= total; featured <= total |
| CategoryController.GetCategoryStats | server/src/controllers/categoryController.js:229-299 | 404 iff no category has the id; otherwise that category and its counts |
| CategoryController.StatsTotalIsMedicineCount | server/src/controllers/categoryController.js:242-247 | the statistics' total equals the count `updateMedicineCount` stores |
| CategoryController.CreateCategory | server/src/controllers/categoryController.js:73-120 | 400 when invalid; 500 when the schema refuses the body with its defaults; 409 for a taken name; else 201 with the category appended |
| CategoryController.UpdateCategory | server/src/controllers/categoryController.js:125-177 | 400 when invalid; 500 when the validators refuse; 404 unknown; 409 when another category holds the name; else 200 with only that category changed |
| CategoryController.DeleteCategory | server/src/controllers/categoryController.js:182-224 | 400 and no change while any active medicine references the category; else 404 or 200 with only `isActive` cleared |
| CategoryController.UpdateMedicineCount | server/src/controllers/categoryController.js:304-337 | 404 for an unknown id; else 200 with the active count, stored in that category alone |
| AuthController.RoleOrDefault | server/src/controllers/authController.js:37 | a missing or empty role becomes "user"; any other role is kept |
| AuthController.NewUser | server/src/controllers/authController.js:33-50 | a fresh id, the given email, the trimmed name, the defaulted role, active, unlocked, no failed attempts |
| AuthController.RegisteredRoleKnown | server/src/controllers/authController.js:33-40 | a registration that passes validation creates a user whose role is user, seller or admin |
| AuthController.LoginReply | server/src/controllers/authController.js:74-157 | 200 iff the email is known, the account is unlocked and active and the password matches; 423 iff it is locked; every other case is 401 |
| AuthController.LoginEffect | server/src/controllers/authController.js:115-134 | a wrong password adds a failed attempt; success resets the attempts and records the login; nothing else changes |
| AuthController.GuardsPrecedePassword | server/src/controllers/authController.js:99-112 | for a locked or inactive account the reply does not depend on the password and nothing is written |
| AuthController.UnknownEmailLikeWrongPassword | server/src/controllers/authController.js:89-125 | an unknown email and a wrong password give the same 401 reply |
| AuthController.RefreshStatus | server/src/controllers/authController.js:324-384 | 200 iff the token is given, verifies as a refresh token and names an active user; 400 for a missing token or another token type; 401 when it does not verify or names a missing or inactive user |
| AuthController.AccessTokenRefused | server/src/controllers/authController.js:341-346 | an access token is refused with 400 |
| AuthController.UserAccounts.constructor | server/src/controllers/authController.js:9-69 | no users at first |
| AuthController.UserAccounts.Register | server/src/controllers/authController.js:9-69 | 400 when invalid; 409 for a taken email; else 201 with `NewUser` appended |
| AuthController.UserAccounts.Login | server/src/controllers/authController.js:74-157 | 400 when invalid; otherwise the reply is `LoginReply` and the users become `LoginEffect` |
| AuthController.UserAccounts.ChangePassword | server/src/controllers/authController.js:269-319 | 400 when invalid; 404 unknown user; 400 wrong current password; else 200 with only that password replaced |
| Validation.FirstLine | server/src/middleware/validation.js:20 | the part of the input before any line terminator, which the password pattern's lookaheads scan |
| Validation.StrongPasswordSingleLine | server/src/middleware/validation.js:17-21 | on one line, a password passes iff it has at least 6 characters, a lower-case letter, an upper-case letter and a digit |
| Validation.PhonePlus | server/src/middleware/validation.js:28-31 | a leading '+' makes no difference to the phone check |
| Validation.PhoneLength | server/src/middleware/validation.js:28-31 | an accepted phone number has 1 to 17 characters |
| Validation.IntSyntaxOfIntToString | server/src/middleware/validation.js:160-170 | every integer's decimal form passes `isInt` syntax with its own value |
| Validation.ParseIntOfIntSyntax | server/src/middleware/validation.js:160-170 | a value `isInt` accepts reaches `parseInt` as the number it spells |
| Validation.RegisteredRole | server/src/middleware/validation.js:23-26 | a registration that passes has a role the account can hold, given or defaulted |
| Validation.PaginationOfNumbers | server/src/middleware/validation.js:160-170 | for plain numbers, pagination passes iff page >= 1 and 1 <= limit <= 100 |
| Validation.PriceIsNotASortField | server/src/middleware/validation.js:357-360 | the shop's "price" sort key fails the listing's sort validator |
| Validation.MassUnitsAgree | server/src/middleware/validation.js:240-243 | the validator's mass-unit list is the schema's enum |
| Validation.MedicineNumbers | server/src/middleware/validation.js:227-243 | a medicine body that passes has a non-negative price, a 0-100 discount, a non-negative stock and a known unit |
| Validation.CategoryOkSaves | server/src/middleware/validation.js:285-316 | a category body whose fields passed the rules is accepted by the schema, with the "Package" icon when it gives none |
| Validation.StockUpdateValue | server/src/middleware/validation.js:321-325 | an accepted stock is the non-negative integer it spells; `updateStock` never reads this rule's result |
| Strings.ParseIntOfIntToString | server/src/controllers/medicineController.js:10-21 | `parseInt` reads back every integer's decimal form |
| Strings.TrimIdempotent | server/src/models/Medicine.js:4-10 | the `trim` setter is idempotent |
| Strings.LowerIdempotent | client/src/components/CategoryCards.jsx:42 | `toLowerCase` is idempotent: lower-casing a lower-cased name changes nothing |
| Pagination.Window | client/src/components/ShopPage/Pagination.jsx:20-50 | up to 5 consecutive pages within 1..totalPages that include the current page |
| Pagination.GetVisiblePages | client/src/components/ShopPage/Pagination.jsx:20-50 | the loop builds exactly `Window` |
| Pagination.Leading | client/src/components/ShopPage/Pagination.jsx:71-83 | a first-page button iff the window starts after page 1; an ellipsis iff it starts after page 2 |
| Pagination.Buttons | client/src/components/ShopPage/Pagination.jsx:86-98 | one button per visible page, in order |
| Pagination.Trailing | client/src/components/ShopPage/Pagination.jsx:101-113 | a last-page button iff the window ends before the last page; an ellipsis iff it ends before the page before that |
| Pagination.ControlsWellFormed | client/src/components/ShopPage/Pagination.jsx:71-113 | the bar runs from page 1 to the last page, and an ellipsis stands exactly where pages are skipped |
| Pagination.Render | client/src/components/ShopPage/Pagination.jsx:12-117 | nothing for one page or fewer; otherwise a well-formed bar, Previous disabled iff on page 1, Next iff on the last page, and a "Showing" range that does not pass the total |
| Pagination.BarIncreasing | client/src/components/ShopPage/Pagination.jsx:71-113 | page numbers strictly increase along the bar |
| MedicineDataProvider.OrElse | client/src/components/ShopPage/MedicineDataProvider.jsx:30-31 | `x \|\| fallback`: the value unless it is missing or 0 |
| MedicineDataProvider.Summarize | client/src/components/ShopPage/MedicineDataProvider.jsx:28-34 | the pages and total are the response's (1 and 0 when absent); the shown range starts at (page-1)*10, ends at the page end or the total, and spans at most 10; the page count is never 0 (an absent `pages` gives 1; any other value, negative included, is passed through) |
| MedicineDataProvider.ShownMedicines | client/src/components/ShopPage/MedicineDataProvider.jsx:46 | the medicines from the response, or none |
| MedicineDataProvider.ShowingOfExistingPage | client/src/components/ShopPage/MedicineDataProvider.jsx:28-34 | for an existing page the summary shows a non-empty range within the total |
| ShopSearchParams.GetOr | client/src/hooks/useSearchParams.js:7-12 | a non-empty parameter, else the fallback |
| ShopSearchParams.PageOf | client/src/hooks/useSearchParams.js:11 | the page parameter as read, 1 when it is absent; never 0 |
| ShopSearchParams.Applied | client/src/hooks/useSearchParams.js:18-24 | after the given keys are applied, a key is present iff its update sets it, or it was not updated and was present before |
| ShopSearchParams.UpdateRules | client/src/hooks/useSearchParams.js:14-33 | an update sets or clears the keys it names; when it names `search`, `sortBy` or `sortOrder` with a value other than `undefined`, the page becomes "1", and otherwise a `page` it names is set like any other key; every key it does not name is kept |
| ShopSearchParams.UpdateParams | client/src/hooks/useSearchParams.js:14-33 | the loop computes exactly `Updated` |
| ShopSearchParams.AppliedStep | client/src/hooks/useSearchParams.js:18-24 | applying one more key is one map update, which is the loop's invariant step |
| ShopSearchParams.SetSearch | client/src/hooks/useSearchParams.js:35-37 | the search is set and the page goes back to 1; sort and every other key are kept |
| ShopSearchParams.SetSort | client/src/hooks/useSearchParams.js:39-41 | the sort field and order are set (defaults for empty), the page goes back to 1, and the search and other keys are kept |
| ShopSearchParams.SortParams | client/src/hooks/useSearchParams.js:39-41 | the sort update sets both sort keys and resets the page |
| ShopSearchParams.SortKeeps | client/src/hooks/useSearchParams.js:39-41 | the sort update leaves every other key unchanged |
| ShopSearchParams.SetPage | client/src/hooks/useSearchParams.js:43-45 | only the page changes (0 reads back as 1) |
| ShopSearchParams.PageReadBack | client/src/hooks/useSearchParams.js:43-45 | the page `setPage` writes reads back as that number, 1 for 0 |
| ShopSearchParams.PageKeepsOthers | client/src/hooks/useSearchParams.js:43-45 | `setPage` leaves every other key as it was |
| SearchBar.HandleSort | client/src/components/ShopPage/SearchBar.jsx:11-17 | clicking the current field flips the order; a new field sorts ascending |
| SearchBar.ClickTwice | client/src/components/ShopPage/SearchBar.jsx:11-17 | two clicks on the current field restore the order |
| SearchBar.ClickIsReadBack | client/src/components/ShopPage/SearchBar.jsx:11-17 | the click's field and order are what the query string then reads |
| ProtectedRoute.DashboardFor | client/src/components/ProtectedRoute.jsx:16-17 | "/admin" iff the role is admin, "/seller" iff seller, else "/user" |
| ProtectedRoute.Guard | client/src/components/ProtectedRoute.jsx:9-21 | the page shows iff the user is signed in and holds the required role, if any; signed-out users go to "/login"; others go to their dashboard |
| UserManagement.FilteredUsers | client/src/components/admin/UserManagement.jsx:81-86 | exactly the users matching the search and the role filter, in order, each as often as in the table |
| UserManagement.NoFilterKeepsAll | client/src/components/admin/UserManagement.jsx:81-86 | with no search and "all" roles every user is shown |
| UserManagement.NewStatus | client/src/components/admin/UserManagement.jsx:146 | toggling: "inactive" iff the status was "active" |
| UserManagement.ToggleTwice | client/src/components/admin/UserManagement.jsx:146 | toggling twice restores the status |
| UserManagement.Stats | client/src/components/admin/UserManagement.jsx:314-355 | the total is the number of users; active, sellers and admins are the counts of those users; each count is at most the total; sellers plus admins are at most the total |
| UserManagement.SellersAndAdmins | client/src/components/admin/UserManagement.jsx:341-355 | sellers and admins together never exceed the users |
| CategoryCards.DashRuns | client/src/components/CategoryCards.jsx:42 | each run of whitespace becomes one dash, so the result has no whitespace |
| CategoryCards.Slug | client/src/components/CategoryCards.jsx:42 | a link slug has no whitespace, is no longer than the name, and without its dashes is the lower-cased name without whitespace |
| CategoryCards.DashRunsOfRun | client/src/components/CategoryCards.jsx:42 | a run of whitespace between two words becomes exactly one dash |
| CategoryCards.SlugOfRun | client/src/components/CategoryCards.jsx:42 | the slug of two parts joined by a whitespace run is their slugs joined by one dash |
| CategoryCards.SlugIsLower | client/src/components/CategoryCards.jsx:42 | a slug is already lower case |
| CategoryCards.SlugIdempotent | client/src/components/CategoryCards.jsx:42 | slugging a slug changes nothing |
| CategoryCards.IconFor | client/src/components/CategoryCards.jsx:7-24 | each of the five named categories, in any case, gets its icon; all others get the pill |
| CategoryCards.IconIgnoresCase | client/src/components/CategoryCards.jsx:7-24 | the icon does not depend on letter case |
| CategoryCards.CountLabel | client/src/components/CategoryCards.jsx:74 | "Medicine" iff the count is 1, otherwise "Medicines" |

## Left out

- Floating-point arithmetic is not modelled. Prices are `real`, and `parseFloat` is modelled only as "a number was read". `averagePrice` in `getCategoryStats` is not modelled.
- Letter case: `toLowerCase` and case-insensitive matching cover ASCII letters only.
- MedicineModel.Schema: lengths count characters. Mongoose's `minlength`/`maxlength` count UTF-16 code units, so a character outside the Basic Multilingual Plane counts 2 there and 1 here.
- CategoryModel.Schema: lengths count characters, not UTF-16 code units, as for `MedicineModel.Schema`.
- TrimmedLengthIn: express-validator's `isLength` does not count the variation selectors U+FE0E and U+FE0F, and it counts a character outside the Basic Multilingual Plane once; the model counts every character once, variation selectors included.
- StrongPassword: its length check is the same `isLength`, so it too counts U+FE0E and U+FE0F, which express-validator does not.
- The `$regex` filters on search and company: the pattern is taken as a literal substring, not a regular expression.
- The `$text` search index is a parameter (`textMatches`), not a model of Mongo's tokenizer.
- Hashing: bcrypt is replaced by comparing the stored password for equality.
- Tokens: JWT signing and verification are replaced by the `decoded` claims parameter.
- The User model's `incLoginAttempts` and lock timing are not modelled. `locked` is a stored flag, and a failed attempt adds one.
- These validators are not modelled: email, URL, MongoId and ISO 8601, plus `normalizeEmail`. The email passed to the auth methods is the normalised one.
- Several handlers take a `validated` flag in place of `validationResult`: createMedicine, updateMedicine, createCategory, updateCategory and login. How their rule chains decide is modelled separately in `Validation`.
- The `catch` paths that turn an unexpected exception into a 500 are left out. Only the 500s the model can name are kept: a NaN page or limit in getMedicines and getFeaturedMedicines, a negative skip, and a schema refusal in createMedicine, updateMedicine, createCategory and updateCategory.
- Mongo cast errors on malformed ids are left out; ids are integers.
- `populate` of the category name, and the response bodies apart from what the contracts state.
- The pre-save branch for a changed category (server/src/models/Medicine.js:170-186) is left out. Updates go through `findByIdAndUpdate`, which does not run save hooks, and `_previousCategory` is never set.
- Sorting on array or optional fields: these are treated as ties.
- Non-integer stock values are not modelled; stock is an integer.
- UpdateStock: a body without `stock` is modelled as Mongoose dropping the `undefined` key, so the stock is kept; a Mongoose version that writes `null` instead would clear it, and the version is not fixed by the repository.
- Query-string key order in `URLSearchParams` is not modelled; a query is a map.
- getMedicineById, getCategoryById, logout, getProfile and updateProfile are not part of this model.
- The address in `register` is not part of this model.
- A failing user save in `register` is not modelled, because the User schema is not part of this model.
- `NewUser`: `lastLogin` is set to the registration time, as the handler does before answering.
- React rendering, routing state and network requests are left out. Only the functions the components compute are modelled.
- UnsortedKeepsOrder: ties, including every sort on a key no document has, come back in stored order in the model; MongoDB leaves their order unspecified.
- PriceSortKeepsOrder: the stored order is the model's tie order; MongoDB leaves the order of a sort on a missing key unspecified.
- ExpiringAreNotValid: holds only when no daylight-saving change lengthens the 30 calendar days of `setDate`; `DaylightSavingListsValid` shows a listed "valid" medicine when one does. The time zone is a bound of one hour on the window end (`CalendarWindowEnd`), not a model of local time.
