# maxicoffee-admin core, modelled in Dafny

This project models the data layer and three pages of the maxicoffee admin console.

- **Data sources.** There are five, for products, orders, discounts, categories and add-ons. Each keeps a local mirror of its collection.
  - `getMany` fetches the collection and projects each row into the grid's columns. It then overwrites the mirror with the result. Finally it filters clause by clause, sorts by the sort model and cuts out one page.
  - `createOne`, `updateOne` and `deleteOne` read, change and write the mirror.
  - An unexported helper per entity patches the server first. It then merges into the mirror, or falls back to the local merge when the server fails.
  - `validate` is a zod object schema.
- **The order page.** It shows an order's subtotal and offers three buttons: "Mark as Ready", "Verify ID" (which takes the discount off the total) and "Check out". Together they move the order from pending to ready to completed.
- **The add-on pages.** The edit form maps the loaded add-on's applicable categories to their `_id`s. The checkboxes of both forms toggle category ids, and the create form resets after a successful submit.
- **The dashboard.** It chooses which sales and product data set to show. It builds the CSV export and refetch URLs and the export filenames, and offers the last five years.

Modules:

| file | module | contents |
|---|---|---|
| `wrappers.dfy` | `Wrappers` | `Option`, `Result` |
| `text.dfy` | `Text` | lower-casing, substring search, digits, `split`/`join` |
| `values.dfy` | `JsValues` | JavaScript values, `===`, truthiness, `String(v)`, `<`, `Number(v)`, `??`, `?.` |
| `query.dfy` | `QueryEngine` | the filter, sort and page steps `getMany` applies to the mirror |
| `mirror.dfy` | `EntitySource` | projections, and the class `DataSource` with the mirror and the CRUD methods |
| `validation.dfy` | `Validation` | the five schemas and the issues zod reports |
| `order_workflow.dfy` | `OrderFulfilment` | subtotal, button guards, transitions, and the class `OrderPage` |
| `addon_form.dfy` | `AddonForm` | category toggle, and the classes `EditForm` and `CreateForm` |
| `dashboard.dfy` | `Dashboard` | data-set choice, URLs, filenames, year options |

The model follows the code in four places where the code behaves otherwise than one would expect:

- **Order transitions.** The order page applies its transitions even when the server call fails. `orders.api.js` catches the error and returns `null`, so the page's own `catch` never runs. One would expect a failed call to leave the order unchanged.
- **`createOne`.** It never calls the server, where one would expect the server to issue the key. It synthesises the key locally, as one more than the largest key in the mirror.
- **`updateOne`.** It is local only, where one would expect the server to be patched first. The remote-first helper is defined but not exported.
- **Delete on products.** One would expect a delete to drop one entry and leave the rest as they were. Instead, `deleteOne` on products re-projects the mirror, reading each entry's `category` as an object's `.name`.

## Model

| member | source | states |
|---|---|---|
| JsValues.Coalesce | src/data/order.jsx:214-217 | `a ?? b` is `b` exactly when `a` is `null` or `undefined`, and `a` otherwise |
| JsValues.Member | src/data/product.jsx:114 | a property read throws a TypeError exactly when the object is `null` or `undefined` |
| JsValues.OptionalMember | src/data/order.jsx:108 | `v?.name` is `undefined` on a nullish `v` and the property's value otherwise |
| JsValues.LessTrichotomy | src/data/product.jsx:150-156 | on two numbers, two strings or two booleans, `<` is a strict total order: exactly one of a<b, a=b, b<a |
| JsValues.LessTransitive | src/data/product.jsx:150-156 | `<` is transitive |
| JsValues.NumberValue | src/data/product.jsx:197 | `Number(v)` is a number or NaN, and leaves a number unchanged |
| Text.IncludesIffOccurs | src/data/product.jsx:131 | `includes` holds exactly when the substring occurs at some position |
| Text.JoinSplit | src/features/addons/pages/createAddon.jsx:68 | joining the pieces of `split(",")` with commas gives back the string |
| Text.SplitJoin | src/features/addons/pages/createAddon.jsx:68 | splitting comma-joined comma-free pieces gives back the pieces |
| Text.ParseNatText | src/features/dashboard/pages/showDashboard.jsx:64 | the decimal text of a natural number reads back as that number |
| QueryEngine.KeepHolding | src/data/product.jsx:127-145 | one `filter` keeps exactly the rows the clause holds for, each with all its copies and no other row |
| QueryEngine.KeepHoldingAppend | src/data/product.jsx:127-145 | `filter` keeps order: filtering a concatenation is the concatenation of the filtered parts |
| QueryEngine.KeepHoldingOne | src/data/product.jsx:127-145 | one row is kept exactly when the clause holds for it |
| QueryEngine.Select | src/data/product.jsx:123-147 | the reference filter keeps every copy of each row that passes every clause and nothing else |
| QueryEngine.SelectAppend | src/data/product.jsx:123-147 | the selection keeps order: selecting from a concatenation concatenates the selections |
| QueryEngine.SelectOne | src/data/product.jsx:123-147 | one row is selected exactly when it passes every clause; with SelectAppend this makes the selection the subsequence of passing rows |
| QueryEngine.FilterAllIsConjunction | src/data/product.jsx:123-147 | filtering clause by clause equals keeping the rows that pass all clauses; clauses without a field or with a null value pass everything |
| QueryEngine.ApplyClauseSelect | src/data/product.jsx:124-146 | one more clause keeps, of the rows kept so far, those that pass it |
| QueryEngine.SelectNone | src/data/product.jsx:123 | with no clauses every row is kept, in order |
| QueryEngine.ContainsMeansSubstring | src/data/product.jsx:130-131 | `contains` holds exactly when the lower-cased `String` of the value occurs in that of the field |
| QueryEngine.Compare | src/data/product.jsx:150-156 | the comparator answers -1, 0 or 1 |
| QueryEngine.CompareFlip | src/data/product.jsx:150-156 | swapping the rows negates the comparator |
| QueryEngine.CompareZero | src/data/product.jsx:150-156 | on comparable keys, the comparator is 0 exactly when the rows agree on every sort field |
| QueryEngine.CompareTransitive | src/data/product.jsx:150-156 | on comparable keys, "not after" is transitive |
| QueryEngine.Insert | src/data/product.jsx:149-157 | inserting one row adds exactly that row to the multiset |
| QueryEngine.SortRows | src/data/product.jsx:149-157 | the sort is a permutation of the filtered rows |
| QueryEngine.InsertSorted | src/data/product.jsx:149-157 | inserting into a sorted sequence keeps it sorted |
| QueryEngine.SortRowsSorted | src/data/product.jsx:149-157 | when every sort field holds values `<` can order, the result is sorted by the comparator |
| QueryEngine.InsertStable | src/data/product.jsx:149-157 | insertion places a row after every row that compares equal to it |
| QueryEngine.SortRowsStable | src/data/product.jsx:149-157 | the sort is stable: rows comparing equal keep their relative order |
| QueryEngine.Slice | src/data/product.jsx:159-161 | `slice(start, end)` has `min(end, len) - start` items, item j being row start+j |
| QueryEngine.Paginate | src/data/product.jsx:159-166 | `itemCount` is the number of filtered rows; the page has at most pageSize items, item j being row page*pageSize+j |
| QueryEngine.PaginateCovers | src/data/product.jsx:159-161 | every row i appears, at position i mod n, on page i div n of size n |
| QueryEngine.EvaluateContract | src/data/product.jsx:123-166 | the page counts the rows passing the filters, holds at most pageSize of them, and every item is a row that passes every clause |
| EntitySource.StatusLabel | src/data/product.jsx:116 | the status is "available" exactly when `available` is truthy, and "unavailable" otherwise |
| EntitySource.ProductRow | src/data/product.jsx:110-118 | the product projection throws exactly when `category` is nullish; otherwise it sets `id` to `_id`, keeps every other remote field and adds only the projected columns |
| EntitySource.OrderRow | src/data/order.jsx:105-111 | the order projection sets `id` to `_id`, keeps every other field and adds only id, name, status and date |
| EntitySource.DiscountRow | src/data/discount.jsx:68-74 | the discount projection sets `id` to `_id`, keeps every other field and adds only its four columns |
| EntitySource.CategoryRow | src/data/category.jsx:73-78 | the category projection sets `id` to `_id`, keeps every other field and adds only id, name and createdAt |
| EntitySource.AddonRow | src/data/addon.jsx:64-67 | the add-on projection adds `id` as `_id` and keeps every other field |
| EntitySource.Project | src/data/product.jsx:110-118 | a projection fails only for a product without a category; otherwise `id` is `_id`, unprojected fields are kept and nothing else is added |
| EntitySource.ProjectProduct | src/data/product.jsx:110-118 | a product row shows the category's name, `basePrice` as price, and the status label of `available` |
| EntitySource.ProjectOrder | src/data/order.jsx:105-111 | an order row shows `user?.name` as name, `createdAt` as date, and its status |
| EntitySource.ProjectAll | src/data/product.jsx:110-118 | `map` over the rows succeeds exactly when every row projects, and gives each row's projection in order |
| EntitySource.FailedFetchEmpties | src/data/product.jsx:7-15 | a failed fetch reads as no rows: an empty mirror and an empty page with count 0 |
| EntitySource.MaxKey | src/data/product.jsx:182 | the reduce with `Math.max` from 0 is a number exactly when every key is one; it is then at least 0 and at least every key |
| EntitySource.MaxKeyAttained | src/data/product.jsx:182 | the reduce's result is the starting 0 or some entry's key |
| EntitySource.NextKeyIsOnePlusMax | src/data/product.jsx:181-184 | the synthesized key is a number exactly when every key is one, and then equals 1 + max(0, keys) |
| EntitySource.NextKeyFresh | src/data/product.jsx:181-184 | a numeric synthesized key is at least 1 and differs from every entry's key, also after `Number(...)` |
| EntitySource.NewRecord | src/data/product.jsx:181-184 | the new entry has the caller's fields; its key is the caller's when given, and the synthesized one otherwise |
| EntitySource.Merge | src/data/product.jsx:198 | `{...row, ...patch}` takes each patched field from the patch and every other field from the row |
| EntitySource.MergeWhere | src/data/product.jsx:196-202 | the mapped mirror has the same length; matching entries are merged and the rest are unchanged |
| EntitySource.LastIndexCorrect | src/data/product.jsx:196-204 | the index found is -1 exactly when nothing matches; otherwise it matches and no later entry does |
| EntitySource.LastMergedIsLast | src/data/product.jsx:194-204 | the returned entry is the merge of the last matching entry, or none when nothing matches |
| EntitySource.StringIdsNeverMatchLocally | src/data/product.jsx:197 | a product or order whose `id` is a string (a server `_id`) is never matched by the local update, whatever the argument |
| EntitySource.NormaliseOrder | src/data/order.jsx:212-218 | delete-time normalisation sets id, name and date by `??` fallbacks, keeps status and every other field, and adds only those four |
| EntitySource.NormaliseOrderIdempotent | src/data/order.jsx:212-218 | normalising an order twice is the same as normalising it once |
| EntitySource.NormaliseOrders | src/data/order.jsx:212-218 | the normalised mirror has the same length, entry i normalised |
| EntitySource.Survivors | src/data/product.jsx:225 | the delete filter keeps every copy of each entry whose key differs from the argument and nothing else |
| EntitySource.SurvivorsAppend | src/data/product.jsx:225 | the delete filter keeps order: filtering a concatenation concatenates the filtered parts |
| EntitySource.SurvivorsOne | src/data/product.jsx:225 | one entry survives exactly when its key differs from the argument |
| EntitySource.SurvivorsKeepOthers | src/data/discount.jsx:172 | when no entry carries the argument's key, the mirror is kept as it was |
| EntitySource.DeleteRemovesKey | src/data/product.jsx:225 | after a delete no entry's key is `===` to the argument |
| EntitySource.ReprojectLosesCategory | src/data/product.jsx:216-224 | re-projecting a product whose category is already a name gives an `undefined` category |
| EntitySource.LocalProductsSurviveDelete | src/data/product.jsx:216-225 | a product created locally has no `_id`, so re-projection gives it an `undefined` id and a delete by string id keeps it |
| EntitySource.SecondProductDeleteThrows | src/data/product.jsx:216-226 | after one product delete, a second one throws whenever any entry is left |
| EntitySource.ProjectAllLosesCategory | src/data/product.jsx:216-224 | re-projecting rows whose categories are names succeeds and leaves every category `undefined` |
| EntitySource.ProjectAllFirstThrows | src/data/product.jsx:220 | projecting rows whose first category is `undefined` throws a TypeError |
| EntitySource.FilterRows | src/data/product.jsx:123-147 | the clause-by-clause loop over the filter items computes the conjunctive filter |
| EntitySource.DataSource.GetMany | src/data/product.jsx:107-167 | a projection that throws rejects the call and leaves the mirror; otherwise the mirror becomes the projected rows and the answer is their filtered, sorted page |
| EntitySource.DataSource.CreateOne | src/data/product.jsx:177-189 | the new entry is appended after the unchanged mirror and returned |
| EntitySource.DataSource.UpdateOne | src/data/product.jsx:190-208 | with no match, "X not found" is thrown and the mirror is unchanged; otherwise each matching entry is merged and the last one is returned |
| EntitySource.DataSource.UpdateRemoteFirst | src/data/product.jsx:30-58 | after the server accepts, the entries matching by `id` or `_id` are merged and the server's body is returned; after a failure it behaves as the local update |
| EntitySource.DataSource.DeleteOne | src/data/product.jsx:209-227 | the server's outcome does not matter; the renormalised mirror minus the entries with the argument's key is stored, unless re-projection throws |
| Validation.CheckAccepts | src/data/product.jsx:228-238 | a field rule reports nothing exactly when the value is acceptable, and at most one message |
| Validation.Tagged | src/data/product.jsx:228-238 | each message of a field is reported with that field as its path |
| Validation.IssuesSound | src/data/product.jsx:228-238 | every reported issue is a message of the rule of the field it names |
| Validation.IssuesComplete | src/data/product.jsx:228-238 | every message of every field's rule is reported |
| Validation.IssuesEmpty | src/data/product.jsx:228-238 | the schema reports no issue exactly when every field is acceptable |
| Validation.ProductAccepted | src/data/product.jsx:228-238 | a product is valid exactly when name, category and createdAt are non-empty strings, price is a number and status is one of the three enum values |
| Validation.ProductStatusAcceptable | src/data/product.jsx:232-234 | the product status rule accepts exactly "in stock", "out of stock" and "discontinued" |
| Validation.OrderAccepted | src/data/order.jsx:222-230 | an order is valid exactly when name and date are non-empty strings and status is one of the four enum values |
| Validation.OrderStatusAcceptable | src/data/order.jsx:227-229 | the order status rule accepts exactly Pending, Processing, Completed and Cancelled |
| Validation.DiscountAccepted | src/data/discount.jsx:175-182 | a discount is valid exactly when the name is a non-empty string, percentage is a number in [0, 1] and requiresVerification is a boolean |
| Validation.PercentageBounds | src/data/discount.jsx:175-182 | a percentage below 0 or above 1 gets the matching min or max message, and one in range gets none |
| Validation.CategoryAccepted | src/data/category.jsx:179-184 | a category is valid exactly when name and createdAt are non-empty strings |
| Validation.AddonAccepted | src/data/addon.jsx:167-172 | an add-on is valid exactly when the name is a non-empty string, price is a number, and isGlobal and available are booleans |
| Validation.TextPriceRejected | src/data/addon.jsx:169 | a price typed as text is reported at `price` with "Expected number, received string" |
| OrderFulfilment.AddonsTotalIsSum | src/features/orders/pages/showOrder.jsx:93 | the inner reduce is the sum of the add-on prices |
| OrderFulfilment.SubtotalIsSum | src/features/orders/pages/showOrder.jsx:88-95 | the subtotal is the sum of the item prices plus the sum of every add-on price |
| OrderFulfilment.ReadyOffersOne | src/features/orders/pages/showOrder.jsx:195-226 | in `ready` exactly one of "Verify ID" and "Check out" is shown, and "Mark as Ready" is not |
| OrderFulfilment.ActionsMoveForward | src/features/orders/pages/showOrder.jsx:195-226 | an action is offered only in pending or ready; it never moves the status back, and only the ID check keeps it |
| OrderFulfilment.VerifyOnce | src/features/orders/pages/showOrder.jsx:206-217 | after the ID check "Verify ID" is hidden and "Check out" is shown |
| OrderFulfilment.VerifiedTotalBounds | src/features/orders/pages/showOrder.jsx:52 | the verified total is (1 - percentage) * total, between 0 and the old total for a percentage in [0, 1] |
| OrderFulfilment.RunKeeps | src/features/orders/pages/showOrder.jsx:48-82 | every sequence of offered actions keeps the order's items, discount and total invariant |
| OrderFulfilment.RunFromPending | src/features/orders/pages/showOrder.jsx:48-82 | from a pending order, a completed discounted order has had its discount applied exactly once, and the total changes only then |
| OrderFulfilment.OrderPage.constructor | src/features/orders/pages/showOrder.jsx:34-37 | no order, not loading, not verifying, no error |
| OrderFulfilment.OrderPage.Load | src/features/orders/pages/showOrder.jsx:39-46 | the page holds what the fetch returned (none on failure) and stops loading |
| OrderFulfilment.OrderPage.MarkAsReady | src/features/orders/pages/showOrder.jsx:60-70 | the order becomes ready and loading ends, whatever the server answered |
| OrderFulfilment.OrderPage.VerifyId | src/features/orders/pages/showOrder.jsx:48-58 | the discount is applied to the total and verifying ends, whatever the server answered |
| OrderFulfilment.OrderPage.CompleteOrder | src/features/orders/pages/showOrder.jsx:72-82 | the order becomes completed and loading ends, whatever the server answered |
| AddonForm.Without | src/features/addons/pages/editAddon.jsx:77 | the filter keeps every copy of each value other than the id and no copy of the id |
| AddonForm.WithoutConcat | src/features/addons/pages/editAddon.jsx:77 | the filter keeps order: filtering a concatenation concatenates the filtered parts |
| AddonForm.WithoutOne | src/features/addons/pages/editAddon.jsx:77 | one value is kept exactly when it is not the id; with WithoutConcat this makes the result the subsequence of the other values |
| AddonForm.WithoutIdempotent | src/features/addons/pages/editAddon.jsx:77 | filtering an id out twice is filtering it once |
| AddonForm.ToggleFlips | src/features/addons/pages/editAddon.jsx:72-87 | a click flips the membership of the clicked id and of no other value |
| AddonForm.ToggleTwice | src/features/addons/pages/editAddon.jsx:72-87 | two clicks restore the selected set; from unselected, the very list |
| AddonForm.ClickFlipsCheckbox | src/features/addons/pages/editAddon.jsx:180-190 | clicking a category's checkbox flips it and no checkbox with another id |
| AddonForm.CategoryIds | src/features/addons/pages/editAddon.jsx:54 | mapping to `_id` fails exactly when some entry is nullish, and otherwise gives each entry's `_id` in order |
| AddonForm.EditForm.constructor | src/features/addons/pages/editAddon.jsx:26-33 | the form starts with empty text, unchecked boxes and no categories |
| AddonForm.EditForm.Load | src/features/addons/pages/editAddon.jsx:43-62 | after both fetches the categories are stored, and the form becomes the add-on with its categories as ids unless the mapping throws |
| AddonForm.EditForm.HandleChange | src/features/addons/pages/editAddon.jsx:64-70 | the input's field becomes the box's state or the typed text; nothing else changes |
| AddonForm.EditForm.HandleCategoryChange | src/features/addons/pages/editAddon.jsx:72-87 | the category list is toggled at the clicked id; nothing else changes |
| AddonForm.SelectedIds | src/features/addons/pages/createAddon.jsx:64-70 | a string selection becomes its comma-separated pieces; a list is taken as it is (the handler is unreachable: no element of the page calls it) |
| AddonForm.SelectedJoined | src/features/addons/pages/createAddon.jsx:68 | comma-free ids selected as one joined string come back as the same ids (about the unreachable handler) |
| AddonForm.CreateForm.constructor | src/features/addons/pages/createAddon.jsx:26-31 | the form starts empty |
| AddonForm.CreateForm.HandleChange | src/features/addons/pages/createAddon.jsx:56-62 | the input's field becomes the box's state or the typed text; the categories are kept |
| AddonForm.CreateForm.HandleCategoryChange | src/features/addons/pages/createAddon.jsx:64-70 | the selection replaces the category list; the other fields are kept (unreachable: the page defines the handler but renders no select that calls it) |
| AddonForm.CreateForm.ToggleCategory | src/features/addons/pages/createAddon.jsx:163-174 | the category list is toggled at the clicked id; the other fields are kept |
| AddonForm.CreateForm.Submit | src/features/addons/pages/createAddon.jsx:72-92 | after a successful post the form is back in its initial state; after a failure it is kept |
| Dashboard.CurrentSalesData | src/features/dashboard/pages/showDashboard.jsx:143-151 | any time frame other than weekly, monthly and yearly shows the daily data |
| Dashboard.CurrentProductData | src/features/dashboard/pages/showDashboard.jsx:154-161 | any product time frame other than month and year shows the daily data |
| Dashboard.UrlParts | src/features/dashboard/pages/showDashboard.jsx:165-169 | a URL built from a path without `?` and parameters without `&` splits back into that path and those parameters |
| Dashboard.UrlInjective | src/features/dashboard/pages/showDashboard.jsx:165-169 | two such URLs are equal only for the same path and parameters |
| Dashboard.SalesExportUrl | src/features/dashboard/pages/showDashboard.jsx:165-169 | the sales export asks `/dashboard/<frame>sales` for `export=csv`, adding month and year for monthly and yearly |
| Dashboard.DisplayedSalesPathShape | src/features/dashboard/pages/showDashboard.jsx:111-116 | each known frame's data comes from `/dashboard/<frame>sales`, a path without a query |
| Dashboard.SalesExportMatchesDisplay | src/features/dashboard/pages/showDashboard.jsx:163-169 | for a known frame the export asks the very path whose data is shown, with separable parameters |
| Dashboard.UnknownSalesFrameMismatch | src/features/dashboard/pages/showDashboard.jsx:143-169 | for an unknown frame the daily data is shown but another path is exported; the page's tabs never set such a frame, so this is about the default branch only |
| Dashboard.SalesRefetchUrl | src/features/dashboard/pages/showDashboard.jsx:209-225 | a refetch happens exactly for monthly and yearly, at the frame's path with its filter |
| Dashboard.SalesRefetchAgreesWithExport | src/features/dashboard/pages/showDashboard.jsx:209-225 | each refetch parameter is also an export parameter; yearly exports send the month but yearly refetches do not |
| Dashboard.ProductExportUrl | src/features/dashboard/pages/showDashboard.jsx:186-194 | the product export asks the shown data's path for `export=csv` plus the frame's filter |
| Dashboard.ProductRefetchUrl | src/features/dashboard/pages/showDashboard.jsx:228-244 | a product refetch happens exactly for month and year, at the shown path with the frame's filter |
| Dashboard.ProductExportMatchesDisplay | src/features/dashboard/pages/showDashboard.jsx:184-244 | the product export and the refetch ask the shown path with the same filter, the export adding only `export=csv` |
| Dashboard.ExportFilenamesDistinct | src/features/dashboard/pages/showDashboard.jsx:163-207 | distinct frames give distinct filenames, and no sales file is named like a products file |
| Dashboard.YearOptionsDescending | src/features/dashboard/pages/showDashboard.jsx:62-65 | five options from the current year down by one, each captioned with its year's digits |

## Left out

- Persistence. The mirror is a field, not `localStorage`, so the JSON round trip is not modelled. That round trip drops `undefined` fields and turns NaN into `null`. `JSON.parse` on a corrupt entry is left out too.
- Timing and caching. The 750 ms delays, the `DataSourceCache` instances and the async interleaving of handlers are left out. Each operation is one atomic step.
- Server calls. Every request becomes a parameter: its answer, or `None` for a failure. This covers the fetch in `getMany` and the server answer in the remote-first helper. `DataSource.DeleteOne` takes the delete's outcome, which it ignores.
- `getOne`. It is a plain fetch with no mirror or logic, and the auth pages are not part of this model.
- Alerts. Snackbars, `console` output, navigation and rendering are left out.
- The CSV download. The Blob link and its click are left out.
- Dashboard extras. The summary cards and the first fetches of the product lists are not modelled. Response shapes are not modelled either: daily sales are read as `.data.sales` and first product lists as `.data.products || []`, product refetches as `res.data || []` and sales refetches as plain `res.data`.
- AddonForm.CreateForm.HandleCategoryChange: it models a handler the create page defines but never attaches to any element, so no user action reaches it; on the page the category list changes only through `ToggleCategory`.
- The create form's category fetch. It only fills the checkbox list.
- The route guard. The `if (!id) return` guard on the order page is not modelled.
- Text.Lower: only ASCII letters are lower-cased, and strings are sequences of code points, not UTF-16 units. `contains`, `startsWith` and `endsWith` therefore differ from the source on non-ASCII letters such as "É" against "é".
- JsValues.StrLess: string `<` compares code points, not UTF-16 code units, so strings outside the Basic Multilingual Plane may sort differently from the source.
- JsValues.Less: `<` is modelled between two numbers, two strings or two booleans. Mixed-type comparisons, which JavaScript coerces, are false in the model, and sort lemmas assume the sort fields hold one kind of value.
- JsValues.ToNumber: of strings, only the empty string and decimal digits are read as numbers. Whitespace, signs, fractions, exponents and hex give NaN.
- JsValues.Stringify: numbers are exact reals. A fraction is printed with at most 20 digits, not JavaScript's shortest round-trip form. Exponent notation and `-0` are not modelled.
- OrderFulfilment.Verified: prices and totals are reals. IEEE-754 rounding of `total - percentage * total` and of the subtotal sums is not modelled.
- OrderFulfilment.OrderPage.MarkAsReady: it requires its button's guard (pending, not loading), because the page offers the handler only through that button. The same holds for `VerifyId` and `CompleteOrder`.
- AddonForm.EditForm.HandleChange: it requires that the input is not named `applicableCategories`, because the form has no such input. The same holds for `CreateForm.HandleChange`.
- Dashboard.YearOptions: the clock is a parameter, the current year. The lemma assumes a year of at least 4, so that every caption is a plain digit string.
- Validation: only the zod behaviour these schemas use is modelled. That is a required message for a missing field, "Expected X, received Y" for a wrong type, `nonempty`, `min`/`max`, and the enum's error map. The `~standard` result wrapper is reduced to its list of issues.
