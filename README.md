# Vehicle inventory router — a Dafny model

This project models the vehicle API router of a car-dealer inventory
application (`routes/api/vehicles.js`). The router is an Express router over
a MongoDB collection of vehicle records. The model covers:

- the filter query that the public `/users` and `/user_filters` handlers build
  from the query string, and what a record must satisfy to match it;
- the page arithmetic of `/users` (skip, the clamped limit, and the store's
  `skip`/`limit`);
- the facet counts of `/user_filters`: `$group` counts by make, model and
  year, and the price and mileage `$bucket` histograms with their
  boundary lists;
- the VIN-keyed upsert of `POST /add` and the delete of `DELETE /delete/:vinNumber`;
- the "empty result is a 400" convention of `GET /` and `/users`.

Modules, one per file:

| file | module | what it holds |
|---|---|---|
| `wrappers.dfy` | `Wrappers` | `Option` |
| `js_numbers.dfy` | `JsNumbers` | JavaScript `parseInt` (with NaN), decimal numerals, `Math.ceil` of an integer quotient |
| `inventory.dfy` | `Inventory` | the vehicle record, the collection as a sequence in natural order, lookup and removal by VIN |
| `filters.dfy` | `Filters` | query parameters, the query datatype, the `$eq`/`$gt`/`$lt` semantics, and the imperative query builder |
| `pagination.dfy` | `Pagination` | skip, limit, and the store's `skip`/`limit` window |
| `facets.dfy` | `Facets` | the boundary loop, `$bucket`, `$group`, and the "sort descending, limit 1" lookups |
| `routes.dfy` | `VehicleRoutes` | the handlers, as methods of the `VehicleStore` class, which owns the collection |

The collection is a field `docs: seq<Vehicle>` of the `VehicleStore` class.
It is a sequence, not a map, because `/users` pages through the matches in
the store's natural order. The VIN-keyed view the router relies on is
`Inventory.Lookup`, which returns the first record with that VIN, as
`findOne` does. `Inventory.UniqueVins` is the invariant that `Add` and
`Delete` preserve.

Behaviour kept as the code is written:

- An absent `price_min`, `price_max`, `mileage_min` or `mileage_max` is not
  the sentinel string. So a bound `parseInt(undefined)` (NaN) is still
  added, and no record at all matches (`Filters.AbsentBoundSelectsNothing`).
  A request that filters by make and price alone, without the two mileage
  sentinels, therefore returns nothing, and the model says so.
- The mileage histogram's boundaries are computed from the PRICE of the
  record with the highest mileage (`vehicles.js:168`). The model keeps this,
  and `Facets.TopMileageOutsideBuckets` pins down one consequence.
- A value equal to the last boundary falls in the default bucket. So when the
  highest price is a multiple of 10000, that vehicle is counted in the
  default bucket (`Facets.TopMultipleGoesToDefault`). The default bucket
  takes values below the first boundary and values at or above the last one,
  not only values below the first boundary.
- On an empty collection, `/user_filters` reads `maxPriceVehicle[0].price`
  of an empty array. This throws inside the `try`, so the answer is a 500
  "Server Error", not an empty histogram. The same happens when the
  boundary list has fewer than two entries: a highest price of 0 or less
  makes `$bucket` fail.
- A new record does not copy `exteriorOptions`: it is missing from the
  constructor's field list. An update does not touch `images`: it is missing
  from the `$set` list, so the stored images survive.
- `page_length = 0` makes the store's limit 0, which means "no limit", so
  the whole result set comes back. A negative skip (a `page` below 1) is
  refused by the store. The `exec` callback then reads `vehicles.length` of
  an undefined result, which throws outside the `try`, so no response is
  sent at all; the model calls this outcome `StoreFault`.
- `$bucket` sorts its output by `_id`, and the default bucket's id is
  -Infinity, so a non-empty default bucket comes first, before the interval
  buckets in increasing order.

## Model

| member | source | states |
|---|---|---|
| JsNumbers.CeilDiv | routes/api/vehicles.js:149 | `Math.ceil(m / d)` is the least integer `c` with `m <= c*d`: `(c-1)*d < m <= c*d` |
| JsNumbers.ParseInt | routes/api/vehicles.js:49-61 | `parseInt` yields a number only for text that holds a decimal digit; on canonical decimal numerals, after white space, its value is the numeral's (ParseIntDecimal, ParseIntSkipsSpace), and ParseIntOfSentinels gives NaN for the sentinels |
| JsNumbers.ParseIntDecimal | routes/api/vehicles.js:49 | `parseInt` reads back the decimal numeral of every integer, negative ones included, and stops at the first character that is not a digit |
| JsNumbers.ParseIntSkipsSpace | routes/api/vehicles.js:52-54 | leading white space does not change what `parseInt` reads |
| JsNumbers.ParseIntOfSentinels | routes/api/vehicles.js:51-54 | `parseInt` of `"Infinity"`, `"-Infinity"` and `""` is NaN |
| Inventory.Filter | routes/api/vehicles.js:64 | `find(query)` keeps exactly the records that satisfy the predicate, and never more than the collection holds |
| Inventory.FilterAppend | routes/api/vehicles.js:64-70 | `find(query)` keeps store order: the matches of `a + b` are the matches of `a` followed by those of `b` |
| Inventory.FilterMultiplicity | routes/api/vehicles.js:64 | every kept record occurs in the result as often as in the collection, every other record not at all |
| Inventory.FilterSameSelection | routes/api/vehicles.js:39-63 | two predicates that agree on every record select the same records in the same order |
| Inventory.IndexOfVin | routes/api/vehicles.js:310 | `findOne({vinNumber})` finds the first record with that VIN; no earlier record has it |
| Inventory.Lookup | routes/api/vehicles.js:310 | a record is found iff some record has the VIN, and the one found is stored and has that VIN |
| Inventory.RemoveFirst | routes/api/vehicles.js:439 | `findOneAndRemove` removes exactly the first record with the VIN when there is one, the records before and after it keeping their order, and removes nothing otherwise |
| Inventory.FirstIndexOfVin | routes/api/vehicles.js:310 | the first position holding a VIN is the one `findOne` finds |
| Inventory.LookupAfterReplace | routes/api/vehicles.js:370-372 | after an in-place update of the record found by VIN, that VIN finds the new record and every other VIN finds what it found before |
| Inventory.LookupAfterAppend | routes/api/vehicles.js:377 | after saving a record whose VIN was absent, its VIN finds it and every other VIN finds what it found before |
| Inventory.IndexAfterRemoveAt | routes/api/vehicles.js:439 | removing a record with another VIN shifts a VIN's first position down by one or leaves it, as its place demands |
| Inventory.LookupAfterRemove | routes/api/vehicles.js:439 | deleting by one VIN leaves the lookup of every other VIN unchanged |
| Inventory.RemoveFromUnique | routes/api/vehicles.js:439 | in a collection with unique VINs, deleting a VIN keeps VINs unique and leaves no record with that VIN |
| Inventory.UniqueAfterUpsert | routes/api/vehicles.js:310-378 | updating the record found by VIN, or appending a record whose VIN is absent, keeps VINs unique |
| Filters.Selected | routes/api/vehicles.js:39-64 | a record is selected iff it is stored and the filter admits it |
| Filters.SelectedAppend | routes/api/vehicles.js:64-70 | the selection keeps store order: the selection of `a + b` is that of `a` followed by that of `b` |
| Filters.SelectedMultiplicity | routes/api/vehicles.js:64 | an admitted record is selected as many times as it is stored, so `totalPosts` counts every copy |
| Filters.Matches | routes/api/vehicles.js:43-63 | the empty query matches every record, and a query with NaN in `year` or in a price or mileage bound matches none |
| Filters.BuildRange | routes/api/vehicles.js:50-56 | `$gt` is added iff the minimum is not `"-Infinity"` and `$lt` iff the maximum is not `"Infinity"`, each holding `parseInt` of its parameter; a value is in range iff it is strictly above and strictly below the bounds given |
| Filters.BuildQuery | routes/api/vehicles.js:39-63 | the query always holds `webVisible == true`; it compares make, model and `parseInt(year)` exactly when their parameter is truthy; it attaches a price or mileage sub-query only when that sub-query is not empty; and a record matches it iff the filter admits the record |
| Filters.PriceBoundsAreStrict | routes/api/vehicles.js:50-56 | a record priced exactly at a numeric bound is not selected |
| Filters.MileageBoundsAreStrict | routes/api/vehicles.js:57-63 | a record whose mileage is exactly at a numeric bound is not selected |
| Filters.AbsentBoundSelectsNothing | routes/api/vehicles.js:51-63 | a missing price or mileage bound parameter is not the sentinel, becomes a NaN bound, and selects no record |
| Filters.UnparsableYearSelectsNothing | routes/api/vehicles.js:48-49 | a truthy `year` that `parseInt` cannot read selects no record |
| Filters.NeutralParamsSelectVisible | routes/api/vehicles.js:40-63 | with no categorical filter and the sentinels on both ranges, exactly the web-visible records are selected |
| Pagination.Window | routes/api/vehicles.js:70 | `skip(s).limit(l)` is the contiguous slice from `s`; limit 0 means no limit; a negative limit takes as many records as its magnitude |
| Pagination.PageSkip | routes/api/vehicles.js:70 | page `page` starts where page `page - 1` ends (`skip + page_length == page * page_length`), and at or after the first record for pages counted from 1 |
| Pagination.PageLimit | routes/api/vehicles.js:66-68 | the limit never reaches past the page's end nor past `totalPosts`, and it reaches one of the two exactly |
| Pagination.PageInRange | routes/api/vehicles.js:66-68 | for a page that starts inside the results, `0 < limit <= page_length`, `skip + limit <= totalPosts` and `limit == min(page_length, totalPosts - skip)` |
| Pagination.PageOutOfRange | routes/api/vehicles.js:66-68 | for a page that starts past the results, the limit is zero or negative |
| Pagination.SecondPageOfFifteen | routes/api/vehicles.js:66-70 | with 15 matches and pages of 10, page 2 skips 10 and has limit 5 |
| Pagination.PageContents | routes/api/vehicles.js:64-70 | page `page` holds the results from the skip to the end of the page or of the results, and nothing past the last page |
| Pagination.PageWindow | routes/api/vehicles.js:66-70 | for any non-negative skip, the records the store returns are a contiguous slice of the results starting at the skip |
| Pagination.ZeroPageLengthReturnsAll | routes/api/vehicles.js:66-70 | a page length of 0 returns every result |
| Pagination.PagesArePrefix | routes/api/vehicles.js:66-70 | the first `n` pages laid end to end are the first `min(n * page_length, totalPosts)` results: no gap and no overlap |
| Pagination.AllPagesCoverResults | routes/api/vehicles.js:66-70 | pages 1 to `ceil(totalPosts / page_length)` laid end to end are exactly the results |
| Facets.Boundaries | routes/api/vehicles.js:146-151 | the `for`/`push` loop builds `[0, w, 2w, ..., ceil(max/w)*w]`, and an empty list when that ceiling is negative |
| Facets.BoundaryList | routes/api/vehicles.js:149-150 | the boundaries increase from 0, and a positive maximum lies above the last boundary but one and at or below the last |
| Facets.CeilDivPositive | routes/api/vehicles.js:149 | the loop runs at least twice iff the maximum is positive |
| Facets.BoundaryListShape | routes/api/vehicles.js:146-151 | the boundaries start at 0, rise by the width, are strictly increasing, and the last one is the first multiple of the width at or above a positive maximum |
| Facets.Slot | routes/api/vehicles.js:155-158 | a value placed in interval `i` lies in `[b[i], b[i+1])`; a value placed in the default bucket lies in no interval |
| Facets.SlotUnique | routes/api/vehicles.js:155-158 | with increasing boundaries, a value in `[b[i], b[i+1])` is placed in interval `i` |
| Facets.DefaultSlot | routes/api/vehicles.js:155-158 | the default bucket takes exactly the values below the first boundary or at or above the last |
| Facets.SlotInsideBoundaryList | routes/api/vehicles.js:152-164 | over the price or mileage boundaries, a value in `[0, last)` lands in the interval starting at `(x / w) * w` |
| Facets.SlotOfBoundaryList | routes/api/vehicles.js:152-164 | over those boundaries, values in `[0, last)` land in interval `x / w` and every other value in the default bucket |
| Facets.TopMultipleGoesToDefault | routes/api/vehicles.js:146-164 | a highest price that is a multiple of 10000 lands in the default bucket |
| Facets.SlotCountIsInterval | routes/api/vehicles.js:152-164 | the count of interval `i` is the number of values in `[b[i], b[i+1])` |
| Facets.SlotsPartitionValues | routes/api/vehicles.js:152-164 | every value is counted in exactly one bucket: the interval counts and the default count add up to the number of values |
| Facets.IntervalBucketsTotal | routes/api/vehicles.js:152-164 | the emitted interval buckets hold the sum of the interval counts |
| Facets.HistogramTotal | routes/api/vehicles.js:152-164 | with at least two increasing boundaries, `$bucket` succeeds, and its counts sum to the number of matched records |
| Facets.HistogramCounts | routes/api/vehicles.js:152-164 | with at least two increasing boundaries, the document for interval `i` reports the number of values in `[b[i], b[i+1])` and the default document the number outside every interval (0 meaning the bucket has no document) |
| Facets.IntervalBucketsCounts | routes/api/vehicles.js:155-158 | each interval's document counts exactly the values whose slot is that interval |
| Facets.Histogram | routes/api/vehicles.js:152-164 | `$bucket` fails iff there are fewer than two boundaries or they do not increase; otherwise it emits only non-empty buckets, sorted by `_id`, with the default bucket first exactly when some value lies outside every interval |
| Facets.IntervalBucketsSorted | routes/api/vehicles.js:152-164 | the interval buckets are non-empty and come in increasing boundary order |
| Facets.IndexOfKey | routes/api/vehicles.js:117-120 | the position of a group key is the first group with that key |
| Facets.BumpCounts | routes/api/vehicles.js:117-120 | counting one more record adds one to its key's count and changes no other key's count |
| Facets.Group | routes/api/vehicles.js:114-144 | `$group` with `$sum: 1` emits each key once, with a positive count equal to the number of matched records that have that key |
| Facets.GroupTotal | routes/api/vehicles.js:114-144 | the group counts sum to the number of matched records |
| Facets.TopBy | routes/api/vehicles.js:147 | "sort by a field descending, limit 1" finds a record iff the collection is non-empty, and no stored record has a higher value in that field |
| Facets.TopByPrice | routes/api/vehicles.js:147-148 | "sort by price descending, limit 1" finds a record iff the collection is non-empty, and no stored record has a higher price |
| Facets.TopByMileage | routes/api/vehicles.js:167-168 | "sort by mileage descending, limit 1" finds a record iff the collection is non-empty, and no stored record has a higher mileage |
| Facets.TopMileageOutsideBuckets | routes/api/vehicles.js:166-171 | because the mileage boundaries come from the top-mileage record's price, that record lands in the default mileage bucket when its mileage is at least one width above its price |
| VehicleRoutes.PageResponse | routes/api/vehicles.js:64-75 | the page is non-empty, is the slice of the matches from the skip, and carries the total number of matches; for positive page numbers and lengths, the page exists iff the skip is below the total, and it then holds the records up to the end of the page; an empty page is a 400 "No Vehicles exist"; a negative skip is a store fault |
| VehicleRoutes.Created | routes/api/vehicles.js:258-306 | the new record carries the request's VIN, make, model, year, price, mileage, visibility and user, and of its descriptive fields exactly those the constructor lists, so no `exteriorOptions` |
| VehicleRoutes.Updated | routes/api/vehicles.js:315-372 | the updated record carries the request's values; the listed descriptive fields take the request's values, and every other stored field (`images` among them) stays as stored |
| VehicleRoutes.Overlay | routes/api/vehicles.js:370 | `$set` of the listed fields: they take the sent values, every other stored field stays, and no other field appears |
| VehicleRoutes.VehicleStore.ListAll | routes/api/vehicles.js:15-27 | an empty collection gives a 400 "No Vehicles exist"; otherwise every record comes back, visible or not |
| VehicleRoutes.VehicleStore.UsersPage | routes/api/vehicles.js:35-81 | the answer is the page of the filter's selection; every vehicle on it is stored, web-visible and admitted by the filter |
| VehicleRoutes.VehicleStore.UserFilters | routes/api/vehicles.js:87-191 | an empty collection gives a 500; facet lists come back iff both maxima used are positive; the make, model and year lists are the group counts of the selection, and the price and mileage lists are its histograms over the boundaries from the whole collection (the mileage ones from a price), default bucket first; every list's counts sum to the number selected |
| VehicleRoutes.VehicleStore.Add | routes/api/vehicles.js:201-378 | an empty VIN gives a 400 "Vin Number Is Required" and leaves the collection unchanged; otherwise a present VIN has its first record replaced in place by the update; an absent VIN has a new record appended; either way the VIN then finds the saved record, which carries the request's fields, every other VIN finds what it did before, and unique VINs stay unique |
| VehicleRoutes.VehicleStore.Delete | routes/api/vehicles.js:436-446 | the first record with the VIN is removed, every other VIN finds what it did before, and the answer is "Vehicle was removed" whether or not the VIN existed; with unique VINs, no record with that VIN remains |

## Left out

- Express routing, the `auth` middleware, JSON encoding and the `populate('user', ...)` join are left out. The handlers take already-extracted parameters and the authenticated user's id.
- The checks `express-validator` makes are reduced to its one rule, a non-empty `vinNumber`. An absent VIN is modelled as the empty string.
- `console.error` logging is left out. So are the 500 catch-alls for store failures other than those named above (the empty collection, fewer than two bucket boundaries).
- The two GET-by-VIN handlers (`vehicles.js:395-428`) are left out. `find` returns an array, so their `!vehicle` test never fires, and they only return the matches.
- `page` and `page_length` are taken as integers. A non-numeric `page` (NaN in JavaScript) is not modelled.
- Query-string parameters that arrive as arrays (`?make=a&make=b`) are left out. Every parameter is absent or a single string.
- Prices, mileages and years are unbounded integers. JavaScript doubles, their rounding above 2^53, and fractional values are not modelled. `Math.ceil` over a floating-point quotient is modelled as integer ceiling division.
- Mongoose casting is left out: a NaN in a query is modelled as MongoDB compares it (it matches nothing), not as a cast error.
- A listed descriptive field that is missing from the update body keeps its stored value (`VehicleRoutes.Overlay`), whereas the route would put `undefined` into `$set` for it; what the store does with `undefined` values in `$set` is not modelled.
- The no-op `if (req.body.year != null)` re-assignment in `/add` is not modelled, since it sets `year` to the value it already has.
- The descriptive fields (about forty of them) are one `details` map keyed by field name, and only the field lists the two code paths copy are modelled.
- The `Vehicle` schema (`models/Vehicle.js`) is not part of this model. Defaults and types it may impose are not modelled.
- Facets.TopBy: ties for the maximum are broken by the first record in store order. MongoDB's choice among equal sort keys is not specified.
- Facets.Group: the order of `$group` output is not specified by MongoDB. The model emits keys in first-seen order, and its contract states only the keys and counts.
- Concurrency between requests (two upserts of one VIN at once) is not modelled. Each handler runs to completion against the collection.
