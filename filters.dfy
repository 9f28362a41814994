/** The query the `/users` and `/user_filters` handlers build from the query
    string, and what it means for a record to match it. */
module Filters {
  import opened Wrappers
  import opened JsNumbers
  import opened Inventory

  /** The filter parameters of the query string; `None` is an absent parameter. */
  datatype Params = Params(
    make: Option<string>,
    vehicleModel: Option<string>,
    year: Option<string>,
    priceMin: Option<string>,
    priceMax: Option<string>,
    mileageMin: Option<string>,
    mileageMax: Option<string>)

  /** The lower-bound parameter value that means "no lower bound". */
  const NoLowerBound := "-Infinity"
  /** The upper-bound parameter value that means "no upper bound". */
  const NoUpperBound := "Infinity"

  /** JavaScript truthiness of a parameter: present and not the empty string. */
  predicate Truthy(param: Option<string>) {
    param.Some? && param.value != ""
  }

  /** `parseInt(param)`; an absent parameter is `undefined`, which parses to NaN. */
  function ParseParam(param: Option<string>): Num {
    match param
    case None => NaN
    case Some(s) => ParseInt(s)
  }

  /** A `{ $gt, $lt }` sub-query on one numeric field. */
  datatype Range = Range(gt: Option<Num>, lt: Option<Num>)

  /** The query object: one optional condition per field. */
  datatype Query = Query(
    webVisible: Option<bool>,
    make: Option<string>,
    vehicleModel: Option<string>,
    year: Option<Num>,
    price: Option<Range>,
    mileage: Option<Range>)

  const EmptyQuery := Query(None, None, None, None, None, None)
  const EmptyRange := Range(None, None)

  // ----- What the store does with a query -----

  /** `$eq` against a parsed number; nothing equals NaN. */
  predicate EqualsNum(x: int, n: Num) { n.Int? && x == n.value }
  /** `$gt` against a parsed number; nothing is greater than NaN. */
  predicate AboveNum(x: int, n: Num) { n.Int? && x > n.value }
  /** `$lt` against a parsed number; nothing is less than NaN. */
  predicate BelowNum(x: int, n: Num) { n.Int? && x < n.value }

  predicate InRange(r: Option<Range>, x: int) {
    match r
    case None => true
    case Some(Range(gt, lt)) =>
      (gt.None? || AboveNum(x, gt.value)) && (lt.None? || BelowNum(x, lt.value))
  }

  /** A range with a NaN bound. */
  predicate HasNaNBound(r: Option<Range>) {
    r.Some? && (r.value.gt == Some(NaN) || r.value.lt == Some(NaN))
  }

  /** A record matches a query when it meets every condition the query holds:
      the empty query matches every record, and a query with a NaN in any
      numeric condition matches none. */
  predicate Matches(q: Query, v: Vehicle)
    ensures q == EmptyQuery ==> Matches(q, v)
    ensures q.year == Some(NaN) || HasNaNBound(q.price) || HasNaNBound(q.mileage) ==> !Matches(q, v)
  {
    && (q.webVisible.Some? ==> v.webVisible == q.webVisible.value)
    && (q.make.Some? ==> v.make == q.make.value)
    && (q.vehicleModel.Some? ==> v.vehicleModel == q.vehicleModel.value)
    && (q.year.Some? ==> EqualsNum(v.year, q.year.value))
    && InRange(q.price, v.price)
    && InRange(q.mileage, v.mileage)
  }

  // ----- What a filter request asks for, stated on the parameters -----

  /** `x` is above the lower bound a parameter gives: the sentinel admits
      everything, anything else must parse to a number strictly below `x`. */
  predicate AboveParam(min: Option<string>, x: int) {
    min == Some(NoLowerBound) || AboveNum(x, ParseParam(min))
  }

  predicate BelowParam(max: Option<string>, x: int) {
    max == Some(NoUpperBound) || BelowNum(x, ParseParam(max))
  }

  /** The records a filter request selects: visible ones only, equal on every
      truthy categorical parameter, strictly inside every price and mileage bound. */
  predicate Admits(p: Params, v: Vehicle) {
    && v.webVisible
    && (Truthy(p.make) ==> v.make == p.make.value)
    && (Truthy(p.vehicleModel) ==> v.vehicleModel == p.vehicleModel.value)
    && (Truthy(p.year) ==> EqualsNum(v.year, ParseInt(p.year.value)))
    && AboveParam(p.priceMin, v.price) && BelowParam(p.priceMax, v.price)
    && AboveParam(p.mileageMin, v.mileage) && BelowParam(p.mileageMax, v.mileage)
  }

  /** The records of `docs` a filter request selects, in store order. */
  function Selected(docs: seq<Vehicle>, p: Params): (r: seq<Vehicle>)
    ensures forall v :: v in r <==> v in docs && Admits(p, v)
  {
    Filter(docs, v => Admits(p, v))
  }

  /** The selection keeps store order: the matches of a collection are the
      matches of its first part followed by those of the rest. */
  lemma SelectedAppend(a: seq<Vehicle>, b: seq<Vehicle>, p: Params)
    ensures Selected(a + b, p) == Selected(a, p) + Selected(b, p)
  {
    FilterAppend(a, b, v => Admits(p, v));
  }

  /** Every admitted record is selected as many times as it is stored, so the
      number selected (`totalPosts`) counts duplicates too. */
  lemma SelectedMultiplicity(docs: seq<Vehicle>, p: Params, v: Vehicle)
    ensures multiset(Selected(docs, p))[v] == if Admits(p, v) then multiset(docs)[v] else 0
  {
    FilterMultiplicity(docs, u => Admits(p, u), v);
  }

  // ----- Building the query -----

  /** One `{ $gt, $lt }` sub-query: each bound is added unless its parameter is
      the sentinel. */
  method BuildRange(min: Option<string>, max: Option<string>) returns (r: Range)
    ensures r.gt.Some? <==> min != Some(NoLowerBound)
    ensures r.lt.Some? <==> max != Some(NoUpperBound)
    ensures r.gt.Some? ==> r.gt.value == ParseParam(min)
    ensures r.lt.Some? ==> r.lt.value == ParseParam(max)
    ensures forall x :: InRange(Some(r), x) <==> AboveParam(min, x) && BelowParam(max, x)
  {
    r := EmptyRange;
    if min != Some(NoLowerBound) {
      r := r.(gt := Some(ParseParam(min)));
    }
    if max != Some(NoUpperBound) {
      r := r.(lt := Some(ParseParam(max)));
    }
  }

  /** The query of the `/users` and `/user_filters` handlers, built field by
      field from the parameters. */
  method BuildQuery(p: Params) returns (q: Query)
    ensures q.webVisible == Some(true)
    ensures q.make.Some? <==> Truthy(p.make)
    ensures q.make.Some? ==> q.make.value == p.make.value
    ensures q.vehicleModel.Some? <==> Truthy(p.vehicleModel)
    ensures q.vehicleModel.Some? ==> q.vehicleModel.value == p.vehicleModel.value
    ensures q.year.Some? <==> Truthy(p.year)
    ensures q.year.Some? ==> q.year.value == ParseInt(p.year.value)
    ensures q.price.Some? <==> p.priceMin != Some(NoLowerBound) || p.priceMax != Some(NoUpperBound)
    ensures q.price.Some? ==> q.price.value != EmptyRange
    ensures q.mileage.Some? <==> p.mileageMin != Some(NoLowerBound) || p.mileageMax != Some(NoUpperBound)
    ensures q.mileage.Some? ==> q.mileage.value != EmptyRange
    ensures forall v :: Matches(q, v) <==> Admits(p, v)
  {
    var webVisible := true;
    q := EmptyQuery;
    if webVisible {
      q := q.(webVisible := Some(webVisible));
    }
    if Truthy(p.make) {
      q := q.(make := Some(p.make.value));
    }
    if Truthy(p.vehicleModel) {
      q := q.(vehicleModel := Some(p.vehicleModel.value));
    }
    if Truthy(p.year) {
      q := q.(year := Some(ParseInt(p.year.value)));
    }
    var priceSubquery := BuildRange(p.priceMin, p.priceMax);
    if priceSubquery != EmptyRange {
      q := q.(price := Some(priceSubquery));
    }
    var mileageSubquery := BuildRange(p.mileageMin, p.mileageMax);
    if mileageSubquery != EmptyRange {
      q := q.(mileage := Some(mileageSubquery));
    }
  }

  // ----- Properties of the selection -----

  /** Bounds are strict: a record priced exactly at a numeric bound is not selected. */
  lemma PriceBoundsAreStrict(p: Params, v: Vehicle)
    requires ParseParam(p.priceMin) == Int(v.price) || ParseParam(p.priceMax) == Int(v.price)
    ensures !Admits(p, v)
  {
    ParseIntOfSentinels();
  }

  lemma MileageBoundsAreStrict(p: Params, v: Vehicle)
    requires ParseParam(p.mileageMin) == Int(v.mileage) || ParseParam(p.mileageMax) == Int(v.mileage)
    ensures !Admits(p, v)
  {
    ParseIntOfSentinels();
  }

  /** An absent bound parameter is not the sentinel: it becomes a NaN bound,
      and then no record at all is selected. */
  lemma AbsentBoundSelectsNothing(p: Params, v: Vehicle)
    requires p.priceMin.None? || p.priceMax.None? || p.mileageMin.None? || p.mileageMax.None?
    ensures !Admits(p, v)
  {
  }

  /** A present year that does not parse selects nothing. */
  lemma UnparsableYearSelectsNothing(p: Params, v: Vehicle)
    requires Truthy(p.year) && ParseInt(p.year.value) == NaN
    ensures !Admits(p, v)
  {
  }

  /** Parameters left at their neutral values (absent or empty categories, the
      two sentinels on both ranges) select exactly the visible records. */
  lemma NeutralParamsSelectVisible(p: Params, v: Vehicle)
    requires !Truthy(p.make) && !Truthy(p.vehicleModel) && !Truthy(p.year)
    requires p.priceMin == p.mileageMin == Some(NoLowerBound)
    requires p.priceMax == p.mileageMax == Some(NoUpperBound)
    ensures Admits(p, v) <==> v.webVisible
  {
  }
}
