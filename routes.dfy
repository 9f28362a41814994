/** The vehicle router: its handlers over the vehicle collection. Routing,
    authentication and JSON encoding are left out; each handler takes its
    already-extracted parameters and returns the response it sends. */
module VehicleRoutes {
  import opened Wrappers
  import opened Inventory
  import opened Filters
  import opened Pagination
  import opened Facets

  const NoVehicles := "No Vehicles exist"
  const VinRequired := "Vin Number Is Required"
  const ServerErrorText := "Server Error"

  /** The responses the handlers send. */
  datatype Response =
    | AllVehicles(vehicles: seq<Vehicle>)                  // 200, the array of records
    | PageOf(vehicles: seq<Vehicle>, totalPosts: nat)      // 200, { vehicles, totalPosts }
    | FacetLists(
        makeList: seq<GroupCount<string>>,
        vehicleModelList: seq<GroupCount<string>>,
        yearList: seq<GroupCount<int>>,
        priceList: seq<GroupCount<BucketId>>,
        mileageList: seq<GroupCount<BucketId>>)            // 200, the five aggregates
    | Saved(vehicle: Vehicle)                              // 200, the created or updated record
    | Removed                                              // 200, { msg: "Vehicle was removed" }
    | BadRequest(msg: string)                              // 400, { errors: [{ msg }] }
    | ServerError(text: string)                            // 500, plain text
    | StoreFault                                           // no response: the paged read failed

  /** The body of a POST to `/add`: the fields the model keeps, and the
      descriptive fields by name. */
  datatype VehicleBody = VehicleBody(
    vinNumber: string,
    make: string,
    vehicleModel: string,
    year: int,
    price: int,
    mileage: int,
    webVisible: bool,
    details: map<string, string>)

  /** Descriptive fields copied both when a vehicle is created and when it is updated. */
  const CommonDetailFields: set<string> := {
    "category", "stockNumber", "otherMake", "trimDetail", "unitType", "odometerAccurate",
    "doors", "engine", "engineSize", "transmission", "driveTrain", "exteriorColor",
    "interiorColor", "interiorMaterials", "fuelType", "origin", "purchasedFrom",
    "importedFrom", "importedYear", "importedForResale", "transportation", "description",
    "reconditioniongNeeded", "damage", "damageAmount", "damageType", "damageNote", "status",
    "location", "saleType", "dateListed", "datePurchased", "purchasedBy", "soldBy",
    "boughtPrice", "soldPrice", "billOfSaleId", "profit"}

  /** The new record lists `images` but not `exteriorOptions`. */
  const CreatedDetailFields: set<string> := CommonDetailFields + {"images"}
  /** The update lists `exteriorOptions` but not `images`. */
  const UpdatedDetailFields: set<string> := CommonDetailFields + {"exteriorOptions"}

  function Restrict(m: map<string, string>, fields: set<string>): (r: map<string, string>)
    ensures r.Keys == m.Keys * fields
    ensures forall k :: k in r ==> r[k] == m[k]
  {
    map k | k in m && k in fields :: m[k]
  }

  /** The record `new Vehicle({...})` builds from a request: the request's
      values, and of its descriptive fields those the constructor lists, so
      `exteriorOptions` is not kept. */
  function Created(body: VehicleBody, user: string): (v: Vehicle)
    ensures CarriesBody(v, body, user)
    ensures v.details.Keys == body.details.Keys * CreatedDetailFields
    ensures forall k :: k in v.details ==> v.details[k] == body.details[k]
    ensures "exteriorOptions" !in v.details
  {
    Vehicle(body.vinNumber, body.make, body.vehicleModel, body.year, body.price,
            body.mileage, body.webVisible, user, Restrict(body.details, CreatedDetailFields))
  }

  /** The record `findOneAndUpdate(filter, { $set: updatedVehicle })` leaves:
      the listed fields from the request, the other stored fields as they were. */
  function Updated(stored: Vehicle, body: VehicleBody, user: string): (v: Vehicle)
    ensures CarriesBody(v, body, user)
    ensures v.details.Keys == stored.details.Keys + body.details.Keys * UpdatedDetailFields
    ensures forall k :: k in body.details && k in UpdatedDetailFields ==> v.details[k] == body.details[k]
    ensures forall k :: k in stored.details && k !in UpdatedDetailFields ==> v.details[k] == stored.details[k]
  {
    Vehicle(body.vinNumber, body.make, body.vehicleModel, body.year, body.price,
            body.mileage, body.webVisible, user, Overlay(stored.details, body.details, UpdatedDetailFields))
  }

  /** `$set` of the listed `fields` of `sent` over the `stored` document:
      listed fields take the sent value, all other stored fields stay. */
  function Overlay(stored: map<string, string>, sent: map<string, string>, fields: set<string>)
    : (m: map<string, string>)
    ensures m.Keys == stored.Keys + sent.Keys * fields
    ensures forall k :: k in sent && k in fields ==> m[k] == sent[k]
    ensures forall k :: k in stored && k !in fields ==> m[k] == stored[k]
  {
    stored + Restrict(sent, fields)
  }

  /** A stored record holds what a request sent for every field the query reads. */
  predicate CarriesBody(v: Vehicle, body: VehicleBody, user: string) {
    && v.vinNumber == body.vinNumber && v.make == body.make
    && v.vehicleModel == body.vehicleModel && v.year == body.year
    && v.price == body.price && v.mileage == body.mileage
    && v.webVisible == body.webVisible && v.user == user
  }

  /** The paged part of `GET /users` over the `matched` records: the total,
      the clamped limit, `skip`/`limit` on the store, and 400 for an empty page. */
  function PageResponse(matched: seq<Vehicle>, page: int, pageLength: int): (r: Response)
    ensures r.PageOf? || r == BadRequest(NoVehicles) || r == StoreFault
    ensures r == StoreFault <==> PageSkip(page, pageLength) < 0
    ensures r.PageOf? ==> r.vehicles != [] && r.totalPosts == |matched|
    ensures r.PageOf? ==> var skip := PageSkip(page, pageLength);
      0 <= skip && skip + |r.vehicles| <= |matched| && r.vehicles == matched[skip..skip + |r.vehicles|]
    ensures 1 <= page && 1 <= pageLength ==> var skip := PageSkip(page, pageLength);
      && (r.PageOf? <==> skip < |matched|)
      && (r.PageOf? ==> r.vehicles == matched[skip..Min(skip + pageLength, |matched|)])
  {
    var totalPosts := |matched|;
    var limit := PageLimit(totalPosts, page, pageLength);
    var skip := PageSkip(page, pageLength);
    if skip < 0 then StoreFault
    else
      var vehicles := Window(matched, skip, limit);
      PageWindow(matched, page, pageLength);
      if |vehicles| == 0 then BadRequest(NoVehicles) else PageOf(vehicles, totalPosts)
  }

  class VehicleStore {
    /** The vehicle collection, in the store's natural order. */
    var docs: seq<Vehicle>

    constructor ()
      ensures docs == []
    {
      docs := [];
    }

    /** `GET /`: every record, visible or not; 400 when there are none. */
    method ListAll() returns (r: Response)
      ensures r == BadRequest(NoVehicles) <==> docs == []
      ensures r.BadRequest? || r == AllVehicles(docs)
    {
      var vehicles := docs;
      if |vehicles| == 0 {
        r := BadRequest(NoVehicles);
        return;
      }
      r := AllVehicles(vehicles);
    }

    /** `GET /users`: one page of the visible records the filter selects,
        with the number selected; 400 when the page is empty. */
    method UsersPage(p: Params, page: int, pageLength: int) returns (r: Response)
      ensures r == PageResponse(Selected(docs, p), page, pageLength)
      ensures r.PageOf? ==> forall v :: v in r.vehicles ==> v in docs && v.webVisible && Admits(p, v)
    {
      var q := BuildQuery(p);
      var matched := Filter(docs, v => Matches(q, v));
      FilterSameSelection(docs, v => Matches(q, v), v => Admits(p, v));
      r := PageResponse(matched, page, pageLength);
      if r.PageOf? {
        forall v | v in r.vehicles
          ensures v in matched
        {
          var k :| 0 <= k < |r.vehicles| && r.vehicles[k] == v;
          assert v == matched[PageSkip(page, pageLength) + k];
        }
      }
    }

    /** `GET /user_filters`: counts by make, model and year, and price and
        mileage histograms, of the visible records the filter selects. The
        histogram boundaries come from the whole collection: the price ones
        from the highest price, the mileage ones from the PRICE of the record
        with the highest mileage. */
    method UserFilters(p: Params) returns (r: Response)
      ensures r.FacetLists? || r == ServerError(ServerErrorText)
      ensures docs == [] ==> r == ServerError(ServerErrorText)
      ensures docs != [] ==>
        (r.FacetLists? <==> TopByPrice(docs).value.price > 0 && TopByMileage(docs).value.price > 0)
      ensures r.FacetLists? ==> var s := Selected(docs, p);
        && r.makeList == Group(Makes(s))
        && r.vehicleModelList == Group(Models(s))
        && r.yearList == Group(Years(s))
        && Total(r.makeList) == Total(r.vehicleModelList) == Total(r.yearList) == |s|
      ensures r.FacetLists? ==> var s := Selected(docs, p);
        && Histogram(BoundaryList(TopByPrice(docs).value.price, PriceBucketWidth), Prices(s))
           == Some(r.priceList)
        && Histogram(BoundaryList(TopByMileage(docs).value.price, MileageBucketWidth), Mileages(s))
           == Some(r.mileageList)
        && Total(r.priceList) == Total(r.mileageList) == |s|
    {
      var q := BuildQuery(p);
      var matched := Filter(docs, v => Matches(q, v));
      FilterSameSelection(docs, v => Matches(q, v), v => Admits(p, v));
      var makeList := Group(Makes(matched));
      var vehicleModelList := Group(Models(matched));
      var yearList := Group(Years(matched));
      GroupTotal(Makes(matched));
      GroupTotal(Models(matched));
      GroupTotal(Years(matched));

      var maxPriceVehicle := TopByPrice(docs);
      if maxPriceVehicle.None? {
        // maxPriceVehicle[0].price throws on an empty collection
        r := ServerError(ServerErrorText);
        return;
      }
      var maxPrice := maxPriceVehicle.value.price;
      var priceArray := Boundaries(maxPrice, PriceBucketWidth);
      BoundaryListShape(maxPrice, PriceBucketWidth);
      var priceList := Histogram(priceArray, Prices(matched));
      if priceList.None? {
        r := ServerError(ServerErrorText);
        return;
      }
      HistogramTotal(priceArray, Prices(matched));

      var maxMileageVehicle := TopByMileage(docs);
      var maxMileage := maxMileageVehicle.value.price;
      var mileageArray := Boundaries(maxMileage, MileageBucketWidth);
      BoundaryListShape(maxMileage, MileageBucketWidth);
      var mileageList := Histogram(mileageArray, Mileages(matched));
      if mileageList.None? {
        r := ServerError(ServerErrorText);
        return;
      }
      HistogramTotal(mileageArray, Mileages(matched));
      r := FacetLists(makeList, vehicleModelList, yearList, priceList.value, mileageList.value);
    }

    /** `POST /add`: 400 without a VIN; otherwise the record stored under the
        VIN is updated in place, or a new record is appended when there is none. */
    method Add(body: VehicleBody, user: string) returns (r: Response)
      modifies this
      ensures body.vinNumber == "" ==> r == BadRequest(VinRequired) && docs == old(docs)
      ensures body.vinNumber != "" ==>
        && r.Saved?
        && CarriesBody(r.vehicle, body, user)
        && Lookup(docs, body.vinNumber) == Some(r.vehicle)
      ensures body.vinNumber != "" && old(Lookup(docs, body.vinNumber)).Some? ==>
        && r.vehicle == Updated(old(Lookup(docs, body.vinNumber)).value, body, user)
        && docs == old(docs)[IndexOfVin(old(docs), body.vinNumber) := r.vehicle]
      ensures body.vinNumber != "" && old(Lookup(docs, body.vinNumber)).None? ==>
        r.vehicle == Created(body, user) && docs == old(docs) + [r.vehicle]
      ensures forall w :: w != body.vinNumber ==> Lookup(docs, w) == old(Lookup(docs, w))
      ensures UniqueVins(old(docs)) ==> UniqueVins(docs)
    {
      if body.vinNumber == "" {
        r := BadRequest(VinRequired);
      } else {
        var vin := body.vinNumber;
        var existing := Lookup(docs, vin);
        if existing.Some? {
          var i := IndexOfVin(docs, vin);
          var updated := Updated(existing.value, body, user);
          if UniqueVins(docs) {
            UniqueAfterUpsert(docs, updated);
          }
          forall w {
            LookupAfterReplace(docs, updated, w);
          }
          docs := docs[i := updated];
          r := Saved(updated);
        } else {
          var created := Created(body, user);
          if UniqueVins(docs) {
            UniqueAfterUpsert(docs, created);
          }
          forall w {
            LookupAfterAppend(docs, created, w);
          }
          docs := docs + [created];
          r := Saved(created);
        }
      }
    }

    /** `DELETE /delete/:vinNumber`: the record with that VIN is removed; the
        response is the same whether or not there was one. */
    method Delete(vin: string) returns (r: Response)
      modifies this
      ensures r == Removed
      ensures docs == RemoveFirst(old(docs), vin)
      ensures forall w :: w != vin ==> Lookup(docs, w) == old(Lookup(docs, w))
      ensures UniqueVins(old(docs)) ==> UniqueVins(docs) && Lookup(docs, vin).None?
    {
      forall w | w != vin {
        LookupAfterRemove(docs, vin, w);
      }
      if UniqueVins(docs) {
        RemoveFromUnique(docs, vin);
      }
      docs := RemoveFirst(docs, vin);
      r := Removed;
    }
  }
}
