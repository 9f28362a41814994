/** The vehicle collection as the router sees it: a sequence of records in
    the store's natural order, of which only the fields the router reads or
    writes are spelled out. */
module Inventory {
  import opened Wrappers

  /** One stored vehicle. `details` holds the descriptive fields the router
      copies without reading them (colour, condition, sale bookkeeping, ...),
      keyed by field name. */
  datatype Vehicle = Vehicle(
    vinNumber: string,
    make: string,
    vehicleModel: string,
    year: int,
    price: int,
    mileage: int,
    webVisible: bool,
    user: string,
    details: map<string, string>)

  /** The records of `docs` for which `keep` holds, in store order. */
  function Filter(docs: seq<Vehicle>, keep: Vehicle -> bool): (r: seq<Vehicle>)
    ensures |r| <= |docs|
    ensures forall v :: v in r <==> v in docs && keep(v)
  {
    if docs == [] then []
    else (if keep(docs[0]) then [docs[0]] else []) + Filter(docs[1..], keep)
  }

  /** Filtering drops no copy of a kept record: each record occurs in the
      result exactly as often as in the collection, or not at all. */
  lemma {:induction false} FilterMultiplicity(docs: seq<Vehicle>, keep: Vehicle -> bool, v: Vehicle)
    ensures multiset(Filter(docs, keep))[v] == if keep(v) then multiset(docs)[v] else 0
  {
    if docs != [] {
      assert docs == [docs[0]] + docs[1..];
      FilterMultiplicity(docs[1..], keep, v);
    }
  }

  /** Filtering keeps store order: the matches of a collection are the
      matches of its first part followed by those of the rest. */
  lemma {:induction false} FilterAppend(a: seq<Vehicle>, b: seq<Vehicle>, keep: Vehicle -> bool)
    ensures Filter(a + b, keep) == Filter(a, keep) + Filter(b, keep)
  {
    if a == [] {
      assert a + b == b;
    } else {
      var h := if keep(a[0]) then [a[0]] else [];
      assert (a + b)[0] == a[0];
      assert (a + b)[1..] == a[1..] + b;
      assert Filter(a + b, keep) == h + Filter(a[1..] + b, keep);
      FilterAppend(a[1..], b, keep);
      assert Filter(a, keep) == h + Filter(a[1..], keep);
    }
  }

  /** Filtering with two selectors that agree on every record gives the same result. */
  lemma {:induction false} FilterSameSelection(docs: seq<Vehicle>, f: Vehicle -> bool, g: Vehicle -> bool)
    requires forall v :: f(v) == g(v)
    ensures Filter(docs, f) == Filter(docs, g)
  {
    if docs != [] {
      FilterSameSelection(docs[1..], f, g);
    }
  }

  /** The position of the first record with VIN `vin` (what `findOne` finds),
      or |docs| when there is none. */
  function IndexOfVin(docs: seq<Vehicle>, vin: string): (i: nat)
    ensures i <= |docs|
    ensures i < |docs| ==> docs[i].vinNumber == vin
    ensures forall j :: 0 <= j < i ==> docs[j].vinNumber != vin
  {
    if docs == [] then 0
    else if docs[0].vinNumber == vin then 0
    else 1 + IndexOfVin(docs[1..], vin)
  }

  /** The record stored under `vin`: the store seen as a map keyed by VIN. */
  function Lookup(docs: seq<Vehicle>, vin: string): (r: Option<Vehicle>)
    ensures r.Some? <==> exists j :: 0 <= j < |docs| && docs[j].vinNumber == vin
    ensures r.Some? ==> r.value in docs && r.value.vinNumber == vin
  {
    var i := IndexOfVin(docs, vin);
    if i < |docs| then Some(docs[i]) else None
  }

  /** No two records share a VIN. */
  predicate UniqueVins(docs: seq<Vehicle>) {
    forall i, j :: 0 <= i < j < |docs| ==> docs[i].vinNumber != docs[j].vinNumber
  }

  /** `findOneAndRemove({ vinNumber: vin })`: the first record with that VIN
      is taken out; without one the store is left as it is. */
  function RemoveFirst(docs: seq<Vehicle>, vin: string): (r: seq<Vehicle>)
    ensures IndexOfVin(docs, vin) < |docs| ==> |r| == |docs| - 1
    ensures var i := IndexOfVin(docs, vin); i < |docs| ==>
      && (forall u :: 0 <= u < i ==> r[u] == docs[u])
      && (forall u :: i <= u < |r| ==> r[u] == docs[u + 1])
    ensures IndexOfVin(docs, vin) == |docs| ==> r == docs
  {
    var i := IndexOfVin(docs, vin);
    if i < |docs| then docs[..i] + docs[i + 1..] else docs
  }

  /** A position is the first one holding `w` when it holds `w` (or is the
      end) and no earlier one does. */
  lemma FirstIndexOfVin(docs: seq<Vehicle>, w: string, t: nat)
    requires t <= |docs|
    requires t < |docs| ==> docs[t].vinNumber == w
    requires forall u :: 0 <= u < t ==> docs[u].vinNumber != w
    ensures IndexOfVin(docs, w) == t
  {
  }

  /** Overwriting the first record with a VIN by a record with the same VIN
      changes what is stored under that VIN and nothing else. */
  lemma LookupAfterReplace(docs: seq<Vehicle>, v: Vehicle, w: string)
    requires IndexOfVin(docs, v.vinNumber) < |docs|
    ensures var d := docs[IndexOfVin(docs, v.vinNumber) := v];
      Lookup(d, w) == if w == v.vinNumber then Some(v) else Lookup(docs, w)
  {
    var i := IndexOfVin(docs, v.vinNumber);
    var d := docs[i := v];
    assert forall u :: 0 <= u < |d| ==> d[u].vinNumber == docs[u].vinNumber;
    if w == v.vinNumber {
      FirstIndexOfVin(d, w, i);
    } else {
      FirstIndexOfVin(d, w, IndexOfVin(docs, w));
    }
  }

  /** Appending a record whose VIN is not yet stored adds that VIN and changes
      nothing else. */
  lemma LookupAfterAppend(docs: seq<Vehicle>, v: Vehicle, w: string)
    requires Lookup(docs, v.vinNumber).None?
    ensures Lookup(docs + [v], w) == if w == v.vinNumber then Some(v) else Lookup(docs, w)
  {
    var d := docs + [v];
    var t := IndexOfVin(docs, w);
    assert forall u :: 0 <= u < |docs| ==> d[u] == docs[u];
    if w == v.vinNumber {
      FirstIndexOfVin(d, w, |docs|);
    } else if t < |docs| {
      FirstIndexOfVin(d, w, t);
    } else {
      FirstIndexOfVin(d, w, |d|);
    }
  }

  /** Taking out position `i` moves the first occurrence of any other VIN
      one place down when it came after `i`. */
  lemma {:induction false} IndexAfterRemoveAt(docs: seq<Vehicle>, i: nat, w: string)
    requires i < |docs| && docs[i].vinNumber != w
    ensures var t := IndexOfVin(docs, w);
      IndexOfVin(docs[..i] + docs[i + 1..], w) == if t < i then t else t - 1
  {
    if i > 0 && docs[0].vinNumber != w {
      IndexAfterRemoveAt(docs[1..], i - 1, w);
      assert docs[1..][..i - 1] + docs[1..][i..] == (docs[..i] + docs[i + 1..])[1..];
    } else if i == 0 {
      assert docs[..i] + docs[i + 1..] == docs[1..];
    }
  }

  /** Removing the first record with VIN `vin` leaves every other VIN's record in place. */
  lemma LookupAfterRemove(docs: seq<Vehicle>, vin: string, w: string)
    requires w != vin
    ensures Lookup(RemoveFirst(docs, vin), w) == Lookup(docs, w)
  {
    var i := IndexOfVin(docs, vin);
    if i < |docs| {
      IndexAfterRemoveAt(docs, i, w);
      var t := IndexOfVin(docs, w);
      if i < t < |docs| {
        assert (docs[..i] + docs[i + 1..])[t - 1] == docs[t];
      } else if t < i {
        assert (docs[..i] + docs[i + 1..])[t] == docs[t];
      }
    }
  }

  /** In a store with unique VINs, removing a VIN leaves no record with it, and
      the VINs stay unique. */
  lemma RemoveFromUnique(docs: seq<Vehicle>, vin: string)
    requires UniqueVins(docs)
    ensures UniqueVins(RemoveFirst(docs, vin))
    ensures Lookup(RemoveFirst(docs, vin), vin).None?
  {
    var i := IndexOfVin(docs, vin);
    var d := RemoveFirst(docs, vin);
    if i < |docs| {
      forall u | 0 <= u < |d|
        ensures d[u].vinNumber != vin
      {
        if u >= i {
          assert docs[u + 1].vinNumber != docs[i].vinNumber;
        }
      }
    }
  }

  /** Replacing a record by one with the same VIN, or appending a record with
      a VIN not yet stored, keeps the VINs unique. */
  lemma UniqueAfterUpsert(docs: seq<Vehicle>, v: Vehicle)
    requires UniqueVins(docs)
    ensures IndexOfVin(docs, v.vinNumber) < |docs| ==>
      UniqueVins(docs[IndexOfVin(docs, v.vinNumber) := v])
    ensures IndexOfVin(docs, v.vinNumber) == |docs| ==> UniqueVins(docs + [v])
  {
    var i := IndexOfVin(docs, v.vinNumber);
    if i < |docs| {
      var d := docs[i := v];
      assert forall u :: 0 <= u < |d| ==> d[u].vinNumber == docs[u].vinNumber;
    } else {
      var d := docs + [v];
      assert forall u :: 0 <= u < |docs| ==> d[u] == docs[u];
    }
  }
}
