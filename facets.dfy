/** The aggregates of the `/user_filters` handler: `$group` counts by make,
    model and year, and `$bucket` histograms of price and mileage over
    boundaries built by a loop. */
module Facets {
  import opened Wrappers
  import opened JsNumbers
  import opened Inventory

  const PriceBucketWidth := 10000
  const MileageBucketWidth := 25000

  /** One output document of `$group` or `$bucket`: a key and how many records have it. */
  datatype GroupCount<K> = GroupCount(id: K, count: nat)

  /** The key of a `$bucket` output: the lower boundary of an interval, or the
      default bucket (reported as -Infinity). */
  datatype BucketId = From(lower: int) | Default

  /** The sum of the counts of a list of output documents. */
  function Total<K>(gs: seq<GroupCount<K>>): nat {
    if gs == [] then 0 else Total(gs[..|gs| - 1]) + gs[|gs| - 1].count
  }

  lemma {:induction false} TotalAppend<K>(a: seq<GroupCount<K>>, c: seq<GroupCount<K>>)
    ensures Total(a + c) == Total(a) + Total(c)
  {
    if c != [] {
      assert (a + c)[..|a + c| - 1] == a + c[..|c| - 1];
      TotalAppend(a, c[..|c| - 1]);
    } else {
      assert a + c == a;
    }
  }

  // ----- Bucket boundaries -----

  predicate StrictlyIncreasing(b: seq<int>) {
    forall i, j :: 0 <= i < j < |b| ==> b[i] < b[j]
  }

  /** The boundaries `[0, w, 2w, ..., ceil(max / w) * w]`; none at all when
      `ceil(max / w)` is negative. They increase, and a positive maximum lies
      in the last interval: above the last boundary but one, at or below the
      last. */
  function BoundaryList(max: int, width: int): (b: seq<int>)
    requires width > 0
    ensures StrictlyIncreasing(b)
    ensures b != [] ==> b[0] == 0
    ensures max > 0 <==> |b| >= 2
    ensures max > 0 ==> b[|b| - 2] < max <= b[|b| - 1]
  {
    var top := CeilDiv(max, width);
    var b := seq(if top >= 0 then top + 1 else 0, i => i * width);
    MultiplesIncrease(b, width);
    CeilDivPositive(max, width);
    b
  }

  /** Successive multiples of a positive width increase. */
  lemma MultiplesIncrease(b: seq<int>, width: int)
    requires width > 0
    requires forall k :: 0 <= k < |b| ==> b[k] == k * width
    ensures StrictlyIncreasing(b)
  {
    forall i, j | 0 <= i < j < |b| ensures b[i] < b[j] {
      MulStrictlyIncreasing(i, j, width);
    }
  }

  /** The loop that fills the boundary array, one multiple of `width` per step,
      from 0 while the multiplier is at most `Math.ceil(max / width)`. */
  method Boundaries(max: int, width: int) returns (b: seq<int>)
    requires width > 0
    ensures b == BoundaryList(max, width)
  {
    var top := CeilDiv(max, width);
    b := [];
    var i := 0;
    while i <= top
      invariant i == 0 || i <= top + 1
      invariant |b| == i
      invariant forall k :: 0 <= k < i ==> b[k] == k * width
    {
      b := b + [i * width];
      i := i + 1;
    }
  }

  lemma {:induction false} MulAtLeast(n: nat, w: int)
    requires w > 0 && n > 0
    ensures n * w >= w
  {
    if n > 1 {
      MulAtLeast(n - 1, w);
      assert n * w == (n - 1) * w + w;
    }
  }

  /** Multiplying by a positive width keeps the order of integers. */
  lemma MulStrictlyIncreasing(i: int, j: int, w: int)
    requires w > 0 && i < j
    ensures i * w < j * w
  {
    MulAtLeast(j - i, w);
    assert j * w - i * w == (j - i) * w;
  }

  /** The ceiling quotient is positive exactly when `max` is. */
  lemma CeilDivPositive(max: int, width: int)
    requires width > 0
    ensures max > 0 <==> CeilDiv(max, width) >= 1
  {
    var top := CeilDiv(max, width);
    if max > 0 && top < 1 {
      MulStrictlyIncreasing(top, 1, width);
    }
    if max <= 0 && top >= 1 {
      if top > 1 {
        MulStrictlyIncreasing(0, top - 1, width);
      }
    }
  }

  /** The boundaries start at 0, rise by `width`, and the last one is the
      smallest multiple of `width` that is at least `max`; a positive maximum
      gives at least two boundaries, any other at most one. */
  lemma BoundaryListShape(max: int, width: int)
    requires width > 0
    ensures var b := BoundaryList(max, width);
      && (forall k :: 0 <= k < |b| ==> b[k] == k * width)
      && StrictlyIncreasing(b)
      && (b != [] ==> b[0] == 0)
      && (max > 0 <==> |b| >= 2)
      && (max > 0 ==> b[|b| - 1] >= max && b[|b| - 2] < max)
  {
    CeilDivPositive(max, width);
  }

  // ----- Which bucket a value falls into -----

  /** The interval `[b[i], b[i+1])` holding `x`, as its index, or `None` for the
      default bucket. */
  function Slot(b: seq<int>, x: int): (r: Option<nat>)
    ensures r.Some? ==> r.value + 1 < |b| && b[r.value] <= x < b[r.value + 1]
    ensures r.None? ==> forall i :: 0 <= i < |b| - 1 ==> !(b[i] <= x < b[i + 1])
  {
    if |b| < 2 then None
    else if b[0] <= x < b[1] then Some(0)
    else match Slot(b[1..], x)
      case None => None
      case Some(j) => Some(j + 1)
  }

  /** With increasing boundaries the intervals do not overlap: a value inside
      interval `i` is placed in interval `i` and no other. */
  lemma SlotUnique(b: seq<int>, x: int, i: nat)
    requires StrictlyIncreasing(b)
    requires i + 1 < |b| && b[i] <= x < b[i + 1]
    ensures Slot(b, x) == Some(i)
  {
  }

  /** The default bucket takes exactly the values below the first boundary or
      at or above the last one. */
  lemma {:induction false} DefaultSlot(b: seq<int>, x: int)
    requires |b| >= 2 && StrictlyIncreasing(b)
    ensures Slot(b, x).None? <==> x < b[0] || x >= b[|b| - 1]
  {
    if b[0] <= x < b[|b| - 1] {
      // find the interval holding x
      var i := 0;
      while i + 2 < |b| && b[i + 1] <= x
        invariant 0 <= i && i + 1 < |b| && b[i] <= x
      {
        i := i + 1;
      }
      SlotUnique(b, x, i);
    }
  }

  /** Over the price and mileage boundaries, a value in `[0, last)` lands in
      the interval starting at the multiple of the width just below it, and the
      last boundary itself (the maximum, when it is a multiple of the width)
      lands in the default bucket. */
  lemma SlotInsideBoundaryList(max: int, width: int, x: int)
    requires width > 0 && max > 0
    requires 0 <= x < BoundaryList(max, width)[|BoundaryList(max, width)| - 1]
    ensures Slot(BoundaryList(max, width), x) == Some(x / width)
  {
    var b := BoundaryList(max, width);
    BoundaryListShape(max, width);
    var k := x / width;
    var n := |b| - 1;
    assert x == k * width + x % width;
    assert k * width <= x;
    assert x < (k + 1) * width;
    assert k >= 0 by {
      if k < 0 {
        MulStrictlyIncreasing(k, 0, width);
      }
    }
    assert k + 1 <= n by {
      if k + 1 > n {
        if n < k {
          MulStrictlyIncreasing(n, k, width);
        }
      }
    }
    assert b[k] == k * width && b[k + 1] == (k + 1) * width;
    SlotUnique(b, x, k);
  }

  lemma SlotOfBoundaryList(max: int, width: int, x: int)
    requires width > 0 && max > 0
    ensures var b := BoundaryList(max, width);
      && (0 <= x < b[|b| - 1] ==> Slot(b, x) == Some(x / width))
      && (x < 0 || x >= b[|b| - 1] ==> Slot(b, x) == None)
  {
    var b := BoundaryList(max, width);
    BoundaryListShape(max, width);
    if 0 <= x < b[|b| - 1] {
      SlotInsideBoundaryList(max, width, x);
    } else {
      DefaultSlot(b, x);
    }
  }

  /** The most expensive vehicle, when its price is a multiple of 10000, is
      counted in the default bucket rather than in an interval. */
  lemma TopMultipleGoesToDefault(max: int, width: int)
    requires width > 0 && max > 0 && max % width == 0
    ensures Slot(BoundaryList(max, width), max) == None
  {
    var b := BoundaryList(max, width);
    BoundaryListShape(max, width);
    var c := CeilDiv(max, width);
    var k := max / width;
    assert max == k * width;
    if c < k {
      MulStrictlyIncreasing(c, k, width);
    } else if c > k {
      MulStrictlyIncreasing(k, c - 1, width);
    }
    SlotOfBoundaryList(max, width, max);
  }

  // ----- $bucket -----

  /** How many of `xs` fall into slot `s` (an interval index, or `None` for the default). */
  function SlotCount(b: seq<int>, xs: seq<int>, s: Option<nat>): nat {
    if xs == [] then 0
    else (if Slot(b, xs[0]) == s then 1 else 0) + SlotCount(b, xs[1..], s)
  }

  /** How many of `xs` lie in `[lo, hi)`: the reference count of one bucket. */
  function CountBetween(xs: seq<int>, lo: int, hi: int): nat {
    if xs == [] then 0
    else (if lo <= xs[0] < hi then 1 else 0) + CountBetween(xs[1..], lo, hi)
  }

  /** `$bucket` sorts its output by `_id`, and the default bucket's id,
      -Infinity, comes before every boundary. */
  predicate Before(x: BucketId, y: BucketId) {
    match (x, y)
    case (Default, From(_)) => true
    case (From(a), From(c)) => a < c
    case _ => false
  }

  predicate SortedById(gs: seq<GroupCount<BucketId>>) {
    forall i, j :: 0 <= i < j < |gs| ==> Before(gs[i].id, gs[j].id)
  }

  /** The output documents for intervals `0 .. n-1` that hold at least one
      value, in boundary order. */
  function IntervalBuckets(b: seq<int>, xs: seq<int>, n: nat): seq<GroupCount<BucketId>>
    requires n < |b|
  {
    if n == 0 then []
    else
      var c := SlotCount(b, xs, Some(n - 1));
      IntervalBuckets(b, xs, n - 1) + (if c > 0 then [GroupCount(From(b[n - 1]), c)] else [])
  }

  /** `$bucket` over `xs` with the given boundaries and a default bucket: the
      default bucket first if it is non-empty (its id, -Infinity, sorts before
      every boundary), then one output per non-empty interval in boundary
      order. The store refuses fewer than two boundaries or boundaries that
      do not increase. */
  function Histogram(b: seq<int>, xs: seq<int>): (r: Option<seq<GroupCount<BucketId>>>)
    ensures r.Some? <==> |b| >= 2 && StrictlyIncreasing(b)
    ensures r.Some? ==> SortedById(r.value)
    ensures r.Some? ==> forall i :: 0 <= i < |r.value| ==> r.value[i].count > 0
    ensures r.Some? ==>
      (SlotCount(b, xs, None) > 0 <==> r.value != [] && r.value[0].id == Default)
  {
    if |b| < 2 || !StrictlyIncreasing(b) then None
    else
      var d := SlotCount(b, xs, None);
      var head: seq<GroupCount<BucketId>> := if d > 0 then [GroupCount(Default, d)] else [];
      var rest := IntervalBuckets(b, xs, |b| - 1);
      IntervalBucketsSorted(b, xs, |b| - 1);
      Some(head + rest)
  }

  /** The interval documents are non-empty buckets in increasing boundary order. */
  lemma {:induction false} IntervalBucketsSorted(b: seq<int>, xs: seq<int>, n: nat)
    requires StrictlyIncreasing(b) && n < |b|
    ensures var r := IntervalBuckets(b, xs, n);
      && (forall i :: 0 <= i < |r| ==> r[i].id.From? && r[i].id.lower < b[n] && r[i].count > 0)
      && SortedById(r)
  {
    if n > 0 {
      IntervalBucketsSorted(b, xs, n - 1);
    }
  }

  /** Each interval's count is the number of values in `[b[i], b[i+1])`. */
  lemma {:induction false} SlotCountIsInterval(b: seq<int>, xs: seq<int>, i: nat)
    requires StrictlyIncreasing(b) && i + 1 < |b|
    ensures SlotCount(b, xs, Some(i)) == CountBetween(xs, b[i], b[i + 1])
  {
    if xs != [] {
      SlotCountIsInterval(b, xs[1..], i);
      if b[i] <= xs[0] < b[i + 1] {
        SlotUnique(b, xs[0], i);
      }
    }
  }

  /** The counts of slots `0 .. n-1`, summed. */
  function SlotSum(b: seq<int>, xs: seq<int>, n: nat): nat {
    if n == 0 then 0 else SlotSum(b, xs, n - 1) + SlotCount(b, xs, Some(n - 1))
  }

  lemma {:induction false} SlotSumStep(b: seq<int>, xs: seq<int>, n: nat)
    requires xs != []
    ensures SlotSum(b, xs, n) == SlotSum(b, xs[1..], n)
      + (if Slot(b, xs[0]).Some? && Slot(b, xs[0]).value < n then 1 else 0)
  {
    if n > 0 {
      SlotSumStep(b, xs, n - 1);
    }
  }

  lemma {:induction false} SlotSumOfNothing(b: seq<int>, n: nat)
    ensures SlotSum(b, [], n) == 0
  {
    if n > 0 {
      SlotSumOfNothing(b, n - 1);
    }
  }

  /** Every value is counted in exactly one slot. */
  lemma {:induction false} SlotsPartitionValues(b: seq<int>, xs: seq<int>)
    requires |b| >= 2
    ensures SlotSum(b, xs, |b| - 1) + SlotCount(b, xs, None) == |xs|
  {
    if xs != [] {
      SlotSumStep(b, xs, |b| - 1);
      SlotsPartitionValues(b, xs[1..]);
    } else {
      SlotSumOfNothing(b, |b| - 1);
    }
  }

  lemma {:induction false} IntervalBucketsTotal(b: seq<int>, xs: seq<int>, n: nat)
    requires n < |b|
    ensures Total(IntervalBuckets(b, xs, n)) == SlotSum(b, xs, n)
  {
    if n > 0 {
      IntervalBucketsTotal(b, xs, n - 1);
      var c := SlotCount(b, xs, Some(n - 1));
      var tail: seq<GroupCount<BucketId>> := if c > 0 then [GroupCount(From(b[n - 1]), c)] else [];
      TotalAppend(IntervalBuckets(b, xs, n - 1), tail);
      assert Total(tail) == c by {
        if c > 0 {
          assert tail[..0] == [];
        }
      }
    }
  }

  /** The bucket counts add up to the number of values bucketed. */
  lemma HistogramTotal(b: seq<int>, xs: seq<int>)
    requires |b| >= 2 && StrictlyIncreasing(b)
    ensures Histogram(b, xs).Some? && Total(Histogram(b, xs).value) == |xs|
  {
    var d := SlotCount(b, xs, None);
    var rest := IntervalBuckets(b, xs, |b| - 1);
    IntervalBucketsTotal(b, xs, |b| - 1);
    SlotsPartitionValues(b, xs);
    TotalAfterDefault(d, rest);
  }

  lemma TotalAfterDefault(d: nat, rest: seq<GroupCount<BucketId>>)
    ensures Total((if d > 0 then [GroupCount(Default, d)] else []) + rest) == d + Total(rest)
  {
    var head: seq<GroupCount<BucketId>> := if d > 0 then [GroupCount(Default, d)] else [];
    TotalAppend(head, rest);
    if d > 0 {
      TotalAppend([], head);
    }
  }

  /** Interval `i` of the boundaries is reported with exactly the number of
      values that fall in it (0 meaning no document for it). */
  lemma {:induction false} IntervalBucketsCounts(b: seq<int>, xs: seq<int>, n: nat, i: nat)
    requires StrictlyIncreasing(b) && n < |b| && i < n
    ensures CountOf(IntervalBuckets(b, xs, n), From(b[i])) == SlotCount(b, xs, Some(i))
  {
    var prev := IntervalBuckets(b, xs, n - 1);
    var c := SlotCount(b, xs, Some(n - 1));
    var tail: seq<GroupCount<BucketId>> := if c > 0 then [GroupCount(From(b[n - 1]), c)] else [];
    assert IntervalBuckets(b, xs, n) == prev + tail;
    CountOfAppend(prev, tail, From(b[i]));
    if i < n - 1 {
      IntervalBucketsCounts(b, xs, n - 1, i);
      assert b[i] < b[n - 1];
    } else {
      IntervalBucketsSorted(b, xs, n - 1);
      assert IndexOfKey(prev, From(b[i])) == |prev|;
    }
  }

  /** Each document of the histogram counts the values of its bucket: an
      interval's document counts the values in `[b[i], b[i+1])`, the default
      document the values outside every interval. */
  lemma HistogramCounts(b: seq<int>, xs: seq<int>, i: nat)
    requires |b| >= 2 && StrictlyIncreasing(b) && i + 1 < |b|
    ensures Histogram(b, xs).Some?
    ensures CountOf(Histogram(b, xs).value, From(b[i])) == CountBetween(xs, b[i], b[i + 1])
    ensures CountOf(Histogram(b, xs).value, Default) == SlotCount(b, xs, None)
  {
    var d := SlotCount(b, xs, None);
    var head: seq<GroupCount<BucketId>> := if d > 0 then [GroupCount(Default, d)] else [];
    var rest := IntervalBuckets(b, xs, |b| - 1);
    assert Histogram(b, xs).value == head + rest;
    CountOfAppend(head, rest, From(b[i]));
    CountOfAppend(head, rest, Default);
    IntervalBucketsCounts(b, xs, |b| - 1, i);
    IntervalBucketsSorted(b, xs, |b| - 1);
    assert IndexOfKey(rest, Default) == |rest|;
    SlotCountIsInterval(b, xs, i);
  }

  // ----- $group with $sum: 1 -----

  /** The position of the output document for key `k`, or |gs| when there is none. */
  function IndexOfKey<K(==)>(gs: seq<GroupCount<K>>, k: K): (i: nat)
    ensures i <= |gs|
    ensures i < |gs| ==> gs[i].id == k
    ensures forall j :: 0 <= j < i ==> gs[j].id != k
  {
    if gs == [] then 0
    else if gs[0].id == k then 0
    else 1 + IndexOfKey(gs[1..], k)
  }

  /** The count an output list reports for key `k`, 0 when `k` has no document. */
  function CountOf<K(==)>(gs: seq<GroupCount<K>>, k: K): nat {
    var i := IndexOfKey(gs, k);
    if i < |gs| then gs[i].count else 0
  }

  /** Looking a key up in a concatenation finds it in the first part when it
      is there, and in the second part otherwise. */
  lemma {:induction false} CountOfAppend<K>(a: seq<GroupCount<K>>, c: seq<GroupCount<K>>, k: K)
    ensures CountOf(a + c, k) == if IndexOfKey(a, k) < |a| then CountOf(a, k) else CountOf(c, k)
  {
    if a != [] && a[0].id != k {
      assert (a + c)[1..] == a[1..] + c;
      CountOfAppend(a[1..], c, k);
    } else if a == [] {
      assert a + c == c;
    }
  }

  predicate DistinctIds<K(==)>(gs: seq<GroupCount<K>>) {
    forall i, j :: 0 <= i < j < |gs| ==> gs[i].id != gs[j].id
  }

  /** Count one more record with key `k`. */
  function Bump<K(==)>(gs: seq<GroupCount<K>>, k: K): seq<GroupCount<K>> {
    var i := IndexOfKey(gs, k);
    if i < |gs| then gs[i := GroupCount(k, gs[i].count + 1)] else gs + [GroupCount(k, 1)]
  }

  /** Bumping `k` adds one to the count of `k` and to no other count. */
  lemma BumpCounts<K>(gs: seq<GroupCount<K>>, k: K)
    requires DistinctIds(gs) && forall i :: 0 <= i < |gs| ==> gs[i].count > 0
    ensures var r := Bump(gs, k);
      && DistinctIds(r)
      && (forall i :: 0 <= i < |r| ==> r[i].count > 0)
      && (forall j :: CountOf(r, j) == CountOf(gs, j) + (if j == k then 1 else 0))
  {
    var r := Bump(gs, k);
    var i := IndexOfKey(gs, k);
    forall j
      ensures CountOf(r, j) == CountOf(gs, j) + (if j == k then 1 else 0)
    {
      assert forall u :: 0 <= u < |gs| ==> r[u].id == gs[u].id;
      if i == |gs| {
        assert r[|gs|].id == k;
      }
    }
  }

  /** `$group` by a key with `count: { $sum: 1 }`: one output document per
      distinct key, reporting for every key the number of records that have it.
      (The store returns them in no particular order; here they come in order
      of first appearance.) */
  function Group<K(==, !new)>(keys: seq<K>): (r: seq<GroupCount<K>>)
    ensures DistinctIds(r)
    ensures forall i :: 0 <= i < |r| ==> r[i].count > 0
    ensures forall k :: CountOf(r, k) == multiset(keys)[k]
  {
    if keys == [] then []
    else
      var init := keys[..|keys| - 1];
      var last := keys[|keys| - 1];
      assert keys == init + [last];
      BumpCounts(Group(init), last);
      Bump(Group(init), last)
  }

  lemma {:induction false} TotalUpdate<K>(gs: seq<GroupCount<K>>, i: nat, g: GroupCount<K>)
    requires i < |gs|
    ensures Total(gs[i := g]) + gs[i].count == Total(gs) + g.count
  {
    var n := |gs| - 1;
    if i < n {
      assert gs[i := g][..n] == gs[..n][i := g];
      TotalUpdate(gs[..n], i, g);
    } else {
      assert gs[i := g][..n] == gs[..n];
    }
  }

  /** The group counts add up to the number of records grouped. */
  lemma {:induction false} GroupTotal<K(!new)>(keys: seq<K>)
    ensures Total(Group(keys)) == |keys|
  {
    if keys != [] {
      var init := keys[..|keys| - 1];
      var last := keys[|keys| - 1];
      GroupTotal(init);
      var gs := Group(init);
      var i := IndexOfKey(gs, last);
      if i < |gs| {
        TotalUpdate(gs, i, GroupCount(last, gs[i].count + 1));
      } else {
        assert (gs + [GroupCount(last, 1)])[..|gs|] == gs;
      }
    }
  }

  // ----- Fields of the matched records -----

  function Makes(vs: seq<Vehicle>): seq<string> { seq(|vs|, i requires 0 <= i < |vs| => vs[i].make) }
  function Models(vs: seq<Vehicle>): seq<string> { seq(|vs|, i requires 0 <= i < |vs| => vs[i].vehicleModel) }
  function Years(vs: seq<Vehicle>): seq<int> { seq(|vs|, i requires 0 <= i < |vs| => vs[i].year) }
  function Prices(vs: seq<Vehicle>): seq<int> { seq(|vs|, i requires 0 <= i < |vs| => vs[i].price) }
  function Mileages(vs: seq<Vehicle>): seq<int> { seq(|vs|, i requires 0 <= i < |vs| => vs[i].mileage) }

  /** `find().sort({ <field>: -1 }).limit(1)[0]` for the field `key` reads:
      a record with the highest value (the first such in store order), or
      nothing in an empty store. */
  function TopBy(docs: seq<Vehicle>, key: Vehicle -> int): (r: Option<Vehicle>)
    ensures r.Some? <==> docs != []
    ensures r.Some? ==> r.value in docs && forall v :: v in docs ==> key(v) <= key(r.value)
  {
    if docs == [] then None
    else match TopBy(docs[1..], key)
      case None => Some(docs[0])
      case Some(t) => if key(docs[0]) >= key(t) then Some(docs[0]) else Some(t)
  }

  /** The record of highest price. */
  function TopByPrice(docs: seq<Vehicle>): (r: Option<Vehicle>)
    ensures r.Some? <==> docs != []
    ensures r.Some? ==> r.value in docs && forall v :: v in docs ==> v.price <= r.value.price
  {
    TopBy(docs, (v: Vehicle) => v.price)
  }

  /** The record of highest mileage. */
  function TopByMileage(docs: seq<Vehicle>): (r: Option<Vehicle>)
    ensures r.Some? <==> docs != []
    ensures r.Some? ==> r.value in docs && forall v :: v in docs ==> v.mileage <= r.value.mileage
  {
    TopBy(docs, (v: Vehicle) => v.mileage)
  }

  /** The mileage boundaries stop at the first multiple of 25000 at or above
      the PRICE of the highest-mileage record; when that record's mileage
      exceeds its price by a full bucket width or more, the record itself is
      counted in the default mileage bucket. */
  lemma TopMileageOutsideBuckets(docs: seq<Vehicle>)
    requires docs != []
    requires TopByMileage(docs).value.price > 0
    requires TopByMileage(docs).value.price + MileageBucketWidth <= TopByMileage(docs).value.mileage
    ensures Slot(BoundaryList(TopByMileage(docs).value.price, MileageBucketWidth),
                 TopByMileage(docs).value.mileage) == None
  {
    var t := TopByMileage(docs).value;
    var b := BoundaryList(t.price, MileageBucketWidth);
    BoundaryListShape(t.price, MileageBucketWidth);
    assert b[|b| - 1] == b[|b| - 2] + MileageBucketWidth;
    SlotOfBoundaryList(t.price, MileageBucketWidth, t.mileage);
  }
}
