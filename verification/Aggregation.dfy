/** Off-chain price aggregation: staleness filter, outlier filter, median. */
module PriceAggregation {
  import opened Outcomes
  import opened OrderStatistics

  datatype Sample = Sample(source: string, price: real, ledger: int)

  datatype Options = Options(currentLedger: int, maxAgeLedgers: int, maxDeviationPct: real, minSources: int)

  /** `price` is None where the code returns null. */
  datatype Aggregation = Aggregation(
    price: Option<real>, usedSources: seq<string>, rejectedStale: seq<string>, rejectedOutlier: seq<string>)

  /** The exception thrown by `median` on an empty array. */
  datatype Failure = EmptyMedian

  // ---- Primitives --------------------------------------------------------------

  function Median(values: seq<real>): Result<real, Failure> {
    if |values| == 0 then Err(EmptyMedian) else Ok(MedianOf(REAL_LE, REAL_AVG, values))
  }

  function Abs(x: real): real {
    if x < 0.0 then -x else x
  }

  predicate IsOutlier(value: real, referenceMedian: real, maxDeviationPct: real) {
    if referenceMedian == 0.0 then value != 0.0
    else Abs(value - referenceMedian) / Abs(referenceMedian) * 100.0 > maxDeviationPct
  }

  predicate IsStale(currentLedger: int, sampleLedger: int, maxAgeLedgers: int) {
    currentLedger - sampleLedger > maxAgeLedgers
  }

  function Filter<T(!new)>(xs: seq<T>, p: T -> bool): (ys: seq<T>)
    ensures |ys| == Count(xs, p)
  {
    if xs == [] then [] else (if p(xs[0]) then [xs[0]] else []) + Filter(xs[1..], p)
  }

  function Map<T, U>(f: T -> U, xs: seq<T>): (ys: seq<U>)
    ensures |ys| == |xs| && forall i :: 0 <= i < |xs| ==> ys[i] == f(xs[i])
  {
    if xs == [] then [] else [f(xs[0])] + Map(f, xs[1..])
  }

  const PRICE: Sample -> real := (s: Sample) => s.price
  const SOURCE: Sample -> string := (s: Sample) => s.source

  function Stale(opts: Options): Sample -> bool {
    (s: Sample) => IsStale(opts.currentLedger, s.ledger, opts.maxAgeLedgers)
  }

  function Fresh(opts: Options): Sample -> bool {
    (s: Sample) => !IsStale(opts.currentLedger, s.ledger, opts.maxAgeLedgers)
  }

  function Deviates(ref: real, d: real): Sample -> bool {
    (s: Sample) => IsOutlier(s.price, ref, d)
  }

  function Agrees(ref: real, d: real): Sample -> bool {
    (s: Sample) => !IsOutlier(s.price, ref, d)
  }

  function RejectOutliers(values: seq<real>, d: real): seq<real> {
    if values == [] then []
    else Filter(values, v => !IsOutlier(v, Median(values).value, d))
  }

  /** Outlier filter around ref, then the median of the survivors. */
  function AggregateAround(recent: seq<Sample>, stale: seq<string>, opts: Options, ref: real): Result<Aggregation, Failure> {
    var outliers := Map(SOURCE, Filter(recent, Deviates(ref, opts.maxDeviationPct)));
    var surviving := Filter(recent, Agrees(ref, opts.maxDeviationPct));
    if |surviving| < opts.minSources then Ok(Aggregation(None, [], stale, outliers))
    else match Median(Map(PRICE, surviving))
      case Err(e) => Err(e)
      case Ok(m) => Ok(Aggregation(Some(m), Map(SOURCE, surviving), stale, outliers))
  }

  /** The specification of `aggregate`. */
  function Aggregate(samples: seq<Sample>, opts: Options): Result<Aggregation, Failure> {
    var stale := Map(SOURCE, Filter(samples, Stale(opts)));
    var recent := Filter(samples, Fresh(opts));
    if recent == [] then Ok(Aggregation(None, [], stale, []))
    else AggregateAround(recent, stale, opts, Median(Map(PRICE, recent)).value)
  }

  // ---- The loops ----------------------------------------------------------------

  lemma {:induction false} FilterAppend<T(!new)>(xs: seq<T>, x: T, p: T -> bool)
    ensures Filter(xs + [x], p) == Filter(xs, p) + if p(x) then [x] else []
  {
    if xs == [] {
      assert xs + [x] == [x];
    } else {
      assert (xs + [x])[1..] == xs[1..] + [x];
      FilterAppend(xs[1..], x, p);
    }
  }

  lemma MapAppend<T, U>(f: T -> U, xs: seq<T>, x: T)
    ensures Map(f, xs + [x]) == Map(f, xs) + [f(x)]
  {
  }

  /** Split a list in one pass, as both loops of `aggregate` do: sources of the rejected, samples of the kept. */
  method Split(samples: seq<Sample>, reject: Sample -> bool, keep: Sample -> bool)
    returns (rejected: seq<string>, kept: seq<Sample>)
    requires forall s :: keep(s) == !reject(s)
    ensures rejected == Map(SOURCE, Filter(samples, reject)) && kept == Filter(samples, keep)
  {
    rejected, kept := [], [];
    for i := 0 to |samples|
      invariant rejected == Map(SOURCE, Filter(samples[..i], reject))
      invariant kept == Filter(samples[..i], keep)
    {
      var s := samples[i];
      assert samples[..i + 1] == samples[..i] + [s];
      FilterAppend(samples[..i], s, reject);
      FilterAppend(samples[..i], s, keep);
      if reject(s) {
        MapAppend(SOURCE, Filter(samples[..i], reject), s);
        rejected := rejected + [s.source];
      } else {
        kept := kept + [s];
      }
    }
    assert samples[..|samples|] == samples;
  }

  method ComputeAggregate(samples: seq<Sample>, opts: Options) returns (r: Result<Aggregation, Failure>)
    ensures r == Aggregate(samples, opts)
  {
    var rejectedStale, recent := Split(samples, Stale(opts), Fresh(opts));
    if |recent| == 0 {
      return Ok(Aggregation(None, [], rejectedStale, []));
    }
    var ref := Median(Map(PRICE, recent)).value;
    var rejectedOutlier, surviving :=
      Split(recent, Deviates(ref, opts.maxDeviationPct), Agrees(ref, opts.maxDeviationPct));
    if |surviving| < opts.minSources {
      return Ok(Aggregation(None, [], rejectedStale, rejectedOutlier));
    }
    var m := Median(Map(PRICE, surviving));
    if m.Err? { return Err(m.error); }
    return Ok(Aggregation(Some(m.value), Map(SOURCE, surviving), rejectedStale, rejectedOutlier));
  }

  // ---- The median meets its sort-free definition -----------------------------------

  lemma MedianIsMedian(values: seq<real>)
    requires values != []
    ensures Median(values).Ok? && IsMedian(REAL_LE, REAL_AVG, values, Median(values).value)
  {
    PriceOrders();
    MedianOfIff(REAL_LE, REAL_AVG, values, Median(values).value);
  }

  ghost predicate AllWithin(values: seq<real>, a: real, b: real) {
    forall i :: 0 <= i < |values| ==> a <= values[i] <= b
  }

  /** A bound on every value bounds the median. */
  lemma MedianWithin(values: seq<real>, m: real, a: real, b: real)
    requires values != [] && IsMedian(REAL_LE, REAL_AVG, values, m)
    requires AllWithin(values, a, b)
    ensures a <= m <= b
  {
    PriceOrders();
    CountAll(values, Within(REAL_LE, a, b));
    MedianRobust(REAL_LE, REAL_AVG, values, m, a, b);
  }

  lemma MedianOfPermutation(xs: seq<real>, ys: seq<real>)
    requires multiset(xs) == multiset(ys)
    ensures Median(xs) == Median(ys)
  {
    assert |xs| == |multiset(xs)| == |multiset(ys)| == |ys|;
    if xs != [] {
      MedianIsMedian(xs);
      MedianIsMedian(ys);
      MedianPermutation(REAL_LE, REAL_AVG, xs, ys, Median(xs).value);
      PriceOrders();
      MedianUnique(REAL_LE, REAL_AVG, ys, Median(xs).value, Median(ys).value);
    }
  }

  // ---- Manipulation bound ------------------------------------------------------------

  /** The percentage test without division. */
  lemma OutlierByProduct(value: real, ref: real, d: real)
    requires ref > 0.0
    ensures IsOutlier(value, ref, d) <==> Abs(value - ref) * 100.0 > d * ref
  {
    var q := Abs(value - ref) / ref;
    assert q * ref == Abs(value - ref);
    assert q * 100.0 > d <==> (q * 100.0) * ref > d * ref;
  }

  lemma {:induction false} FilterElements<T(!new)>(xs: seq<T>, p: T -> bool)
    ensures forall x :: x in Filter(xs, p) <==> x in xs && p(x)
  {
    if xs != [] { FilterElements(xs[1..], p); }
  }

  /** Every surviving price lies within the fraction d / 100 of the reference. */
  lemma SurvivorsNearReference(recent: seq<Sample>, ref: real, d: real, radius: real)
    requires ref > 0.0 && d * ref == 100.0 * radius
    ensures AllWithin(Map(PRICE, Filter(recent, Agrees(ref, d))), ref - radius, ref + radius)
  {
    var kept := Filter(recent, Agrees(ref, d));
    FilterElements(recent, Agrees(ref, d));
    forall i | 0 <= i < |kept| ensures ref - radius <= kept[i].price <= ref + radius {
      assert kept[i] in kept;
      OutlierByProduct(kept[i].price, ref, d);
    }
  }

  ghost function FreshPrices(samples: seq<Sample>, opts: Options): seq<real> {
    Map(PRICE, Filter(samples, Fresh(opts)))
  }

  ghost function SurvivingPrices(samples: seq<Sample>, opts: Options, ref: real): seq<real> {
    Map(PRICE, Filter(Filter(samples, Fresh(opts)), Agrees(ref, opts.maxDeviationPct)))
  }

  ghost predicate Published(samples: seq<Sample>, opts: Options, p: real) {
    Aggregate(samples, opts).Ok? && Aggregate(samples, opts).value.price == Some(p)
  }

  /** The median of the survivors around ref, where `aggregate` publishes one. */
  ghost predicate PublishedAround(samples: seq<Sample>, opts: Options, ref: real, p: real) {
    var kept := SurvivingPrices(samples, opts, ref);
    kept != [] && |kept| >= opts.minSources && IsMedian(REAL_LE, REAL_AVG, kept, p)
  }

  lemma PublishedAroundOwnMedian(samples: seq<Sample>, opts: Options, p: real)
    requires FreshPrices(samples, opts) != []
    ensures Median(FreshPrices(samples, opts)).Ok?
    ensures Published(samples, opts, p)
      <==> PublishedAround(samples, opts, Median(FreshPrices(samples, opts)).value, p)
  {
    var ref := Median(FreshPrices(samples, opts)).value;
    var kept := SurvivingPrices(samples, opts, ref);
    if kept != [] {
      MedianIsMedian(kept);
      if IsMedian(REAL_LE, REAL_AVG, kept, p) {
        PriceOrders();
        MedianUnique(REAL_LE, REAL_AVG, kept, p, Median(kept).value);
      }
    }
  }

  /** A price is published exactly when some source is fresh and enough (and at least one) of the
      fresh agree with their median ref; it is then the median of those. */
  lemma PublishedIff(samples: seq<Sample>, opts: Options, p: real, ref: real)
    requires IsMedian(REAL_LE, REAL_AVG, FreshPrices(samples, opts), ref)
    ensures Published(samples, opts, p) <==> PublishedAround(samples, opts, ref, p)
  {
    var recent := FreshPrices(samples, opts);
    MedianIsMedian(recent);
    PriceOrders();
    MedianUnique(REAL_LE, REAL_AVG, recent, ref, Median(recent).value);
    PublishedAroundOwnMedian(samples, opts, p);
  }

  lemma FreshMedianRobust(prices: seq<real>, ref: real, a: real, b: real)
    requires IsMedian(REAL_LE, REAL_AVG, prices, ref) && 2 * Count(prices, Within(REAL_LE, a, b)) > |prices|
    ensures a <= ref <= b
  {
    PriceOrders();
    MedianRobust(REAL_LE, REAL_AVG, prices, ref, a, b);
  }

  /** p stays within the fraction e of ref, and ref inside [a, b]; so p leaves [a, b] by at most
      the fraction e. Above e = 1 the lower side is measured from b instead of a. */
  ghost predicate Contained(p: real, ref: real, e: real, a: real, b: real) {
    && a <= ref <= b
    && ref - ref * e <= p <= ref + ref * e
    && p <= b + b * e
    && (if e <= 1.0 then a - a * e <= p else b - b * e <= p)
  }

  lemma ContainedByInterval(p: real, ref: real, e: real, radius: real, a: real, b: real)
    requires radius == ref * e
    ensures ref - radius <= p <= ref + radius && 0.0 < a <= ref <= b ==> Contained(p, ref, e, a, b)
  {
    if ref - radius <= p <= ref + radius && 0.0 < a <= ref <= b {
      Scale(a, ref, b, e);
    }
  }

  /** p is at most the fraction e below a. */
  ghost predicate AboveFraction(p: real, e: real, a: real) {
    a - a * e <= p
  }

  lemma NonNegativeAbove(p: real, ref: real, e: real, radius: real, a: real, b: real)
    requires radius == ref * e
    ensures ref - radius <= p <= ref + radius && 0.0 < a <= ref <= b && 0.0 <= p ==> AboveFraction(p, e, a)
  {
    if ref - radius <= p <= ref + radius && 0.0 < a <= ref <= b && 0.0 <= p {
      Scale(a, ref, b, e);
      if e > 1.0 { Product(a, e - 1.0); }
    }
  }

  /** An interval around a positive reference that holds every surviving price, and from which
      containment follows. */
  lemma SurvivalInterval(samples: seq<Sample>, opts: Options, p: real, ref: real, a: real, b: real)
    returns (lo: real, hi: real)
    requires 0.0 < a <= ref <= b
    ensures AllWithin(SurvivingPrices(samples, opts, ref), lo, hi)
    ensures lo <= p <= hi ==> Contained(p, ref, opts.maxDeviationPct / 100.0, a, b)
    ensures lo <= p <= hi && 0.0 <= p ==> AboveFraction(p, opts.maxDeviationPct / 100.0, a)
  {
    var d, e := opts.maxDeviationPct, opts.maxDeviationPct / 100.0;
    var radius := ref * e;
    Percent(d, e, ref);
    ContainedByInterval(p, ref, e, radius, a, b);
    NonNegativeAbove(p, ref, e, radius, a, b);
    SurvivorsNearReference(Filter(samples, Fresh(opts)), ref, d, radius);
    lo, hi := ref - radius, ref + radius;
  }

  lemma PublishedWithin(samples: seq<Sample>, opts: Options, p: real, ref: real, lo: real, hi: real)
    requires IsMedian(REAL_LE, REAL_AVG, FreshPrices(samples, opts), ref) && Published(samples, opts, p)
    requires AllWithin(SurvivingPrices(samples, opts, ref), lo, hi)
    ensures lo <= p <= hi
  {
    PublishedIff(samples, opts, p, ref);
    MedianWithin(SurvivingPrices(samples, opts, ref), p, lo, hi);
  }

  /** A minority of fresh sources can move the published price out of the majority's range
      [a, b] by at most the fraction maxDeviationPct / 100. */
  lemma ManipulationBound(samples: seq<Sample>, opts: Options, p: real, ref: real, a: real, b: real)
    requires IsMedian(REAL_LE, REAL_AVG, FreshPrices(samples, opts), ref) && Published(samples, opts, p)
    requires 0.0 < a
    requires 2 * Count(FreshPrices(samples, opts), Within(REAL_LE, a, b)) > |FreshPrices(samples, opts)|
    ensures Contained(p, ref, opts.maxDeviationPct / 100.0, a, b)
  {
    FreshMedianRobust(FreshPrices(samples, opts), ref, a, b);
    var lo, hi := SurvivalInterval(samples, opts, p, ref, a, b);
    PublishedWithin(samples, opts, p, ref, lo, hi);
  }

  ghost predicate NonNegativePrices(samples: seq<Sample>) {
    forall s :: s in samples ==> s.price >= 0.0
  }

  lemma SurvivorsNonNegative(samples: seq<Sample>, opts: Options, ref: real) returns (top: real)
    requires NonNegativePrices(samples)
    ensures AllWithin(SurvivingPrices(samples, opts, ref), 0.0, top)
  {
    var recent := Filter(samples, Fresh(opts));
    var kept := Filter(recent, Agrees(ref, opts.maxDeviationPct));
    FilterElements(samples, Fresh(opts));
    FilterElements(recent, Agrees(ref, opts.maxDeviationPct));
    forall i | 0 <= i < |kept| ensures kept[i].price >= 0.0 {
      assert kept[i] in kept;
    }
    top := UpperBound(Map(PRICE, kept));
  }

  lemma {:induction false} UpperBound(values: seq<real>) returns (top: real)
    ensures forall i :: 0 <= i < |values| ==> values[i] <= top
  {
    top := 0.0;
    if values != [] {
      var rest := UpperBound(values[1..]);
      top := if values[0] > rest then values[0] else rest;
      assert forall i :: 0 < i < |values| ==> values[i] == values[1..][i - 1];
    }
  }

  lemma PublishedNonNegative(samples: seq<Sample>, opts: Options, p: real, ref: real)
    requires IsMedian(REAL_LE, REAL_AVG, FreshPrices(samples, opts), ref) && Published(samples, opts, p)
    requires NonNegativePrices(samples)
    ensures p >= 0.0
  {
    var top := SurvivorsNonNegative(samples, opts, ref);
    PublishedWithin(samples, opts, p, ref, 0.0, top);
  }

  /** For prices that are not negative, the majority's lower end bounds the published price at every
      threshold, above 100 percent too. */
  lemma NonNegativeManipulationBound(samples: seq<Sample>, opts: Options, p: real, ref: real, a: real, b: real)
    requires IsMedian(REAL_LE, REAL_AVG, FreshPrices(samples, opts), ref) && Published(samples, opts, p)
    requires 0.0 < a && NonNegativePrices(samples)
    requires 2 * Count(FreshPrices(samples, opts), Within(REAL_LE, a, b)) > |FreshPrices(samples, opts)|
    ensures AboveFraction(p, opts.maxDeviationPct / 100.0, a)
  {
    PublishedNonNegative(samples, opts, p, ref);
    FreshMedianRobust(FreshPrices(samples, opts), ref, a, b);
    var lo, hi := SurvivalInterval(samples, opts, p, ref, a, b);
    PublishedWithin(samples, opts, p, ref, lo, hi);
  }

  lemma Percent(d: real, e: real, ref: real)
    requires e == d / 100.0
    ensures d * ref == 100.0 * (ref * e)
  {
  }

  /** A non-empty interval around ref forces e >= 0; scaling then respects a <= ref <= b. */
  lemma Scale(a: real, ref: real, b: real, e: real)
    requires 0.0 < a <= ref <= b && ref - ref * e <= ref + ref * e
    ensures e >= 0.0 && ref + ref * e <= b + b * e
    ensures if e <= 1.0 then a - a * e <= ref - ref * e else b - b * e <= ref - ref * e
  {
    if e < 0.0 {
      Product(ref, -e);
    } else {
      Product(b - ref, e);
      if e <= 1.0 {
        Product(ref - a, 1.0 - e);
      } else {
        Product(b - ref, e - 1.0);
      }
    }
  }

  lemma Product(x: real, y: real)
    requires x >= 0.0 && y >= 0.0
    ensures x * y >= 0.0 && (x > 0.0 && y > 0.0 ==> x * y > 0.0)
  {
  }

  // ---- aggregate is a function of the multiset of samples ------------------------------

  lemma {:induction false} FilterMultiplicity<T(!new)>(xs: seq<T>, p: T -> bool, x: T)
    ensures multiset(Filter(xs, p))[x] == if p(x) then multiset(xs)[x] else 0
  {
    if xs != [] {
      assert xs == [xs[0]] + xs[1..];
      FilterMultiplicity(xs[1..], p, x);
    }
  }

  lemma FilterPermutation<T(!new)>(xs: seq<T>, ys: seq<T>, p: T -> bool)
    requires multiset(xs) == multiset(ys)
    ensures multiset(Filter(xs, p)) == multiset(Filter(ys, p))
  {
    forall x ensures multiset(Filter(xs, p))[x] == multiset(Filter(ys, p))[x] {
      FilterMultiplicity(xs, p, x);
      FilterMultiplicity(ys, p, x);
    }
  }

  function Hits<T(!new), U(==)>(f: T -> U, u: U): T -> bool {
    x => f(x) == u
  }

  lemma {:induction false} MapMultiplicity<T(!new), U>(f: T -> U, xs: seq<T>, u: U)
    ensures multiset(Map(f, xs))[u] == Count(xs, Hits(f, u))
  {
    if xs != [] { MapMultiplicity(f, xs[1..], u); }
  }

  lemma MapPermutation<T(!new), U(!new)>(f: T -> U, xs: seq<T>, ys: seq<T>)
    requires multiset(xs) == multiset(ys)
    ensures multiset(Map(f, xs)) == multiset(Map(f, ys))
  {
    forall u ensures multiset(Map(f, xs))[u] == multiset(Map(f, ys))[u] {
      MapMultiplicity(f, xs, u);
      MapMultiplicity(f, ys, u);
      CountPermutation(xs, ys, Hits(f, u));
    }
  }

  lemma FilteredSources(xs: seq<Sample>, ys: seq<Sample>, p: Sample -> bool)
    requires multiset(xs) == multiset(ys)
    ensures multiset(Filter(xs, p)) == multiset(Filter(ys, p)) && |Filter(xs, p)| == |Filter(ys, p)|
    ensures multiset(Map(SOURCE, Filter(xs, p))) == multiset(Map(SOURCE, Filter(ys, p)))
    ensures Median(Map(PRICE, Filter(xs, p))) == Median(Map(PRICE, Filter(ys, p)))
  {
    FilterPermutation(xs, ys, p);
    CountPermutation(xs, ys, p);
    MapPermutation(SOURCE, Filter(xs, p), Filter(ys, p));
    MapPermutation(PRICE, Filter(xs, p), Filter(ys, p));
    MedianOfPermutation(Map(PRICE, Filter(xs, p)), Map(PRICE, Filter(ys, p)));
  }

  /** Same price or same failure, and the same sources in each list up to order. */
  ghost predicate SameUpToOrder(r: Result<Aggregation, Failure>, q: Result<Aggregation, Failure>) {
    if r.Err? || q.Err? then r == q
    else
      && r.value.price == q.value.price
      && multiset(r.value.usedSources) == multiset(q.value.usedSources)
      && multiset(r.value.rejectedStale) == multiset(q.value.rejectedStale)
      && multiset(r.value.rejectedOutlier) == multiset(q.value.rejectedOutlier)
  }

  lemma ReorderingIrrelevantAround(
    xs: seq<Sample>, ys: seq<Sample>, sx: seq<string>, sy: seq<string>, opts: Options, ref: real)
    requires multiset(xs) == multiset(ys) && multiset(sx) == multiset(sy)
    ensures SameUpToOrder(AggregateAround(xs, sx, opts, ref), AggregateAround(ys, sy, opts, ref))
  {
    FilteredSources(xs, ys, Deviates(ref, opts.maxDeviationPct));
    FilteredSources(xs, ys, Agrees(ref, opts.maxDeviationPct));
  }

  /** Reordering the samples changes neither the price nor, up to order, the source lists. */
  lemma ReorderingIrrelevant(xs: seq<Sample>, ys: seq<Sample>, opts: Options)
    requires multiset(xs) == multiset(ys)
    ensures SameUpToOrder(Aggregate(xs, opts), Aggregate(ys, opts))
  {
    FilteredSources(xs, ys, Stale(opts));
    FilteredSources(xs, ys, Fresh(opts));
    var recent, recent' := Filter(xs, Fresh(opts)), Filter(ys, Fresh(opts));
    assert recent == [] <==> recent' == [];
    if recent != [] {
      ReorderingIrrelevantAround(recent, recent', Map(SOURCE, Filter(xs, Stale(opts))),
        Map(SOURCE, Filter(ys, Stale(opts))), opts, Median(Map(PRICE, recent)).value);
    }
  }

  // ---- Every source is accounted for -----------------------------------------------------

  lemma SplitPermutes<T(!new)>(xs: seq<T>, p: T -> bool, q: T -> bool)
    requires forall x :: p(x) == !q(x)
    ensures multiset(Filter(xs, p) + Filter(xs, q)) == multiset(xs)
  {
    forall x ensures multiset(Filter(xs, p) + Filter(xs, q))[x] == multiset(xs)[x] {
      FilterMultiplicity(xs, p, x);
      FilterMultiplicity(xs, q, x);
    }
  }

  lemma MapConcat<T, U>(f: T -> U, xs: seq<T>, ys: seq<T>)
    ensures Map(f, xs + ys) == Map(f, xs) + Map(f, ys)
  {
  }

  lemma SplitSources(xs: seq<Sample>, p: Sample -> bool, q: Sample -> bool)
    requires forall s :: p(s) == !q(s)
    ensures multiset(Map(SOURCE, Filter(xs, p))) + multiset(Map(SOURCE, Filter(xs, q))) == multiset(Map(SOURCE, xs))
  {
    SplitPermutes(xs, p, q);
    MapPermutation(SOURCE, Filter(xs, p) + Filter(xs, q), xs);
    MapConcat(SOURCE, Filter(xs, p), Filter(xs, q));
  }

  ghost predicate PublishesWith(r: Result<Aggregation, Failure>, used: multiset<string>, stale: multiset<string>, outlier: multiset<string>) {
    r.Ok? && r.value.price.Some? && multiset(r.value.usedSources) == used
    && multiset(r.value.rejectedStale) == stale && multiset(r.value.rejectedOutlier) == outlier
  }

  lemma PublishedAroundLists(recent: seq<Sample>, stale: seq<string>, opts: Options, ref: real)
    requires var r := AggregateAround(recent, stale, opts, ref); r.Ok? && r.value.price.Some?
    ensures PublishesWith(AggregateAround(recent, stale, opts, ref),
      multiset(Map(SOURCE, Filter(recent, Agrees(ref, opts.maxDeviationPct)))), multiset(stale),
      multiset(Map(SOURCE, Filter(recent, Deviates(ref, opts.maxDeviationPct)))))
  {
  }

  /** When a price is published each source lands in exactly one of used, stale and outlier. */
  lemma SourcesPartitioned(
    samples: seq<Sample>, opts: Options, used: multiset<string>, stale: multiset<string>, outlier: multiset<string>)
    requires PublishesWith(Aggregate(samples, opts), used, stale, outlier)
    ensures used + stale + outlier == multiset(Map(SOURCE, samples))
  {
    var recent := Filter(samples, Fresh(opts));
    var ref := Median(Map(PRICE, recent)).value;
    PublishedAroundLists(recent, Map(SOURCE, Filter(samples, Stale(opts))), opts, ref);
    SplitSources(samples, Stale(opts), Fresh(opts));
    SplitSources(recent, Deviates(ref, opts.maxDeviationPct), Agrees(ref, opts.maxDeviationPct));
  }

  // ---- Ages -------------------------------------------------------------------------------

  /** At most maxAgeLedgers old, the bound included. */
  function YoungEnough(opts: Options): Sample -> bool {
    (s: Sample) => opts.currentLedger <= s.ledger + opts.maxAgeLedgers
  }

  function TooOld(opts: Options): Sample -> bool {
    (s: Sample) => opts.currentLedger > s.ledger + opts.maxAgeLedgers
  }

  /** The samples that prices are taken from are exactly those young enough, in order. */
  lemma FreshByAge(samples: seq<Sample>, opts: Options)
    ensures Filter(samples, Fresh(opts)) == Filter(samples, YoungEnough(opts))
    ensures Filter(samples, Stale(opts)) == Filter(samples, TooOld(opts))
    ensures forall s :: s in Filter(samples, Fresh(opts)) <==>
      s in samples && opts.currentLedger <= s.ledger + opts.maxAgeLedgers
  {
    FilterCongruent(samples, Fresh(opts), YoungEnough(opts));
    FilterCongruent(samples, Stale(opts), TooOld(opts));
    FilterElements(samples, Fresh(opts));
  }

  /** Same price, same sources used and same outliers, or the same failure. */
  ghost predicate SameButStale(r: Result<Aggregation, Failure>, q: Result<Aggregation, Failure>) {
    if r.Err? || q.Err? then r == q
    else
      && r.value.price == q.value.price && r.value.usedSources == q.value.usedSources
      && r.value.rejectedOutlier == q.value.rejectedOutlier
  }

  /** Samples that are too old have no influence: batches that agree on the rest give the same price. */
  lemma OldSamplesIrrelevant(xs: seq<Sample>, ys: seq<Sample>, opts: Options)
    requires Filter(xs, YoungEnough(opts)) == Filter(ys, YoungEnough(opts))
    ensures SameButStale(Aggregate(xs, opts), Aggregate(ys, opts))
  {
    FreshByAge(xs, opts);
    FreshByAge(ys, opts);
  }

  lemma {:induction false} FilterTwice<T(!new)>(xs: seq<T>, p: T -> bool)
    ensures Filter(Filter(xs, p), p) == Filter(xs, p)
  {
    FilterElements(xs, p);
    FilterAll(Filter(xs, p), p);
  }

  /** In particular they may be dropped. */
  lemma OldSamplesDropped(samples: seq<Sample>, opts: Options)
    ensures SameButStale(Aggregate(samples, opts), Aggregate(Filter(samples, YoungEnough(opts)), opts))
  {
    FilterTwice(samples, YoungEnough(opts));
    OldSamplesIrrelevant(samples, Filter(samples, YoungEnough(opts)), opts);
  }

  /** The list of stale sources names exactly the samples that are too old, in order. */
  lemma StaleSourcesAreOld(samples: seq<Sample>, opts: Options)
    requires Aggregate(samples, opts).Ok?
    ensures Aggregate(samples, opts).value.rejectedStale == Map(SOURCE, Filter(samples, TooOld(opts)))
  {
    FreshByAge(samples, opts);
  }

  // ---- Results that are not prices ---------------------------------------------------------

  /** Some source is fresh and ref is the fresh median: which sources each list names, published or not. */
  lemma ListsAroundMedian(samples: seq<Sample>, opts: Options, ref: real)
    requires IsMedian(REAL_LE, REAL_AVG, FreshPrices(samples, opts), ref) && FreshPrices(samples, opts) != []
    requires Aggregate(samples, opts).Ok?
    ensures var r, recent := Aggregate(samples, opts).value, Filter(samples, Fresh(opts));
      && r.rejectedOutlier == Map(SOURCE, Filter(recent, Deviates(ref, opts.maxDeviationPct)))
      && r.usedSources == if r.price.None? then [] else Map(SOURCE, Filter(recent, Agrees(ref, opts.maxDeviationPct)))
  {
    MedianIsMedian(FreshPrices(samples, opts));
    PriceOrders();
    MedianUnique(REAL_LE, REAL_AVG, FreshPrices(samples, opts), ref, Median(FreshPrices(samples, opts)).value);
  }

  /** Nothing fresh: no price, nothing used, nothing rejected as an outlier. */
  lemma NothingFresh(samples: seq<Sample>, opts: Options)
    requires FreshPrices(samples, opts) == []
    ensures Aggregate(samples, opts) == Ok(Aggregation(None, [], Map(SOURCE, Filter(samples, TooOld(opts))), []))
  {
    FreshByAge(samples, opts);
  }

  /** The pipeline throws exactly when no fresh source survives and no source is asked for. */
  lemma ThrowsIff(samples: seq<Sample>, opts: Options, ref: real)
    requires IsMedian(REAL_LE, REAL_AVG, FreshPrices(samples, opts), ref) && FreshPrices(samples, opts) != []
    ensures Aggregate(samples, opts).Err? <==> SurvivingPrices(samples, opts, ref) == [] && opts.minSources <= 0
  {
    MedianIsMedian(FreshPrices(samples, opts));
    PriceOrders();
    MedianUnique(REAL_LE, REAL_AVG, FreshPrices(samples, opts), ref, Median(FreshPrices(samples, opts)).value);
  }

  // ---- Thresholds -------------------------------------------------------------------------

  /** Loosening the deviation threshold never turns a published price into null or a failure. */
  lemma LooseningKeepsPublishing(samples: seq<Sample>, opts: Options, d: real)
    requires Aggregate(samples, opts).Ok? && Aggregate(samples, opts).value.price.Some?
    requires opts.maxDeviationPct <= d
    ensures var r := Aggregate(samples, opts.(maxDeviationPct := d));
      r.Ok? && r.value.price.Some?
  {
    var recent := Filter(samples, Fresh(opts));
    assert recent == Filter(samples, Fresh(opts.(maxDeviationPct := d))) by {
      FilterCongruent(samples, Fresh(opts), Fresh(opts.(maxDeviationPct := d)));
    }
    var ref := Median(Map(PRICE, recent)).value;
    CountImplies(recent, Agrees(ref, opts.maxDeviationPct), Agrees(ref, d));
  }

  lemma {:induction false} FilterCongruent<T(!new)>(xs: seq<T>, p: T -> bool, q: T -> bool)
    requires forall x :: p(x) == q(x)
    ensures Filter(xs, p) == Filter(xs, q)
  {
    if xs != [] { FilterCongruent(xs[1..], p, q); }
  }

  lemma {:induction false} FilterAll<T(!new)>(xs: seq<T>, p: T -> bool)
    requires forall i :: 0 <= i < |xs| ==> p(xs[i])
    ensures Filter(xs, p) == xs
  {
    if xs != [] { FilterAll(xs[1..], p); }
  }

  lemma {:induction false} FilterConcat<T(!new)>(xs: seq<T>, ys: seq<T>, p: T -> bool)
    ensures Filter(xs + ys, p) == Filter(xs, p) + Filter(ys, p)
  {
    if xs == [] {
      assert xs + ys == ys;
    } else {
      assert (xs + ys)[1..] == xs[1..] + ys;
      FilterConcat(xs[1..], ys, p);
    }
  }

  function FiveSamples(p: real, ref: real, b: real): seq<Sample> {
    [Sample("A", p, 0), Sample("B", p, 0), Sample("C", ref, 0)] + [Sample("D", b, 0), Sample("E", b, 0)]
  }

  lemma FiveSamplesFresh(p: real, ref: real, b: real, opts: Options)
    requires opts.currentLedger == 0 && opts.maxAgeLedgers == 0
    ensures Filter(FiveSamples(p, ref, b), Fresh(opts)) == FiveSamples(p, ref, b)
    ensures FreshPrices(FiveSamples(p, ref, b), opts) == [p, p, ref, b, b]
  {
    FilterAll(FiveSamples(p, ref, b), Fresh(opts));
  }

  lemma FiveSamplesSurvivors(p: real, ref: real, b: real, d: real)
    requires !IsOutlier(p, ref, d) && !IsOutlier(ref, ref, d) && IsOutlier(b, ref, d)
    ensures Map(PRICE, Filter(FiveSamples(p, ref, b), Agrees(ref, d))) == [p, p, ref]
  {
    var low := [Sample("A", p, 0), Sample("B", p, 0), Sample("C", ref, 0)];
    var high := [Sample("D", b, 0), Sample("E", b, 0)];
    FilterAll(low, Agrees(ref, d));
    CountNone(high, Agrees(ref, d));
    FilterConcat(low, high, Agrees(ref, d));
    assert FiveSamples(p, ref, b) == low + high;
  }

  lemma FivePricesMedian(p: real, ref: real, b: real)
    requires p <= ref <= b && 1.0 <= ref
    ensures IsMedian(REAL_LE, REAL_AVG, [p, p, ref, b, b], ref) && IsMedian(REAL_LE, REAL_AVG, [p, p, ref], p)
    ensures 2 * Count([p, p, ref, b, b], Within(REAL_LE, 1.0, b)) > 5
  {
    SortedSelfMedian([p, p, ref, b, b], ref);
    SortedSelfMedian([p, p, ref], p);
    CountConcat([p, p], [ref, b, b], Within(REAL_LE, 1.0, b));
    CountAll([ref, b, b], Within(REAL_LE, 1.0, b));
    assert [p, p, ref, b, b] == [p, p] + [ref, b, b];
  }

  lemma SortedSelfMedian(xs: seq<real>, m: real)
    requires Sorted(REAL_LE, xs) && xs != []
    requires m == if |xs| % 2 == 1 then xs[|xs| / 2] else (xs[|xs| / 2 - 1] + xs[|xs| / 2]) / 2.0
    ensures IsMedian(REAL_LE, REAL_AVG, xs, m) && Median(xs) == Ok(m)
    ensures IsKth(REAL_LE, xs, (|xs| - 1) / 2, xs[(|xs| - 1) / 2])
  {
    SortedMedian(REAL_LE, REAL_AVG, xs, xs, m);
    SortedHoldsKth(REAL_LE, xs, xs, (|xs| - 1) / 2);
    MedianIsMedian(xs);
    PriceOrders();
    MedianUnique(REAL_LE, REAL_AVG, xs, m, Median(xs).value);
  }

  /** For every threshold above 100 percent the lower side of the manipulation bound does need b if a
      source may report a negative price: five sources, three of them in [1, b], publish the negative
      price of the other two, below 1 - e. */
  lemma LowerSideFailsAbove100(e: real)
    returns (samples: seq<Sample>, opts: Options, p: real, ref: real, b: real)
    requires e > 1.0
    ensures opts.maxDeviationPct == 100.0 * e
    ensures IsMedian(REAL_LE, REAL_AVG, FreshPrices(samples, opts), ref) && Published(samples, opts, p)
    ensures 2 * Count(FreshPrices(samples, opts), Within(REAL_LE, 1.0, b)) > |FreshPrices(samples, opts)|
    ensures p < 1.0 - e < 0.0 && !NonNegativePrices(samples)
  {
    var d := 100.0 * e;
    p, ref, b := 2.0 - 2.0 * e, 2.0, 4.0 + 2.0 * e;
    OutlierByProduct(p, ref, d);
    OutlierByProduct(ref, ref, d);
    OutlierByProduct(b, ref, d);
    FiveSamplesSurvivors(p, ref, b, d);
    samples, opts := FiveSamples(p, ref, b), Options(0, 0, d, 1);
    FiveSamplesFresh(p, ref, b, opts);
    FivePricesMedian(p, ref, b);
    PublishedIff(samples, opts, p, ref);
    assert samples[0] in samples;
  }

  // ---- Outlier rejection on its own ---------------------------------------------------------

  lemma OutlierMonotone(v: real, w: real, ref: real, d: real)
    requires Abs(v - ref) <= Abs(w - ref) && IsOutlier(v, ref, d)
    ensures IsOutlier(w, ref, d)
  {
    if ref != 0.0 {
      QuotientMonotone(Abs(v - ref), Abs(w - ref), Abs(ref));
    }
  }

  lemma QuotientMonotone(x: real, y: real, r: real)
    requires x <= y && r > 0.0
    ensures x / r <= y / r
  {
    var s, t := x / r, y / r;
    assert s * r == x && t * r == y;
    if s > t { MultiplyLess(t, s, r); }
  }

  lemma MultiplyLess(s: real, t: real, r: real)
    requires s < t && r > 0.0
    ensures s * r < t * r
  {
    assert t * r - s * r == (t - s) * r;
  }

  lemma OutlierByDistance(v: real, ref: real, d: real)
    requires ref != 0.0
    ensures IsOutlier(v, ref, d) <==> 100.0 * Distance(v, ref) > d * Distance(ref, 0.0)
  {
    var r := Abs(ref);
    var q := Abs(v - ref) / r;
    assert q * r == Abs(v - ref);
    assert (q * 100.0 - d) * r == 100.0 * Abs(v - ref) - d * r;
    if q * 100.0 > d { MultiplyLess(d, q * 100.0, r); } else if q * 100.0 < d { MultiplyLess(q * 100.0, d, r); }
  }

  /** Distance between two prices. */
  function Distance(x: real, y: real): real {
    if x >= y then x - y else y - x
  }

  /** Exactly which values survive outlier rejection, in their order: those equal to a zero median, or
      within d percent of a non-zero one. */
  lemma SurvivesIff(values: seq<real>, d: real, ref: real, v: real)
    requires IsMedian(REAL_LE, REAL_AVG, values, ref) && values != []
    ensures v in RejectOutliers(values, d) <==>
      && v in values
      && if ref == 0.0 then v == 0.0 else 100.0 * Distance(v, ref) <= d * Distance(ref, 0.0)
    ensures multiset(RejectOutliers(values, d))[v]
      == if v in RejectOutliers(values, d) then multiset(values)[v] else 0
  {
    MedianIsMedian(values);
    PriceOrders();
    MedianUnique(REAL_LE, REAL_AVG, values, ref, Median(values).value);
    var keep := (x: real) => !IsOutlier(x, ref, d);
    KeptAroundMedian(values, d, ref, keep);
    FilterElements(values, keep);
    FilterMultiplicity(values, keep, v);
    if ref != 0.0 { OutlierByDistance(v, ref, d); }
  }

  lemma KeptAroundMedian(values: seq<real>, d: real, ref: real, keep: real -> bool)
    requires values != [] && Median(values) == Ok(ref) && forall x :: keep(x) == !IsOutlier(x, ref, d)
    ensures RejectOutliers(values, d) == Filter(values, keep)
  {
    FilterCongruent(values, v => !IsOutlier(v, Median(values).value, d), keep);
  }

  /** No value is closer to the median than the lower middle one. */
  lemma LowerMiddleClosest(values: seq<real>, low: real, ref: real, v: real)
    requires IsMedian(REAL_LE, REAL_AVG, values, ref) && IsKth(REAL_LE, values, (|values| - 1) / 2, low)
    requires v in values
    ensures Abs(low - ref) <= Abs(v - ref)
  {
    PriceOrders();
    var k := |values| / 2;
    if |values| % 2 == 1 {
      KthUnique(REAL_LE, values, k, low, ref);
    } else {
      var lo, hi :| MiddlePair(REAL_LE, values, lo, hi) && ref == REAL_AVG(lo, hi);
      KthUnique(REAL_LE, values, k - 1, low, lo);
      KthMonotone(REAL_LE, values, k - 1, k, lo, hi);
      NothingBetweenNeighbours(REAL_LE, values, k - 1, lo, hi, v);
    }
  }

  /** Outlier rejection empties a batch exactly when the lower middle value is itself an outlier;
      the caller that takes the median of what is left fails on just those batches. */
  lemma RejectionEmptiesIff(values: seq<real>, d: real, low: real)
    requires values != [] && IsKth(REAL_LE, values, (|values| - 1) / 2, low)
    ensures Median(values).Ok?
    ensures Median(RejectOutliers(values, d)).Err? <==> IsOutlier(low, Median(values).value, d)
  {
    MedianIsMedian(values);
    var ref := Median(values).value;
    var keep := (v: real) => !IsOutlier(v, ref, d);
    assert RejectOutliers(values, d) == Filter(values, keep);
    FilterElements(values, keep);
    if IsOutlier(low, ref, d) {
      forall v | v in values ensures IsOutlier(v, ref, d) {
        LowerMiddleClosest(values, low, ref, v);
        OutlierMonotone(low, v, ref, d);
      }
      CountNone(values, keep);
    } else {
      assert low in Filter(values, keep);
    }
  }

  /** An odd batch never vanishes under a non-negative threshold. */
  lemma OddBatchSurvives(values: seq<real>, d: real)
    requires |values| % 2 == 1 && d >= 0.0
    ensures Median(RejectOutliers(values, d)).Ok?
  {
    MedianIsMedian(values);
    RejectionEmptiesIff(values, d, Median(values).value);
  }

  /** An even one can: two sources far apart reject each other. */
  lemma TwoDistantSourcesVanish(x: real, y: real, d: real)
    requires 0.0 < x < y && 100.0 * (y - x) > d * (x + y)
    ensures Median(RejectOutliers([x, y], d)).Err?
  {
    TwoSources(x, y, d);
    RejectionEmptiesIff([x, y], d, x);
  }

  lemma TwoSources(x: real, y: real, d: real)
    requires 0.0 < x < y && 100.0 * (y - x) > d * (x + y)
    ensures IsKth(REAL_LE, [x, y], 0, x) && Median([x, y]).Ok? && IsOutlier(x, Median([x, y]).value, d)
  {
    SortedSelfMedian([x, y], (x + y) / 2.0);
    var ref := (x + y) / 2.0;
    assert d * ref == d * (x + y) / 2.0;
    OutlierByProduct(x, ref, d);
  }
}
