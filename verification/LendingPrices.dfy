/** The on-chain price: what the two price entry points record, as a function of the whole run. */
module LendingPrices {
  import opened Division
  import opened Outcomes
  import opened OrderStatistics
  import opened LendingModel
  import opened LendingInvariants

  // ---- Oracle reports ---------------------------------------------------------------------

  lemma AllPositive(prices: seq<int>, m: int)
    requires prices != [] && forall p :: p in prices ==> 0 < p < MAX_PRICE
    requires IsMedian(INT_LE, INT_AVG, prices, m)
    ensures 0 < m < MAX_PRICE
  {
    forall i | 0 <= i < |prices| ensures 1 <= prices[i] <= MAX_PRICE - 1 {
      assert prices[i] in prices;
    }
    MedianInRange(prices, m, 1, MAX_PRICE - 1);
  }

  lemma MedianInRange(prices: seq<int>, m: int, a: int, b: int)
    requires prices != [] && forall i :: 0 <= i < |prices| ==> a <= prices[i] <= b
    requires IsMedian(INT_LE, INT_AVG, prices, m)
    ensures a <= m <= b
  {
    PriceOrders();
    CountAll(prices, Within(INT_LE, a, b));
    MedianRobust(INT_LE, INT_AVG, prices, m, a, b);
  }

  /** A price above one and a half times m, or below half of it. */
  function Outlying(m: int): int -> bool {
    p => 2 * p > 3 * m || 2 * p < m
  }

  lemma FlaggedAreOutlying(prices: seq<int>, m: int)
    requires m > 0
    ensures Count(prices, FarFrom(m)) == Count(prices, Outlying(m))
  {
    CountImplies(prices, FarFrom(m), Outlying(m));
    CountImplies(prices, Outlying(m), FarFrom(m));
  }

  /** A batch is accepted exactly when it has one valid price per listed oracle, the quorum is met
      and the list is not empty. The reported price is then the median of the batch, a price of the
      same range, and no minority of the batch can move it out of a majority's range. The batch has
      at most five prices, so the fixed array of the sort is never overrun. */
  lemma OracleReportSound(s: State, now: nat, submitter: Address, prices: seq<int>, a: int, b: int)
    requires Inv(s)
    ensures SubmitOraclePrices(s, now, submitter, prices).Done? <==>
      && submitter != Contract && 0 < |prices| == |OracleList(s.cfg)| && s.cfg.minQuorum <= |prices|
      && forall p :: p in prices ==> 0 < p < 1_000_000_000_000_000_000
    ensures SubmitOraclePrices(s, now, submitter, prices).Done? ==>
      var r := SubmitOraclePrices(s, now, submitter, prices).value;
      && IsMedian(INT_LE, INT_AVG, prices, r.median) && 0 < r.median < MAX_PRICE
      && r.responses == |prices| <= 5 && r.flagged == Count(prices, Outlying(r.median))
      && (2 * Count(prices, Within(INT_LE, a, b)) > |prices| ==> a <= r.median <= b)
  {
    if SubmitOraclePrices(s, now, submitter, prices).Done? {
      var m := MedianOf(INT_LE, INT_AVG, prices);
      PriceOrders();
      MedianOfIff(INT_LE, INT_AVG, prices, m);
      AllPositive(prices, m);
      FlaggedAreOutlying(prices, m);
      if 2 * Count(prices, Within(INT_LE, a, b)) > |prices| {
        MedianRobust(INT_LE, INT_AVG, prices, m, a, b);
      }
    }
  }

  // ---- The averaging window -----------------------------------------------------------------

  /** The price that an event records, if it is an accepted submission through either entry point. */
  ghost function Recorded(s: State, e: Event): Option<int> {
    match e.action
    case PostPrice(o, p) => if SubmitPrice(s, e.now, o, p).Done? then Some(p) else None
    case PostOraclePrices(who, ps) =>
      var tx := SubmitOraclePrices(s, e.now, who, ps);
      if tx.Done? then Some(tx.value.median) else None
    case _ => None
  }

  /** The prices of an averaging window and the time of the newest of them, 0 if there is none. */
  datatype Window = Window(prices: seq<int>, last: nat)

  /** A price at time now joins a window of the given width, or opens the next one. */
  function Join(w: Window, price: int, now: nat, width: nat): Window {
    if w.last == 0 || now > w.last + width then Window([price], now) else Window(w.prices + [price], now)
  }

  /** The averaging window after a run, read off the accepted submissions and their times alone. */
  ghost function WindowAfter(s: State, es: seq<Event>): Window {
    if es == [] then Window([], 0)
    else
      var w, p := WindowAfter(s, es[..|es| - 1]), Recorded(Run(s, es[..|es| - 1]), es[|es| - 1]);
      if p.None? then w else Join(w, p.value, es[|es| - 1].now, s.twap.window)
  }

  ghost function WindowPrices(s: State, es: seq<Event>): seq<int> {
    WindowAfter(s, es).prices
  }

  function Sum(xs: seq<int>): int {
    if xs == [] then 0 else Sum(xs[..|xs| - 1]) + xs[|xs| - 1]
  }

  ghost predicate Bounded(xs: seq<int>, a: int, b: int) {
    forall i :: 0 <= i < |xs| ==> a <= xs[i] <= b
  }

  /** The stored averages are those of the window: the sum clipped at the largest i128, the count
      clipped at the largest u32. */
  ghost predicate Averages(t: Twap, w: Window) {
    && t.lastTime == w.last && (w.prices == [] ==> w.last == 0 && t.price == 0 && t.lastPrice == 0)
    && (w.prices != [] ==>
          && Bounded(w.prices, 1, I128_MAX)
          && t.sum == Saturate(Sum(w.prices)) && t.count == Min(|w.prices|, U32_MAX)
          && t.price == t.sum / t.count && t.lastPrice == w.prices[|w.prices| - 1])
  }

  lemma SumAppend(xs: seq<int>, x: int)
    requires Bounded(xs, 1, I128_MAX) && 0 < x <= I128_MAX
    ensures Sum(xs + [x]) == Sum(xs) + x && Bounded(xs + [x], 1, I128_MAX)
    ensures Saturate(Saturate(Sum(xs)) + x) == Saturate(Sum(xs + [x]))
  {
    assert (xs + [x])[..|xs|] == xs;
    SumPositive(xs);
  }

  lemma RecordKeepsAverages(t: Twap, w: Window, price: int, now: nat)
    requires Averages(t, w) && 0 < price <= I128_MAX
    ensures Averages(RecordPrice(t, price, now), Join(w, price, now, t.window))
    ensures RecordPrice(t, price, now).window == t.window
  {
    assert StartsWindow(t, now) <==> w.last == 0 || now > w.last + t.window;
    if StartsWindow(t, now) {
      SumAppend([], price);
      assert [] + [price] == [price];
    } else {
      SumAppend(w.prices, price);
    }
  }

  lemma {:induction false} SumPositive(xs: seq<int>)
    requires Bounded(xs, 1, I128_MAX)
    ensures Sum(xs) >= |xs|
  {
    if xs != [] { SumPositive(xs[..|xs| - 1]); }
  }

  /** Prices passed to the single-price entry point are i128 values. */
  ghost predicate TypedPrice(e: Event) {
    e.action.PostPrice? ==> e.action.price <= I128_MAX
  }

  lemma StepRecords(s: State, e: Event)
    requires Inv(s) && TypedPrice(e)
    ensures var p := Recorded(s, e);
      && (p.None? ==> Step(s, e).twap == s.twap)
      && (p.Some? ==> 0 < p.value <= I128_MAX && Step(s, e).twap == RecordPrice(s.twap, p.value, e.now))
  {
    match e.action
    case PostOraclePrices(who, ps) => OracleReportSound(s, e.now, who, ps, 0, 0);
    case PostPrice(_, _) =>
    case _ => StepFrame(s, e);
  }

  /** No price has been recorded yet. */
  ghost predicate NoPrice(t: Twap) {
    t.lastTime == 0 && t.price == 0 && t.lastPrice == 0
  }

  /** Over every run the stored averages are exactly those of the window. */
  lemma {:induction false} TwapFollowsWindow(s: State, es: seq<Event>)
    requires Inv(s) && NoPrice(s.twap) && forall i :: 0 <= i < |es| ==> TypedPrice(es[i])
    ensures Averages(Run(s, es).twap, WindowAfter(s, es)) && Run(s, es).twap.window == s.twap.window
  {
    if es != [] {
      var prior, e := es[..|es| - 1], es[|es| - 1];
      var before := Run(s, prior);
      TwapFollowsWindow(s, prior);
      RunKeeps(s, prior);
      StepRecords(before, e);
      var p := Recorded(before, e);
      if p.Some? { RecordKeepsAverages(before.twap, WindowAfter(s, prior), p.value, e.now); }
    }
  }

  lemma {:induction false} SumWithin(xs: seq<int>, a: int, b: int)
    requires Bounded(xs, a, b)
    ensures a * |xs| <= Sum(xs) <= b * |xs|
  {
    if xs != [] {
      SumWithin(xs[..|xs| - 1], a, b);
      assert a * |xs| == a * (|xs| - 1) + a && b * |xs| == b * (|xs| - 1) + b;
    }
  }

  /** The stored price is the floored mean of the window's submissions and lies between their bounds,
      as long as their sum fits in i128 and their number in u32; both hold when every price is below
      MAX_PRICE and fewer than 2^32 arrived. */
  lemma TwapIsMean(s: State, es: seq<Event>, a: int, b: int)
    requires Inv(s) && NoPrice(s.twap) && forall i :: 0 <= i < |es| ==> TypedPrice(es[i])
    requires WindowPrices(s, es) != [] && |WindowPrices(s, es)| <= U32_MAX
    requires Fits(Sum(WindowPrices(s, es))) || Bounded(WindowPrices(s, es), 1, MAX_PRICE - 1)
    requires Bounded(WindowPrices(s, es), a, b)
    ensures var xs := WindowPrices(s, es);
      Run(s, es).twap.price == Sum(xs) / |xs| && a <= Run(s, es).twap.price <= b
  {
    TwapFollowsWindow(s, es);
    MeanOfWindow(Run(s, es).twap, WindowAfter(s, es), a, b);
  }

  /** The least sum of n prices whose mean is lowered by clipping the sum at the largest i128. */
  function ClippingPoint(n: nat): int
    requires n > 0
  {
    n * (I128_MAX / n + 1)
  }

  lemma ClippedQuotient(sum: int, n: nat)
    requires n > 0
    ensures Saturate(sum) / n == sum / n <==> sum < ClippingPoint(n)
  {
    QuotientBelow(sum, n, I128_MAX / n + 1);
    if Fits(sum) { QuotientMonotone(sum, I128_MAX, n); } else { QuotientMonotone(I128_MAX, sum, n); }
  }

  lemma MeanExactIff(t: Twap, w: Window)
    requires Averages(t, w) && 0 < |w.prices| <= U32_MAX
    ensures t.price == Sum(w.prices) / |w.prices| <==> Sum(w.prices) < ClippingPoint(|w.prices|)
  {
    var sum, n := Sum(w.prices), |w.prices|;
    ClippedQuotient(sum, n);
    assert t.price == Saturate(sum) / n;
  }

  /** Exactly when the stored price is the floored mean of the window. */
  lemma TwapIsMeanIff(s: State, es: seq<Event>)
    requires Inv(s) && NoPrice(s.twap) && forall i :: 0 <= i < |es| ==> TypedPrice(es[i])
    requires WindowPrices(s, es) != [] && |WindowPrices(s, es)| <= U32_MAX
    ensures var xs := WindowPrices(s, es);
      Run(s, es).twap.price == Sum(xs) / |xs| <==> Sum(xs) < ClippingPoint(|xs|)
  {
    TwapFollowsWindow(s, es);
    MeanExactIff(Run(s, es).twap, WindowAfter(s, es));
  }

  lemma MeanInRangeIff(t: Twap, w: Window, a: int, b: int)
    requires Averages(t, w) && 0 < |w.prices| <= U32_MAX && Bounded(w.prices, a, b) && a in w.prices
    ensures a <= t.price <= b <==> |w.prices| * a <= I128_MAX
  {
    var sum, n := Sum(w.prices), |w.prices|;
    SumWithin(w.prices, a, b);
    assert n * a == a * n;
    QuotientBelow(Saturate(sum), n, a);
    MeanWithin(sum, n, a, b);
    QuotientMonotone(Saturate(sum), sum, n);
    assert t.price == Saturate(sum) / n;
  }

  /** Exactly when the stored price lies between the least price a of the window and an upper bound b:
      clipping never raises it, and lowers it below a exactly when n times a is beyond i128. */
  lemma TwapInRangeIff(s: State, es: seq<Event>, a: int, b: int)
    requires Inv(s) && NoPrice(s.twap) && forall i :: 0 <= i < |es| ==> TypedPrice(es[i])
    requires WindowPrices(s, es) != [] && |WindowPrices(s, es)| <= U32_MAX
    requires Bounded(WindowPrices(s, es), a, b) && a in WindowPrices(s, es)
    ensures a <= Run(s, es).twap.price <= b <==> |WindowPrices(s, es)| * a <= I128_MAX
  {
    TwapFollowsWindow(s, es);
    MeanInRangeIff(Run(s, es).twap, WindowAfter(s, es), a, b);
  }

  lemma MeanOfWindow(t: Twap, w: Window, a: int, b: int)
    requires Averages(t, w) && 0 < |w.prices| <= U32_MAX && Bounded(w.prices, a, b)
    requires Fits(Sum(w.prices)) || Bounded(w.prices, 1, MAX_PRICE - 1)
    ensures t.price == Sum(w.prices) / |w.prices| && a <= t.price <= b
  {
    var xs := w.prices;
    if Bounded(xs, 1, MAX_PRICE - 1) {
      SumWithin(xs, 1, MAX_PRICE - 1);
      MultiplyMonotone(MAX_PRICE - 1, |xs|, U32_MAX);
    }
    SumWithin(xs, a, b);
    MeanWithin(Sum(xs), |xs|, a, b);
  }

  lemma MeanWithin(sum: int, n: nat, a: int, b: int)
    requires n > 0 && a * n <= sum <= b * n
    ensures a <= sum / n <= b
  {
    assert n * a == a * n && n * b == b * n;
    QuotientBelow(sum, n, a);
    MultiplyMonotone(n, b + 1, b + 1);
    QuotientBelow(sum, n, b + 1);
  }

  lemma MeanPositive(w: Window)
    requires w.prices != [] && Bounded(w.prices, 1, I128_MAX)
    ensures Saturate(Sum(w.prices)) / Min(|w.prices|, U32_MAX) >= 1
  {
    SumPositive(w.prices);
    QuotientBelow(Saturate(Sum(w.prices)), Min(|w.prices|, U32_MAX), 1);
  }

  /** After any run the price that valuations use is the mean of the window, and there is none exactly
      before the first submission. */
  lemma EffectivePriceIsMean(s: State, es: seq<Event>)
    requires Inv(s) && NoPrice(s.twap) && forall i :: 0 <= i < |es| ==> TypedPrice(es[i])
    ensures var later, xs := Run(s, es), WindowPrices(s, es);
      EffectivePrice(later.cfg, later.twap)
      == if xs == [] then None else Some(Saturate(Sum(xs)) / Min(|xs|, U32_MAX))
  {
    RunKeeps(s, es);
    TwapFollowsWindow(s, es);
    if WindowPrices(s, es) != [] { MeanPositive(WindowAfter(s, es)); }
  }

  lemma CeilingWithin(c: Config, p: int, b: int, count: nat)
    requires c.deviationBps == 2000 && 0 <= p <= b
    ensures 10_000 * PriceCeiling(c, p, count) <= 12_000 * b * count
  {
    var unit := Saturate(p * 12_000) / 10_000;
    assert 10_000 * unit <= 12_000 * b;
    if count > 0 {
      MultiplyMonotone(count, 10_000 * unit, 12_000 * b);
      RegroupCeiling(count, unit, b);
    }
  }

  lemma RegroupCeiling(count: nat, unit: int, b: int)
    ensures count * (10_000 * unit) == 10_000 * (count * unit) && count * (12_000 * b) == 12_000 * b * count
  {
  }

  /** End to end: while the window's prices are at most b, no herd counts for more than 1.2 b per head,
      whatever its owner had it appraised at. */
  lemma HerdValueBounded(s: State, es: seq<Event>, c: nat, b: int)
    requires Inv(s) && NoPrice(s.twap) && forall i :: 0 <= i < |es| ==> TypedPrice(es[i])
    requires WindowPrices(s, es) != [] && |WindowPrices(s, es)| <= U32_MAX
    requires Bounded(WindowPrices(s, es), 1, b) && b < MAX_PRICE
    requires c in Run(s, es).collaterals
    ensures var later := Run(s, es);
      var col := later.collaterals[c];
      10_000 * EffectiveValue(later.cfg, later.twap, col) <= 12_000 * b * col.count
  {
    var later := Run(s, es);
    var col := later.collaterals[c];
    RunKeeps(s, es);
    TwapIsMean(s, es, 1, b);
    CeilingWithin(later.cfg, later.twap.price, b, col.count);
  }

  /** The single-price entry point tests only the sign: the documented ceiling of 10^18 is not
      enforced there. */
  lemma SubmitPriceAccepts(s: State, now: nat, oracle: Address, price: int)
    ensures SubmitPrice(s, now, oracle, price).Done? <==> oracle == s.cfg.oracle && oracle != Contract && price > 0
    ensures SubmitPrice(s, now, oracle, price).Done? ==>
      SubmitPrice(s, now, oracle, price).state == s.(twap := RecordPrice(s.twap, price, now))
  {
  }

  /** A fresh contract is consistent and has no price. */
  lemma FreshContract(
    admin: Address, zero: Address, oracle: Address, treasury: Address, ltv: nat, liqThreshold: nat, minQuorum: nat,
    tokens: map<Address, nat>)
    requires Initialize(admin, zero, oracle, treasury, ltv, liqThreshold, minQuorum, tokens).Done?
    ensures var s := Initialize(admin, zero, oracle, treasury, ltv, liqThreshold, minQuorum, tokens).state;
      Inv(s) && NoPrice(s.twap)
  {
    InitializeEstablishes(admin, zero, oracle, treasury, ltv, liqThreshold, minQuorum, tokens);
  }

  /** The oracle submits the largest price twice. */
  function TwiceTheLargest(oracle: Address, t0: nat, t1: nat): seq<Event> {
    [Event(t0, PostPrice(oracle, I128_MAX)), Event(t1, PostPrice(oracle, I128_MAX))]
  }

  /** So the mean can leave the submissions' range: from any state without a price, a fresh contract
      among them, two accepted submissions of the largest price in one window average to half of it. */
  lemma UncheckedPricesSaturate(s: State, t0: nat, t1: nat)
    requires Inv(s) && NoPrice(s.twap) && s.cfg.oracle != Contract && 0 < t0 <= t1 <= t0 + s.twap.window
    ensures var es := TwiceTheLargest(s.cfg.oracle, t0, t1);
      && WindowPrices(s, es) == [I128_MAX, I128_MAX]
      && Run(s, es).twap.price == I128_MAX / 2 < I128_MAX == Sum(WindowPrices(s, es)) / 2
  {
    var first := Event(t0, PostPrice(s.cfg.oracle, I128_MAX));
    var es := TwiceTheLargest(s.cfg.oracle, t0, t1);
    assert es[..1] == [first] && [first][..0] == [];
    assert Run(s, []) == s && WindowAfter(s, []) == Window([], 0);
    assert Run(s, [first]) == s.(twap := RecordPrice(s.twap, I128_MAX, t0));
    assert WindowAfter(s, [first]) == Window([I128_MAX], t0);
    assert WindowAfter(s, es) == Window([I128_MAX] + [I128_MAX], t1);
    var xs := [I128_MAX, I128_MAX];
    assert xs[..1] == [I128_MAX] && [I128_MAX][..0] == [];
    assert Sum(xs) == Sum([I128_MAX]) + I128_MAX;
  }
}
