/** What a herd may be valued at, with the numbers written out, from the state and over whole runs. */
module LendingValuation {
  import opened Division
  import opened Outcomes
  import opened LendingModel
  import opened LendingInvariants
  import opened LendingPrices

  /** The price that valuations use: the window's mean, or the last price before there is one. */
  ghost predicate PricedAt(t: Twap, p: int) {
    p > 0 && (t.price == p || (t.price <= 0 && t.lastPrice == p))
  }

  /** A herd counts at its appraisal, or at 120 percent of the price per head, rounded down per head, if
      that is less. Beyond i128 the product for a head, or for the herd, is clipped. */
  lemma EffectiveValueIs(s: State, col: Collateral, p: int)
    requires Inv(s) && PricedAt(s.twap, p)
    ensures var v := EffectiveValue(s.cfg, s.twap, col);
      && (Fits(p * 12_000) && Fits(col.count * (p * 12_000 / 10_000)) ==>
            v == Min(col.appraisedValue, col.count * (p * 12_000 / 10_000)))
      && (Fits(p * 12_000) && !Fits(col.count * (p * 12_000 / 10_000)) ==> v == Min(col.appraisedValue, I128_MAX))
      && (!Fits(p * 12_000) && Fits(col.count * (I128_MAX / 10_000)) ==>
            v == Min(col.appraisedValue, col.count * (I128_MAX / 10_000)))
      && (!Fits(p * 12_000) && !Fits(col.count * (I128_MAX / 10_000)) ==> v == Min(col.appraisedValue, I128_MAX))
  {
  }

  /** With bounds set, the effective price is the recorded one moved into them. */
  lemma EffectivePriceWithin(c: Config, t: Twap, p: int)
    requires PricedAt(t, p) && 0 <= c.priceMin && (c.priceMax > 0 ==> c.priceMin <= c.priceMax)
    ensures EffectivePrice(c, t).Some?
    ensures var r := EffectivePrice(c, t).value;
      && c.priceMin <= r && (c.priceMax > 0 ==> r <= c.priceMax)
      && (c.priceMin <= p && (c.priceMax > 0 ==> p <= c.priceMax) ==> r == p)
      && (p < c.priceMin ==> r == c.priceMin) && (c.priceMax > 0 && p > c.priceMax ==> r == c.priceMax)
  {
  }

  /** Without a price a herd counts at its appraisal. */
  lemma UnpricedValueIs(s: State, col: Collateral)
    requires Inv(s) && s.twap.price <= 0 && s.twap.lastPrice <= 0
    ensures EffectiveValue(s.cfg, s.twap, col) == col.appraisedValue
  {
  }

  /** The conditions of a registration other than the oracle's. */
  ghost predicate Registrable(s: State, now: nat, owner: Address, animalType: string, count: nat, value: int) {
    && !IsPaused(s.cfg, now) && owner != Contract && 0 < count && 0 < value && s.collateralCount < U64_MAX
    && (animalType in s.cfg.animalCaps ==> value <= s.cfg.animalCaps[animalType])
  }

  /** The conditions of a reappraisal other than the oracle's. */
  ghost predicate Reappraisable(s: State, now: nat, owner: Address, c: nat, value: int) {
    && !IsPaused(s.cfg, now) && 0 < value && c in s.collaterals && s.collaterals[c].owner == owner
  }

  lemma RegistersUpTo(s: State, now: nat, owner: Address, animalType: string, count: nat, value: int, p: int)
    requires Inv(s) && PricedAt(s.twap, p)
    ensures var done := RegisterLivestock(s, now, owner, animalType, count, value).Done?;
      var free := Registrable(s, now, owner, animalType, count, value);
      && (Fits(p * 12_000) && Fits(count * (p * 12_000 / 10_000)) ==>
            (done <==> free && value <= count * (p * 12_000 / 10_000)))
      && (Fits(p * 12_000) && !Fits(count * (p * 12_000 / 10_000)) ==> (done <==> free && value <= I128_MAX))
      && (!Fits(p * 12_000) && Fits(count * (I128_MAX / 10_000)) ==>
            (done <==> free && value <= count * (I128_MAX / 10_000)))
      && (!Fits(p * 12_000) && !Fits(count * (I128_MAX / 10_000)) ==> (done <==> free && value <= I128_MAX))
  {
  }

  lemma ReappraisesUpTo(s: State, now: nat, owner: Address, c: nat, value: int, p: int)
    requires Inv(s) && PricedAt(s.twap, p) && c in s.collaterals
    ensures var done, count := UpdateAppraisal(s, now, owner, c, value).Done?, s.collaterals[c].count;
      var free := Reappraisable(s, now, owner, c, value);
      && (Fits(p * 12_000) && Fits(count * (p * 12_000 / 10_000)) ==>
            (done <==> free && value <= count * (p * 12_000 / 10_000)))
      && (Fits(p * 12_000) && !Fits(count * (p * 12_000 / 10_000)) ==> (done <==> free && value <= I128_MAX))
      && (!Fits(p * 12_000) && Fits(count * (I128_MAX / 10_000)) ==>
            (done <==> free && value <= count * (I128_MAX / 10_000)))
      && (!Fits(p * 12_000) && !Fits(count * (I128_MAX / 10_000)) ==> (done <==> free && value <= I128_MAX))
  {
    assert CollateralOk(s.collaterals[c]);
  }

  // ---- Over whole runs -----------------------------------------------------------------------

  /** The window after the run holds prices in the documented range, and fewer than 2^32 of them. */
  ghost predicate ValidWindow(s: State, es: seq<Event>) {
    && Inv(s) && NoPrice(s.twap) && (forall i :: 0 <= i < |es| ==> TypedPrice(es[i]))
    && 0 < |WindowPrices(s, es)| <= U32_MAX && Bounded(WindowPrices(s, es), 1, MAX_PRICE - 1)
  }

  ghost function WindowMean(s: State, es: seq<Event>): int
    requires WindowPrices(s, es) != []
  {
    Sum(WindowPrices(s, es)) / |WindowPrices(s, es)|
  }

  lemma PricedAtMean(s: State, es: seq<Event>)
    requires ValidWindow(s, es)
    ensures Inv(Run(s, es)) && PricedAt(Run(s, es).twap, WindowMean(s, es)) && WindowMean(s, es) < MAX_PRICE
  {
    RunKeeps(s, es);
    TwapIsMean(s, es, 1, MAX_PRICE - 1);
  }

  /** Prices in range and a u32 number of heads never reach the clipping. */
  lemma NothingClipped(p: int, count: nat)
    requires 0 < p < MAX_PRICE && count <= U32_MAX
    ensures Fits(p * 12_000) && Fits(count * (p * 12_000 / 10_000))
  {
    var unit := p * 12_000 / 10_000;
    assert 0 <= unit <= 1_200_000_000_000_000_000;
    if unit > 0 { MultiplyMonotone(unit, count, U32_MAX); }
    assert unit * U32_MAX <= 1_200_000_000_000_000_000 * U32_MAX;
    assert count * unit == unit * count;
  }

  /** After any run a herd of n heads counts at min(appraisal, n * floor(1.2 * mean of the window)). */
  lemma HerdCountsAtMean(s: State, es: seq<Event>, c: nat)
    requires ValidWindow(s, es) && c in Run(s, es).collaterals && Run(s, es).collaterals[c].count <= U32_MAX
    ensures var later := Run(s, es);
      EffectiveValue(later.cfg, later.twap, later.collaterals[c])
      == Min(later.collaterals[c].appraisedValue, later.collaterals[c].count * (WindowMean(s, es) * 12_000 / 10_000))
  {
    PricedAtMean(s, es);
    NothingClipped(WindowMean(s, es), Run(s, es).collaterals[c].count);
    EffectiveValueIs(Run(s, es), Run(s, es).collaterals[c], WindowMean(s, es));
  }

  /** After any run livestock is registered exactly up to that number. */
  lemma RegistersUpToMean(
    s: State, es: seq<Event>, now: nat, owner: Address, animalType: string, count: nat, value: int)
    requires ValidWindow(s, es) && count <= U32_MAX
    ensures RegisterLivestock(Run(s, es), now, owner, animalType, count, value).Done? <==>
      && Registrable(Run(s, es), now, owner, animalType, count, value)
      && value <= count * (WindowMean(s, es) * 12_000 / 10_000)
  {
    PricedAtMean(s, es);
    NothingClipped(WindowMean(s, es), count);
    RegistersUpTo(Run(s, es), now, owner, animalType, count, value, WindowMean(s, es));
  }

  /** And reappraised exactly up to it. */
  lemma ReappraisesUpToMean(s: State, es: seq<Event>, now: nat, owner: Address, c: nat, value: int)
    requires ValidWindow(s, es) && c in Run(s, es).collaterals && Run(s, es).collaterals[c].count <= U32_MAX
    ensures UpdateAppraisal(Run(s, es), now, owner, c, value).Done? <==>
      && Reappraisable(Run(s, es), now, owner, c, value)
      && value <= Run(s, es).collaterals[c].count * (WindowMean(s, es) * 12_000 / 10_000)
  {
    PricedAtMean(s, es);
    NothingClipped(WindowMean(s, es), Run(s, es).collaterals[c].count);
    ReappraisesUpTo(Run(s, es), now, owner, c, value, WindowMean(s, es));
  }

  /** Before the first price nothing limits a valuation. */
  lemma UnpricedValuations(
    s: State, es: seq<Event>, now: nat, owner: Address, animalType: string, count: nat, c: nat, value: int)
    requires Inv(s) && NoPrice(s.twap) && (forall i :: 0 <= i < |es| ==> TypedPrice(es[i]))
    requires WindowPrices(s, es) == []
    ensures RegisterLivestock(Run(s, es), now, owner, animalType, count, value).Done?
      <==> Registrable(Run(s, es), now, owner, animalType, count, value)
    ensures UpdateAppraisal(Run(s, es), now, owner, c, value).Done? <==> Reappraisable(Run(s, es), now, owner, c, value)
  {
    RunKeeps(s, es);
    TwapFollowsWindow(s, es);
    if c in Run(s, es).collaterals { assert CollateralOk(Run(s, es).collaterals[c]); }
  }
}
