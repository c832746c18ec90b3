/** Health factor, the margin between origination and liquidation, and what liquidations can do to
    a debt. */
module LendingSafety {
  import opened Division
  import opened Outcomes
  import opened LendingModel
  import opened LendingInvariants

  // ---- Effective collateral values ------------------------------------------------------------

  lemma CeilingMonotone(c: Config, p: int, q: int, count: nat)
    requires 0 <= p <= q
    ensures 0 <= PriceCeiling(c, p, count) <= PriceCeiling(c, q, count)
  {
    var w := 10_000 + c.deviationBps;
    MultiplyMonotone(w, p, q);
    assert 0 <= w * p == p * w && w * q == q * w;
    var u, v := Saturate(p * w) / 10_000, Saturate(q * w) / 10_000;
    if count > 0 {
      MultiplyMonotone(count, u, v);
      MultiplyMonotone(count, 0, u);
    }
  }

  lemma CeilingPositive(c: Config, p: int, count: nat)
    requires p >= 1 && count >= 1
    ensures PriceCeiling(c, p, count) >= 1
  {
    var w := 10_000 + c.deviationBps;
    MultiplyMonotone(w, 1, p);
    assert p * w == w * p >= 10_000;
    var u := Saturate(p * w) / 10_000;
    assert u >= 1;
    MultiplyMonotone(count, 1, u);
  }

  /** Every reachable collateral's effective value lies in [1, appraised value]. */
  lemma EffectiveValueBounds(c: Config, t: Twap, col: Collateral)
    requires ConfigOk(c) && CollateralOk(col)
    ensures 1 <= EffectiveValue(c, t, col) <= col.appraisedValue
  {
    var p := EffectivePrice(c, t);
    if p.Some? { CeilingPositive(c, p.value, col.count); }
  }

  lemma {:induction false} CurrentValueBounds(s: State, ids: seq<nat>, acc: int)
    requires ConfigOk(s.cfg) && CollateralsOk(s) && CurrentValue(s, ids, acc).Ok?
    requires forall c :: c in ids ==> c in s.collaterals
    ensures CurrentValue(s, ids, acc).value >= acc + |ids|
  {
    if ids != [] {
      var col := s.collaterals[ids[0]];
      EffectiveValueBounds(s.cfg, s.twap, col);
      CurrentValueBounds(s, ids[1..], acc + EffectiveValue(s.cfg, s.twap, col));
    }
  }

  /** The fallback to the value at origination is never taken: the current value of a recorded loan's
      collateral is positive. */
  lemma FallbackNeverTaken(s: State, i: nat)
    requires Inv(s) && i in s.loans && CurrentValue(s, s.loans[i].collateralIds, 0).Ok?
    ensures CurrentValue(s, s.loans[i].collateralIds, 0).value >= 1
  {
    assert forall c :: c in s.loans[i].collateralIds ==> ListedOk(s, i, c);
    CurrentValueBounds(s, s.loans[i].collateralIds, 0);
  }

  // ---- The health factor -----------------------------------------------------------------------

  /** All intermediate results of the health factor of an open loan with collateral value v fit. */
  ghost predicate HealthFits(l: Loan, v: int, threshold: nat) {
    && Fits(l.outstanding + l.interestAccrued) && Fits(l.outstanding * 10_000)
    && Fits(v * threshold * 10_000)
  }

  /** For an open loan the health factor is defined exactly when the arithmetic fits, and it is
      below 10000 exactly when the thresholded value does not cover the principal. */
  lemma HealthExact(s: State, i: nat)
    requires Inv(s) && i in s.loans && s.loans[i].status == Active
    ensures var l := s.loans[i];
      var v := CurrentValue(s, l.collateralIds, 0);
      && (HealthFactor(s, l).Ok? <==> v.Ok? && HealthFits(l, v.value, s.cfg.liqThreshold))
      && (HealthFactor(s, l).Ok? ==>
            HealthFactor(s, l).value == v.value * s.cfg.liqThreshold * 10_000 / (l.outstanding * 10_000)
            && (HealthFactor(s, l).value < 10_000 <==> v.value * s.cfg.liqThreshold < 10_000 * l.outstanding))
  {
    var l := s.loans[i];
    var v := CurrentValue(s, l.collateralIds, 0);
    if v.Ok? {
      FallbackNeverTaken(s, i);
      assert 0 <= v.value * s.cfg.liqThreshold <= v.value * s.cfg.liqThreshold * 10_000;
      QuotientBelow(v.value * s.cfg.liqThreshold * 10_000, l.outstanding * 10_000, 10_000);
    }
  }

  /** The health factor of a closed loan is defined exactly when no interest was left unpaid: a loan
      liquidated with accrued interest divides by zero. */
  lemma HealthOfClosedLoan(s: State, i: nat)
    requires Inv(s) && i in s.loans && s.loans[i].status != Active
    ensures HealthFactor(s, s.loans[i]).Ok? <==> s.loans[i].interestAccrued == 0
    ensures HealthFactor(s, s.loans[i]).Ok? ==> HealthFactor(s, s.loans[i]).value == I128_MAX
    ensures s.loans[i].interestAccrued > 0 ==> s.loans[i].status == Liquidated
  {
  }

  /** After the liquidation that closes a loan its health factor traps exactly when interest was
      recorded, and is the maximum otherwise. */
  lemma ClosingLeavesHealth(s: State, now: nat, liquidator: Address, i: nat, repay: int)
    requires Inv(s) && Liquidate(s, now, liquidator, i, repay).Done?
    requires Liquidate(s, now, liquidator, i, repay).state.loans[i].status == Liquidated
    ensures i in s.loans
    ensures var s' := Liquidate(s, now, liquidator, i, repay).state;
      HealthFactor(s', s'.loans[i]) == if s.loans[i].interestAccrued > 0 then Err(Trap) else Ok(I128_MAX)
  {
    var s' := Liquidate(s, now, liquidator, i, repay).state;
    CurrentValueFrame(s, s', s.loans[i].collateralIds, 0);
    HealthExact(s, i);
    LiquidateKeeps(s, now, liquidator, i, repay);
    FallbackNeverTaken(s', i);
  }

  lemma QuotientInDivisor(n: int, d: int, e: int)
    requires 0 <= n && 0 < d <= e
    ensures n / e <= n / d
  {
    var q := n / e;
    FloorIs(n, e, q);
    assert q >= 0;
    MultiplyMonotone(e, q, q);
    if q > 0 { MultiplyMonotone(q, d, e); }
    assert d * q <= n;
    QuotientBelow(n, d, q);
  }

  /** Less principal, or more collateral value, never lowers the health factor. */
  lemma HealthMonotone(s: State, s': State, i: nat)
    requires Inv(s) && Inv(s') && i in s.loans && i in s'.loans
    requires s.loans[i].status == Active && s'.loans[i].status == Active
    requires s'.cfg.liqThreshold == s.cfg.liqThreshold
    requires s'.loans[i].outstanding <= s.loans[i].outstanding
    requires HealthFactor(s, s.loans[i]).Ok? && HealthFactor(s', s'.loans[i]).Ok?
    requires CurrentValue(s, s.loans[i].collateralIds, 0).value <= CurrentValue(s', s'.loans[i].collateralIds, 0).value
    ensures HealthFactor(s, s.loans[i]).value <= HealthFactor(s', s'.loans[i]).value
  {
    HealthExact(s, i);
    HealthExact(s', i);
    FallbackNeverTaken(s, i);
    var v, v' := CurrentValue(s, s.loans[i].collateralIds, 0).value, CurrentValue(s', s'.loans[i].collateralIds, 0).value;
    HealthQuotient(v, v', s.cfg.liqThreshold, s.loans[i].outstanding, s'.loans[i].outstanding);
  }

  lemma HealthQuotient(v: int, v': int, threshold: nat, debt: int, debt': int)
    requires 0 <= v <= v' && 0 < debt' <= debt && 0 < threshold
    ensures v * threshold * 10_000 / (debt * 10_000) <= v' * threshold * 10_000 / (debt' * 10_000)
  {
    MultiplyMonotone(threshold, v, v');
    MultiplyMonotone(threshold, 0, v);
    assert v * threshold == threshold * v && v' * threshold == threshold * v';
    QuotientInDivisor(v * threshold * 10_000, debt' * 10_000, debt * 10_000);
    QuotientMonotone(v * threshold * 10_000, v' * threshold * 10_000, debt' * 10_000);
  }

  lemma {:induction false} CurrentValueFrame(s: State, s': State, ids: seq<nat>, acc: int)
    requires s'.cfg == s.cfg && s'.twap == s.twap && s'.collaterals == s.collaterals
    ensures CurrentValue(s', ids, acc) == CurrentValue(s, ids, acc)
  {
    if ids != [] {
      CurrentValueFrame(s, s', ids[1..], acc);
      if ids[0] in s.collaterals {
        CurrentValueFrame(s, s', ids[1..], acc + EffectiveValue(s.cfg, s.twap, s.collaterals[ids[0]]));
      }
    }
  }

  /** Repaying a loan that stays open never lowers its health factor (and never makes it undefined). */
  lemma RepaymentImprovesHealth(s: State, now: nat, borrower: Address, i: nat, amount: int)
    requires Inv(s) && RepayLoan(s, now, borrower, i, amount).Done?
    requires i in s.loans && HealthFactor(s, s.loans[i]).Ok?
    requires var s' := RepayLoan(s, now, borrower, i, amount).state; s'.loans[i].status == Active
    ensures var s' := RepayLoan(s, now, borrower, i, amount).state;
      && HealthFactor(s', s'.loans[i]).Ok?
      && HealthFactor(s, s.loans[i]).value <= HealthFactor(s', s'.loans[i]).value
  {
    var s' := RepayLoan(s, now, borrower, i, amount).state;
    RepayKeeps(s, now, borrower, i, amount);
    AccrueKeeps(s.loans[i], s.cfg.interestFee, now);
    CurrentValueFrame(s, s', s.loans[i].collateralIds, 0);
    HealthExact(s, i);
    HealthExact(s', i);
    HealthMonotone(s, s', i);
  }

  lemma LiquidationImprovesHealth(s: State, now: nat, liquidator: Address, i: nat, repay: int)
    requires Inv(s) && Liquidate(s, now, liquidator, i, repay).Done?
    requires var s' := Liquidate(s, now, liquidator, i, repay).state; s'.loans[i].status == Active
    ensures var s' := Liquidate(s, now, liquidator, i, repay).state;
      && HealthFactor(s', s'.loans[i]).Ok?
      && HealthFactor(s, s.loans[i]).value <= HealthFactor(s', s'.loans[i]).value
  {
    var s' := Liquidate(s, now, liquidator, i, repay).state;
    LiquidateKeeps(s, now, liquidator, i, repay);
    CurrentValueFrame(s, s', s.loans[i].collateralIds, 0);
    HealthExact(s, i);
    HealthExact(s', i);
    HealthMonotone(s, s', i);
  }

  /** A higher effective oracle price never lowers an effective value. */
  lemma PriceRaisesValue(c: Config, t: Twap, t': Twap, col: Collateral)
    requires EffectivePrice(c, t).Some? && EffectivePrice(c, t').Some?
    requires 0 <= EffectivePrice(c, t).value <= EffectivePrice(c, t').value
    ensures EffectiveValue(c, t, col) <= EffectiveValue(c, t', col)
  {
    CeilingMonotone(c, EffectivePrice(c, t).value, EffectivePrice(c, t').value, col.count);
  }

  /** Collateral by collateral no effective value of the list is lower in s' than in s. */
  ghost predicate ValuesKept(s: State, s': State, ids: seq<nat>) {
    forall c :: c in ids ==>
      && c in s.collaterals && c in s'.collaterals
      && EffectiveValue(s.cfg, s.twap, s.collaterals[c]) <= EffectiveValue(s'.cfg, s'.twap, s'.collaterals[c])
  }

  lemma {:induction false} CurrentValueMonotone(s: State, s': State, ids: seq<nat>, acc: int, acc': int)
    requires ValuesKept(s, s', ids) && acc <= acc'
    requires CurrentValue(s, ids, acc).Ok? && CurrentValue(s', ids, acc').Ok?
    ensures CurrentValue(s, ids, acc).value <= CurrentValue(s', ids, acc').value
  {
    if ids != [] {
      CurrentValueMonotone(s, s', ids[1..],
        acc + EffectiveValue(s.cfg, s.twap, s.collaterals[ids[0]]),
        acc' + EffectiveValue(s'.cfg, s'.twap, s'.collaterals[ids[0]]));
    }
  }

  /** A higher effective oracle price never lowers the health factor of an open loan. */
  lemma PriceImprovesHealth(s: State, t: Twap, i: nat)
    requires Inv(s) && i in s.loans && s.loans[i].status == Active
    requires EffectivePrice(s.cfg, s.twap).Some? && EffectivePrice(s.cfg, t).Some?
    requires EffectivePrice(s.cfg, s.twap).value <= EffectivePrice(s.cfg, t).value
    requires HealthFactor(s, s.loans[i]).Ok? && HealthFactor(s.(twap := t), s.loans[i]).Ok?
    ensures HealthFactor(s, s.loans[i]).value <= HealthFactor(s.(twap := t), s.loans[i]).value
  {
    var s' := s.(twap := t);
    RecordsUntouched(s, s');
    forall c | c in s.loans[i].collateralIds
      ensures c in s.collaterals
        && EffectiveValue(s.cfg, s.twap, s.collaterals[c]) <= EffectiveValue(s.cfg, t, s.collaterals[c])
    {
      assert ListedOk(s, i, c);
      PriceRaisesValue(s.cfg, s.twap, t, s.collaterals[c]);
    }
    HealthExact(s, i);
    HealthExact(s', i);
    CurrentValueMonotone(s, s', s.loans[i].collateralIds, 0, 0);
    HealthMonotone(s, s', i);
  }

  // ---- When a liquidation succeeds ---------------------------------------------------------------

  /** A liquidation succeeds exactly under these conditions, all readable before the call. */
  lemma LiquidateSucceedsIff(s: State, now: nat, liquidator: Address, i: nat, repay: int)
    requires Inv(s)
    ensures Liquidate(s, now, liquidator, i, repay).Done? <==>
      && !IsPaused(s.cfg, now) && liquidator != Contract
      && (s.cfg.whitelist == {} || liquidator in s.cfg.whitelist)
      && i in s.loans && s.loans[i].status == Active
      && var l := s.loans[i];
      && var v := CurrentValue(s, l.collateralIds, 0);
      && v.Ok? && HealthFits(l, v.value, s.cfg.liqThreshold) && Fits(l.outstanding * s.cfg.closeFactor)
      && v.value * s.cfg.liqThreshold < 10_000 * l.outstanding
      && 0 < repay && 10_000 * repay <= l.outstanding * s.cfg.closeFactor
      && repay <= Balance(s.tokens, liquidator)
  {
    if i in s.loans && s.loans[i].status == Active {
      HealthExact(s, i);
      var cap := s.loans[i].outstanding * s.cfg.closeFactor;
      assert repay <= cap / 10_000 <==> 10_000 * repay <= cap;
    }
    assert s.cfg.whitelistCount == 0 <==> s.cfg.whitelist == {};
  }

  /** Interest due plays no part in liquidation: changing only what is recorded on a loan, as long as the
      debt still fits, changes neither whether it can be liquidated nor by how much. */
  lemma UnpaidInterestIrrelevant(s: State, now: nat, liquidator: Address, i: nat, repay: int, interest: nat)
    requires Inv(s) && i in s.loans && s.loans[i].status == Active
    requires Fits(s.loans[i].outstanding + s.loans[i].interestAccrued) && Fits(s.loans[i].outstanding + interest)
    ensures var s' := s.(loans := s.loans[i := s.loans[i].(interestAccrued := interest)]);
      && Liquidate(s, now, liquidator, i, repay).Done? == Liquidate(s', now, liquidator, i, repay).Done?
      && HealthFactor(s, s.loans[i]) == HealthFactor(s', s'.loans[i])
  {
    var s' := s.(loans := s.loans[i := s.loans[i].(interestAccrued := interest)]);
    CurrentValueFrame(s, s', s.loans[i].collateralIds, 0);
    assert HealthFactor(s, s.loans[i]) == HealthFactor(s', s'.loans[i]);
  }

  // ---- The lifetime margin ----------------------------------------------------------------------

  lemma {:induction false} OriginationValueIsCurrent(s: State, s': State, borrower: Address, ids: seq<nat>, all: seq<nat>, loanId: nat, acc: int)
    requires Appraise(s, borrower, ids, acc).Ok?
    requires s'.cfg == s.cfg && s'.twap == s.twap && s'.collaterals == Link(s.collaterals, all, loanId)
    ensures CurrentValue(s', ids, acc) == Appraise(s, borrower, ids, acc)
  {
    if ids != [] {
      var v := EffectiveValue(s.cfg, s.twap, s.collaterals[ids[0]]);
      assert v == EffectiveValue(s'.cfg, s'.twap, s'.collaterals[ids[0]]);
      OriginationValueIsCurrent(s, s', borrower, ids[1..], all, loanId, acc + v);
    }
  }

  /** The terms on which a loan was granted, and the value the health factor sees right after. */
  lemma LoanTerms(s: State, now: nat, borrower: Address, ids: seq<nat>, amount: int)
    requires Inv(s) && RequestLoan(s, now, borrower, ids, amount).Done?
    ensures var tx := RequestLoan(s, now, borrower, ids, amount);
      && tx.value == s.loanCount + 1 && tx.value in tx.state.loans
      && var l := tx.state.loans[tx.value];
      && l.borrower == borrower && l.collateralIds == ids && l.principal == l.outstanding == amount
      && l.interestAccrued == 0 && l.status == Active && l.lastInterestTime == now
      && 10_000 * amount <= l.totalCollateralValue * s.cfg.ltv
      && CurrentValue(tx.state, ids, 0) == Ok(l.totalCollateralValue)
  {
    var tx := RequestLoan(s, now, borrower, ids, amount);
    PrincipalWithinTerms(Appraise(s, borrower, ids, 0).value, s.cfg.ltv, amount);
    OriginationValueIsCurrent(s, tx.state, borrower, ids, ids, tx.value, 0);
  }

  /** The lifetime margin. A loan granted at LTV L on collateral value V cannot be liquidated in any
      later state, after any run, where the current value times the current threshold is at least
      V * L. */
  lemma LifetimeMargin(
    s: State, t0: nat, borrower: Address, ids: seq<nat>, amount: int, es: seq<Event>,
    now: nat, liquidator: Address, repay: int)
    requires Inv(s) && RequestLoan(s, t0, borrower, ids, amount).Done?
    requires var tx := RequestLoan(s, t0, borrower, ids, amount);
      var later := Run(tx.state, es);
      CurrentValue(later, ids, 0).Ok? ==>
        CurrentValue(later, ids, 0).value * later.cfg.liqThreshold >= tx.state.loans[tx.value].totalCollateralValue * s.cfg.ltv
    ensures var tx := RequestLoan(s, t0, borrower, ids, amount);
      Liquidate(Run(tx.state, es), now, liquidator, tx.value, repay).Fail?
  {
    var tx := RequestLoan(s, t0, borrower, ids, amount);
    var later := Run(tx.state, es);
    BorrowKeeps(s, t0, borrower, ids, amount);
    LoanTerms(s, t0, borrower, ids, amount);
    RunKeeps(tx.state, es);
    RunEvolves(tx.state, es, tx.value);
    LiquidateSucceedsIff(later, now, liquidator, tx.value, repay);
  }

  /** In particular: while no listed collateral's effective value has fallen below what it was at
      origination and the threshold is at least the origination LTV, the loan cannot be liquidated.
      With es == [] this is a loan just granted. */
  lemma SafeWhileValueHolds(
    s: State, t0: nat, borrower: Address, ids: seq<nat>, amount: int, es: seq<Event>,
    now: nat, liquidator: Address, repay: int)
    requires Inv(s) && RequestLoan(s, t0, borrower, ids, amount).Done?
    requires var tx := RequestLoan(s, t0, borrower, ids, amount);
      var later := Run(tx.state, es);
      later.cfg.liqThreshold >= s.cfg.ltv && ValuesKept(tx.state, later, ids)
    ensures var tx := RequestLoan(s, t0, borrower, ids, amount);
      Liquidate(Run(tx.state, es), now, liquidator, tx.value, repay).Fail?
  {
    var tx := RequestLoan(s, t0, borrower, ids, amount);
    var later := Run(tx.state, es);
    LoanTerms(s, t0, borrower, ids, amount);
    if CurrentValue(later, ids, 0).Ok? {
      CurrentValueMonotone(tx.state, later, ids, 0, 0);
      var v, c := tx.state.loans[tx.value].totalCollateralValue, CurrentValue(later, ids, 0).value;
      PositiveTerms(v, s.cfg.ltv, amount);
      ProductMonotone(v, c, s.cfg.ltv, later.cfg.liqThreshold);
    }
    LifetimeMargin(s, t0, borrower, ids, amount, es, now, liquidator, repay);
  }

  lemma PositiveTerms(v: int, ltv: nat, amount: int)
    requires 10_000 * amount <= v * ltv && amount > 0
    ensures v > 0
  {
    if v < 0 { SignOfProduct(v, ltv); }
  }

  lemma ProductMonotone(a: int, b: int, x: int, y: int)
    requires 0 <= a <= b && 0 <= x <= y
    ensures a * x <= b * y
  {
    assert a * x <= a * y <= b * y;
  }
}
