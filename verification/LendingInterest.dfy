/** Rounding and saturation of interest accrual. */
module LendingInterest {
  import opened Division
  import opened Outcomes
  import opened LendingModel

  const DIVISOR: nat := 10_000 * SECONDS_PER_YEAR

  /** The two saturating products amount to clipping the exact product once. */
  lemma AccrualClips(outstanding: nat, feeBps: nat, elapsed: nat)
    ensures Accrual(outstanding, feeBps, elapsed) == Saturate(outstanding * feeBps * elapsed) / DIVISOR
    ensures Accrual(outstanding, feeBps, elapsed) <= outstanding * feeBps * elapsed / DIVISOR
  {
    var rate := outstanding * feeBps;
    assert rate >= 0;
    if elapsed == 0 {
      assert Saturate(rate) * elapsed == 0 && rate * elapsed == 0;
    } else if !Fits(rate) {
      MultiplyMonotone(rate, 1, elapsed);
      MultiplyMonotone(I128_MAX, 1, elapsed);
      assert I128_MAX * elapsed >= I128_MAX && rate * elapsed >= rate;
    }
    QuotientMonotone(Saturate(rate * elapsed), rate * elapsed, DIVISOR);
  }

  /** While the product fits, accrual is the exact floor, so what is charged is exact to one unit. */
  lemma AccrualExactWhenFits(outstanding: nat, feeBps: nat, elapsed: nat)
    requires Fits(outstanding * feeBps * elapsed)
    ensures Accrual(outstanding, feeBps, elapsed) == outstanding * feeBps * elapsed / DIVISOR
  {
    AccrualClips(outstanding, feeBps, elapsed);
  }

  /** The loan accrued at each of the given times in turn, with nothing paid in between. */
  function AccrueAt(l: Loan, feeBps: nat, times: seq<nat>): Loan {
    if times == [] then l else Accrue(AccrueAt(l, feeBps, times[..|times| - 1]), feeBps, times[|times| - 1])
  }

  ghost predicate InOrder(start: nat, times: seq<nat>) {
    (forall i :: 0 <= i < |times| ==> start <= times[i])
    && forall i, j :: 0 <= i <= j < |times| ==> times[i] <= times[j]
  }

  lemma FloorSum(a: nat, b: nat, d: nat)
    requires d > 0
    ensures a / d + b / d <= (a + b) / d <= a / d + b / d + 1
  {
    var p, q := a / d, b / d;
    FloorIs(a, d, p);
    FloorIs(b, d, q);
    assert d * (p + q) == d * p + d * q && d * (p + q + 2) == d * p + d * q + 2 * d;
    QuotientBelow(a + b, d, p + q);
    QuotientBelow(a + b, d, p + q + 2);
  }

  /** Interest on the loan's principal from its last accrual until now, rounded once. */
  function SpanInterest(l: Loan, feeBps: nat, now: nat): int {
    l.outstanding * feeBps * (now - l.lastInterestTime) / DIVISOR
  }

  /** Neither the product nor the interest due overflows by time now. */
  ghost predicate SpanFits(l: Loan, feeBps: nat, now: nat) {
    Fits(l.outstanding * feeBps * (now - l.lastInterestTime)) && Fits(l.interestAccrued + SpanInterest(l, feeBps, now))
  }

  lemma SpanSplits(l: Loan, feeBps: nat, mid: nat, now: nat)
    requires l.outstanding > 0 && l.lastInterestTime <= mid <= now && SpanFits(l, feeBps, now)
    ensures SpanFits(l, feeBps, mid) && Accrual(l.outstanding, feeBps, now - mid) >= 0
    ensures var parts := SpanInterest(l, feeBps, mid) + Accrual(l.outstanding, feeBps, now - mid);
      parts <= SpanInterest(l, feeBps, now) <= parts + 1
  {
    var rate, done, piece := l.outstanding * feeBps, mid - l.lastInterestTime, now - mid;
    SplitProduct(rate, done, piece);
    AccrualExactWhenFits(l.outstanding, feeBps, piece);
    FloorSum(rate * done, rate * piece, DIVISOR);
  }

  lemma SplitProduct(rate: nat, a: nat, b: nat)
    ensures rate * (a + b) == rate * a + rate * b && rate * a >= 0 && rate * b >= 0
  {
  }

  lemma SpanStart(l: Loan, feeBps: nat)
    ensures SpanInterest(l, feeBps, l.lastInterestTime) == 0
  {
  }

  /** One accrual charges the interest of its span exactly. */
  lemma AccrueOnce(l: Loan, feeBps: nat, now: nat)
    requires l.outstanding > 0 && l.interestAccrued >= 0 && l.lastInterestTime <= now && SpanFits(l, feeBps, now)
    ensures Accrue(l, feeBps, now)
      == l.(interestAccrued := l.interestAccrued + SpanInterest(l, feeBps, now), lastInterestTime := now)
  {
    SpanStart(l, feeBps);
    AccrualExactWhenFits(l.outstanding, feeBps, now - l.lastInterestTime);
  }

  /** Accruing in k consecutive pieces never charges more than accruing once over the whole span,
      and at most k - 1 units less. */
  lemma {:induction false} PiecewiseInterest(l: Loan, feeBps: nat, times: seq<nat>)
    requires l.outstanding > 0 && l.interestAccrued >= 0 && times != [] && InOrder(l.lastInterestTime, times)
    requires SpanFits(l, feeBps, times[|times| - 1])
    ensures var once, piecewise := Accrue(l, feeBps, times[|times| - 1]), AccrueAt(l, feeBps, times);
      && piecewise == once.(interestAccrued := piecewise.interestAccrued)
      && l.interestAccrued <= piecewise.interestAccrued
      && piecewise.interestAccrued <= once.interestAccrued <= piecewise.interestAccrued + |times| - 1
  {
    var n := |times| - 1;
    var now := times[n];
    AccrueOnce(l, feeBps, now);
    if n == 0 {
      assert times[..0] == [];
      SpanSplits(l, feeBps, now, now);
      SpanSplits(l, feeBps, l.lastInterestTime, now);
      SpanStart(l, feeBps);
    } else {
      var mid := times[n - 1];
      SpanSplits(l, feeBps, mid, now);
      PiecewiseInterest(l, feeBps, times[..n]);
      AccrueOnce(l, feeBps, mid);
      var before := AccrueAt(l, feeBps, times[..n]);
      assert AccrueAt(l, feeBps, times) == Accrue(before, feeBps, now);
      if mid == now { assert Accrual(l.outstanding, feeBps, 0) == 0; }
    }
  }
}
