/** How fast liquidations can reduce a debt, and the only way they can close it. */
module LendingDecay {
  import opened Division
  import opened LendingModel
  import opened LendingInvariants
  import opened LendingConservation

  function Power(b: nat, k: nat): nat {
    if k == 0 then 1 else b * Power(b, k - 1)
  }

  /** The event is a repayment of the loan that goes through. */
  ghost predicate Repays(s: State, e: Event, id: nat) {
    e.action.Repay? && e.action.loanId == id && RepayLoan(s, e.now, e.action.borrower, id, e.action.amount).Done?
  }

  /** The event is a liquidation of the loan that goes through. */
  ghost predicate Liquidates(s: State, e: Event, id: nat) {
    e.action.LiquidateLoan? && e.action.loanId == id
    && Liquidate(s, e.now, e.action.liquidator, id, e.action.repay).Done?
  }

  /** No repayment of the loan succeeds along the run, and every liquidation of it that succeeds
      does so at a close factor of at most c. */
  ghost predicate OnlyLiquidated(s: State, es: seq<Event>, id: nat, c: nat) {
    es == [] ||
      var before, e := Run(s, es[..|es| - 1]), es[|es| - 1];
      && OnlyLiquidated(s, es[..|es| - 1], id, c)
      && !Repays(before, e, id)
      && (Liquidates(before, e, id) ==> before.cfg.closeFactor <= c)
  }

  /** Number of liquidations of the loan that succeed along the run. */
  ghost function Liquidations(s: State, es: seq<Event>, id: nat): nat {
    if es == [] then 0
    else
      var before, e := Run(s, es[..|es| - 1]), es[|es| - 1];
      Liquidations(s, es[..|es| - 1], id) + if Liquidates(before, e, id) then 1 else 0
  }

  /** An event that is neither leaves the loan record alone. */
  lemma ElsewhereUntouched(s: State, e: Event, id: nat)
    requires Inv(s) && id in s.loans && !Repays(s, e, id) && !Liquidates(s, e, id)
    ensures id in Step(s, e).loans && Step(s, e).loans[id] == s.loans[id]
  {
    match e.action
    case Borrow(b, ids, amount) =>
    case Repay(b, loanId, amount) => RepayElsewhere(s, e.now, b, loanId, amount, id);
    case LiquidateLoan(_, _, _) =>
    case _ => StepFrame(s, e);
  }

  lemma RepayElsewhere(s: State, now: nat, borrower: Address, loanId: nat, amount: int, id: nat)
    requires Inv(s) && id in s.loans
    requires loanId != id || RepayLoan(s, now, borrower, loanId, amount).Fail?
    ensures var s' := Settle(s, RepayLoan(s, now, borrower, loanId, amount));
      id in s'.loans && s'.loans[id] == s.loans[id]
  {
    if RepayLoan(s, now, borrower, loanId, amount).Done? {
      RepayDebt(s, now, borrower, loanId, amount);
    }
  }

  /** One liquidation leaves at least the fraction (10000 - closeFactor) / 10000. */
  lemma OneLiquidation(s: State, e: Event, id: nat)
    requires Inv(s) && Liquidates(s, e, id)
    ensures id in s.loans && id in Step(s, e).loans
    ensures KeepsShare(s.loans[id].outstanding, Step(s, e).loans[id].outstanding, s.cfg.closeFactor)
  {
    CloseFactorCaps(s.loans[id].outstanding, s.cfg.closeFactor, e.action.repay);
    LiquidateLedger(s, e.now, e.action.liquidator, id, e.action.repay, Contract);
  }

  /** The events allowed by OnlyLiquidated, one at a time. */
  lemma OneEvent(s: State, e: Event, id: nat)
    requires Inv(s) && id in s.loans && !Repays(s, e, id)
    ensures id in Step(s, e).loans
    ensures Liquidates(s, e, id) ==>
      s.loans[id].outstanding >= 0 && KeepsShare(s.loans[id].outstanding, Step(s, e).loans[id].outstanding, s.cfg.closeFactor)
    ensures !Liquidates(s, e, id) ==> Step(s, e).loans[id] == s.loans[id]
  {
    if Liquidates(s, e, id) {
      OneLiquidation(s, e, id);
    } else {
      ElsewhereUntouched(s, e, id);
    }
  }

  /** At least the k-th power of the fraction (10000 - c) / 10000 of `first` remains. */
  ghost predicate Remains(first: int, now: int, c: nat, k: nat)
    requires c <= 10_000
  {
    now * Power(10_000, k) >= first * Power(10_000 - c, k)
  }

  /** At least the fraction (10000 - c) / 10000 of `before` remains. */
  ghost predicate KeepsShare(before: int, after: int, c: nat) {
    10_000 * after >= before * (10_000 - c)
  }

  lemma TimesNat(x: int, y: int, n: nat)
    requires x >= y
    ensures x * n >= y * n
  {
  }

  lemma ShareAtLeast(before: int, after: int, c: nat, d: nat)
    requires d <= c && before >= 0 && KeepsShare(before, after, d)
    ensures KeepsShare(before, after, c)
  {
    TimesNat(10_000 - d, 10_000 - c, before);
    assert before * (10_000 - d) == (10_000 - d) * before && before * (10_000 - c) == (10_000 - c) * before;
  }

  lemma PowerStep(first: int, before: int, after: int, rest: nat, big: nat, small: nat)
    requires before * big >= first * small && 10_000 * after >= before * rest
    ensures after * (10_000 * big) >= first * (rest * small)
  {
    TimesNat(10_000 * after, before * rest, big);
    TimesNat(before * big, first * small, rest);
    RegroupPowers(after, before, first, rest, big, small);
  }

  lemma RegroupPowers(after: int, before: int, first: int, rest: nat, big: nat, small: nat)
    ensures after * (10_000 * big) == (10_000 * after) * big
    ensures (before * rest) * big == (before * big) * rest
    ensures first * (rest * small) == (first * small) * rest
  {
  }

  lemma DecayStep(first: int, before: int, after: int, c: nat, k: nat)
    requires c <= 10_000 && Remains(first, before, c, k) && KeepsShare(before, after, c)
    ensures Remains(first, after, c, k + 1)
  {
    PowerStep(first, before, after, 10_000 - c, Power(10_000, k), Power(10_000 - c, k));
  }

  /** After k successful liquidations at close factors of at most c, with no repayment in between,
      at least the fraction ((10000 - c) / 10000)^k of the principal is still owed, whatever else
      happened in between. */
  lemma {:induction false} LiquidationDecay(s: State, es: seq<Event>, id: nat, c: nat)
    requires Inv(s) && id in s.loans && c <= 10_000 && OnlyLiquidated(s, es, id, c)
    ensures id in Run(s, es).loans
    ensures Remains(s.loans[id].outstanding, Run(s, es).loans[id].outstanding, c, Liquidations(s, es, id))
  {
    if es != [] {
      var prior, e := es[..|es| - 1], es[|es| - 1];
      var before := Run(s, prior);
      LiquidationDecay(s, prior, id, c);
      RunKeeps(s, prior);
      OneEvent(before, e, id);
      if Liquidates(before, e, id) {
        var owing, left := before.loans[id].outstanding, Step(before, e).loans[id].outstanding;
        ShareAtLeast(owing, left, c, before.cfg.closeFactor);
        DecayStep(s.loans[id].outstanding, owing, left, c, Liquidations(s, prior, id));
      }
    }
  }

  lemma {:induction false} PowerPositive(b: nat, k: nat)
    requires b > 0
    ensures Power(b, k) > 0
  {
    if k > 0 {
      PowerPositive(b, k - 1);
      assert b * Power(b, k - 1) >= Power(b, k - 1);
    }
  }

  /** So no number of liquidations below the full close factor ever closes an open loan. */
  lemma PartialLiquidationsNeverClose(s: State, es: seq<Event>, id: nat)
    requires Inv(s) && id in s.loans && s.loans[id].status == Active && OnlyLiquidated(s, es, id, 9_999)
    ensures id in Run(s, es).loans && Run(s, es).loans[id].status == Active
  {
    var k := Liquidations(s, es, id);
    LiquidationDecay(s, es, id, 9_999);
    PowerPositive(1, k);
    PowerPositive(10_000, k);
    ProductPositive(s.loans[id].outstanding, Power(1, k), Run(s, es).loans[id].outstanding, Power(10_000, k));
    RunKeeps(s, es);
    OpenIffOwing(Run(s, es), id);
  }

  lemma OpenIffOwing(s: State, id: nat)
    requires Inv(s) && id in s.loans
    ensures s.loans[id].status == Active <==> s.loans[id].outstanding > 0
  {
  }

  lemma ProductPositive(a: int, p: nat, b: int, q: nat)
    requires a > 0 && p > 0 && q > 0 && b * q >= a * p
    ensures b > 0
  {
    assert a * p > 0;
    if b < 0 { SignOfProduct(b, q); }
  }

  /** A loan becomes Liquidated exactly by one call that repays its whole principal, and such a call
      succeeds only at a close factor of exactly 10000. */
  lemma LiquidatedOnlyInFull(s: State, e: Event, id: nat)
    requires Inv(s) && id in s.loans && s.loans[id].status == Active
    ensures id in Step(s, e).loans
    ensures Step(s, e).loans[id].status == Liquidated
      <==> Liquidates(s, e, id) && e.action.repay == s.loans[id].outstanding
    ensures Step(s, e).loans[id].status == Liquidated ==> s.cfg.closeFactor == 10_000
  {
    if Liquidates(s, e, id) {
      CloseFactorCaps(s.loans[id].outstanding, s.cfg.closeFactor, e.action.repay);
      if e.action.repay == s.loans[id].outstanding {
        FullShare(s.loans[id].outstanding, s.cfg.closeFactor);
      }
    } else if Repays(s, e, id) {
      AccrueKeeps(s.loans[id], s.cfg.interestFee, e.now);
    } else {
      ElsewhereUntouched(s, e, id);
    }
  }

  lemma FullShare(outstanding: int, closeFactor: nat)
    requires outstanding > 0 && closeFactor <= 10_000 && 10_000 * outstanding <= outstanding * closeFactor
    ensures closeFactor == 10_000
  {
    if closeFactor < 10_000 { MultiplyMonotone(outstanding, closeFactor, 9_999); }
  }
}
