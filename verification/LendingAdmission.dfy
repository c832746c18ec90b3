/** Exactly when each fund-moving or value-setting call succeeds, in terms a caller can read off the
    state beforehand. */
module LendingAdmission {
  import opened Outcomes
  import opened LendingModel
  import opened LendingInvariants
  import opened LendingConservation
  import opened LendingSafety

  /** Sum of the effective values of a list of collaterals, repetitions included. */
  function TotalValue(s: State, ids: seq<nat>): int {
    if ids == [] then 0
    else
      (if ids[0] in s.collaterals then EffectiveValue(s.cfg, s.twap, s.collaterals[ids[0]]) else 0)
      + TotalValue(s, ids[1..])
  }

  ghost predicate AllOwned(s: State, borrower: Address, ids: seq<nat>) {
    forall i :: 0 <= i < |ids| ==> ids[i] in s.collaterals && s.collaterals[ids[i]].owner == borrower
  }

  lemma {:induction false} TotalValuePositive(s: State, ids: seq<nat>)
    requires Inv(s)
    ensures TotalValue(s, ids) >= 0
  {
    if ids != [] {
      TotalValuePositive(s, ids[1..]);
      if ids[0] in s.collaterals { EffectiveValueBounds(s.cfg, s.twap, s.collaterals[ids[0]]); }
    }
  }

  /** The appraisal loop yields the total exactly when every collateral is owned and the total fits. */
  lemma {:induction false} AppraiseIff(s: State, borrower: Address, ids: seq<nat>, acc: int)
    requires Inv(s) && acc >= 0 && Fits(acc)
    ensures Appraise(s, borrower, ids, acc).Ok? <==> AllOwned(s, borrower, ids) && Fits(acc + TotalValue(s, ids))
    ensures Appraise(s, borrower, ids, acc).Ok? ==> Appraise(s, borrower, ids, acc).value == acc + TotalValue(s, ids)
  {
    if ids != [] {
      if ids[0] in s.collaterals && s.collaterals[ids[0]].owner == borrower {
        var v := EffectiveValue(s.cfg, s.twap, s.collaterals[ids[0]]);
        EffectiveValueBounds(s.cfg, s.twap, s.collaterals[ids[0]]);
        TotalValuePositive(s, ids[1..]);
        if Fits(acc + v) { AppraiseIff(s, borrower, ids[1..], acc + v); }
        assert AllOwned(s, borrower, ids) <==> AllOwned(s, borrower, ids[1..]) by {
          assert forall i :: 0 < i < |ids| ==> ids[i] == ids[1..][i - 1];
        }
      } else {
        assert !AllOwned(s, borrower, ids);
      }
    }
  }

  lemma DisburseDone(s: State, now: nat, borrower: Address, ids: seq<nat>, amount: int, total: int)
    requires 0 < amount && s.cfg.originationFee <= 500 && borrower != Contract
    ensures Disburse(s, now, borrower, ids, amount, total).Done?
      <==> Outlay(s.cfg, amount) <= Balance(s.tokens, Contract)
  {
    SmallFee(amount, s.cfg.originationFee);
  }

  lemma SmallFee(amount: int, bps: nat)
    requires amount > 0 && bps <= 500
    ensures 0 <= amount * bps / 10_000 <= amount - amount * bps / 10_000
  {
    assert 0 <= amount * bps <= amount * 500;
  }

  /** What a loan takes out of the pool: the amount, less the fee if the contract is its own treasury. */
  function Outlay(c: Config, amount: int): int {
    if c.treasury == Contract then amount - amount * c.originationFee / 10_000 else amount
  }

  /** A loan is granted exactly when the contract is not paused, the borrower owns every listed
      collateral, the amount is within the LTV share of their total effective value, the arithmetic
      fits and the pool covers what the loan takes out of it. */
  lemma BorrowSucceedsIff(s: State, now: nat, borrower: Address, ids: seq<nat>, amount: int)
    requires Inv(s)
    ensures RequestLoan(s, now, borrower, ids, amount).Done? <==>
      && !IsPaused(s.cfg, now) && borrower != Contract && ids != [] && AllOwned(s, borrower, ids)
      && var total := TotalValue(s, ids);
      && Fits(total) && Fits(total * s.cfg.ltv) && Fits(amount * s.cfg.originationFee) && s.loanCount < U64_MAX
      && 0 < amount && 10_000 * amount <= total * s.cfg.ltv
      && Outlay(s.cfg, amount) <= Balance(s.tokens, Contract)
    ensures RequestLoan(s, now, borrower, ids, amount).Done? ==>
      RequestLoan(s, now, borrower, ids, amount).state.loans[s.loanCount + 1].totalCollateralValue == TotalValue(s, ids)
  {
    AppraiseIff(s, borrower, ids, 0);
    var total := TotalValue(s, ids);
    assert amount <= total * s.cfg.ltv / 10_000 <==> 10_000 * amount <= total * s.cfg.ltv;
    if amount > 0 && borrower != Contract { DisburseDone(s, now, borrower, ids, amount, total); }
  }

  /** What a granted loan writes: one new record, the links of the listed collaterals, balances, and
      nothing else. */
  lemma BorrowWrites(s: State, now: nat, borrower: Address, ids: seq<nat>, amount: int, c: nat)
    requires Inv(s) && RequestLoan(s, now, borrower, ids, amount).Done?
    ensures var s' := RequestLoan(s, now, borrower, ids, amount).state;
      && s'.loanCount == s.loanCount + 1 && s'.loanCount !in s.loans && s'.loanCount in s'.loans
      && s' == s.(loanCount := s'.loanCount, loans := s.loans[s'.loanCount := s'.loans[s'.loanCount]],
                  collaterals := s'.collaterals, tokens := s'.tokens)
      && (c in s'.collaterals <==> c in s.collaterals)
      && (c in s.collaterals ==>
            s'.collaterals[c] == if c in ids then s.collaterals[c].(loanId := s'.loanCount) else s.collaterals[c])
  {
  }

  /** A repayment is accepted exactly when the caller is the borrower of an open loan, can pay
      min(amount, debt), and the arithmetic fits; the pause plays no part. */
  lemma RepaySucceedsIff(s: State, now: nat, borrower: Address, i: nat, amount: int)
    requires Inv(s)
    ensures RepayLoan(s, now, borrower, i, amount).Done? <==>
      && 0 < amount && i in s.loans && s.loans[i].borrower == borrower && s.loans[i].status == Active
      && var due := InterestDue(s.loans[i], s.cfg.interestFee, now);
      && Fits(s.loans[i].outstanding + due)
      && Fits(Min(due, amount) * s.cfg.interestFee)
      && Min(amount, s.loans[i].outstanding + due) <= Balance(s.tokens, borrower)
  {
    if 0 < amount && i in s.loans && s.loans[i].borrower == borrower && s.loans[i].status == Active {
      var l := Accrue(s.loans[i], s.cfg.interestFee, now);
      AccrueKeeps(s.loans[i], s.cfg.interestFee, now);
      var paid := Min(amount, l.outstanding + l.interestAccrued);
      var interest := Min(l.interestAccrued, paid);
      assert interest == Min(l.interestAccrued, amount) >= 0;
      FeeBounds(interest, s.cfg.interestFee);
      CollectDone(s, l, paid, interest, interest * s.cfg.interestFee / 10_000);
    }
  }

  lemma CollectDone(s: State, l: Loan, paid: int, interest: int, fee: int)
    requires 0 <= fee <= paid && l.borrower != Contract
    ensures Collect(s, l, paid, interest, fee).Done? <==> paid <= Balance(s.tokens, l.borrower)
  {
  }

  /** Livestock is registered exactly when it would count at its full appraised value. */
  lemma RegisterSucceedsIff(s: State, now: nat, owner: Address, animalType: string, count: nat, value: int)
    requires Inv(s)
    ensures RegisterLivestock(s, now, owner, animalType, count, value).Done? <==>
      && !IsPaused(s.cfg, now) && owner != Contract && 0 < count && 0 < value && s.collateralCount < U64_MAX
      && (animalType in s.cfg.animalCaps ==> value <= s.cfg.animalCaps[animalType])
      && EffectiveValue(s.cfg, s.twap, Collateral(owner, animalType, count, value, 0, [value])) == value
    ensures RegisterLivestock(s, now, owner, animalType, count, value).Done? ==>
      var tx := RegisterLivestock(s, now, owner, animalType, count, value);
      && tx.value == s.collateralCount + 1 == tx.state.collateralCount && tx.value !in s.collaterals
      && tx.state == s.(collateralCount := tx.value,
                        collaterals := s.collaterals[tx.value := Collateral(owner, animalType, count, value, 0, [value])])
  {
  }

  /** The last three elements, or fewer. */
  function LastThree(h: seq<int>): seq<int> {
    if |h| <= 3 then h else h[|h| - 3..]
  }

  /** A reappraisal is accepted exactly when the owner asks for a value that would count in full; the
      per-type cap of registration is not tested. The log keeps the last three values. */
  lemma ReappraiseSucceedsIff(s: State, now: nat, owner: Address, c: nat, value: int)
    requires Inv(s)
    ensures UpdateAppraisal(s, now, owner, c, value).Done? <==>
      && !IsPaused(s.cfg, now) && 0 < value && c in s.collaterals && s.collaterals[c].owner == owner
      && EffectiveValue(s.cfg, s.twap, s.collaterals[c].(appraisedValue := value)) == value
    ensures UpdateAppraisal(s, now, owner, c, value).Done? ==>
      UpdateAppraisal(s, now, owner, c, value).state
      == s.(collaterals := s.collaterals[c := s.collaterals[c].(
              appraisedValue := value, history := LastThree(s.collaterals[c].history + [value]))])
  {
    if c in s.collaterals {
      var h := s.collaterals[c].history;
      assert CollateralOk(s.collaterals[c]);
      assert |h| == 3 ==> h[1..] + [value] == (h + [value])[1..];
    }
  }
}
