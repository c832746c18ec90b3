/** Which error each refused call answers with, code by code. */
module LendingRefusals {
  import opened Division
  import opened Outcomes
  import opened LendingModel
  import opened LendingInvariants
  import opened LendingConservation
  import opened LendingSafety
  import opened LendingAdmission

  ghost predicate Refuses<T>(tx: Tx<T>, e: Error) {
    tx == Fail(e)
  }

  /** The oracle rejects a valuation exactly when the herd would count for less. */
  ghost predicate CountsForLess(s: State, col: Collateral, value: int) {
    EffectiveValue(s.cfg, s.twap, col.(appraisedValue := value)) < value
  }

  lemma RegisterRefusals(s: State, now: nat, owner: Address, animalType: string, count: nat, value: int)
    requires Inv(s)
    ensures var tx := RegisterLivestock(s, now, owner, animalType, count, value);
      var open, capped := !IsPaused(s.cfg, now), animalType in s.cfg.animalCaps && value > s.cfg.animalCaps[animalType];
      var less := CountsForLess(s, Collateral(owner, animalType, count, value, 0, []), value);
      && (Refuses(tx, ContractPaused) <==> !open)
      && (Refuses(tx, InvalidAmount) <==> open && (value <= 0 || count == 0 || capped))
      && (Refuses(tx, InvalidPrice) <==> open && value > 0 && count > 0 && !capped && less)
      && (Refuses(tx, Trap) <==> open && value > 0 && count > 0 && !capped && !less && owner == Contract)
      && (tx.Fail? ==> tx.error in {ContractPaused, InvalidAmount, InvalidPrice, Trap, ArithmeticOverflow})
  {
  }

  lemma ReappraiseRefusals(s: State, now: nat, owner: Address, c: nat, value: int)
    requires Inv(s)
    ensures var tx, open := UpdateAppraisal(s, now, owner, c, value), !IsPaused(s.cfg, now);
      && (Refuses(tx, ContractPaused) <==> !open)
      && (Refuses(tx, InvalidAmount) <==> open && value <= 0)
      && (Refuses(tx, Trap) <==> open && value > 0 && owner == Contract)
      && (Refuses(tx, CollateralNotFound) <==> open && value > 0 && owner != Contract && c !in s.collaterals)
      && (Refuses(tx, Unauthorized) <==>
            open && value > 0 && owner != Contract && c in s.collaterals && s.collaterals[c].owner != owner)
      && (Refuses(tx, InvalidPrice) <==>
            open && value > 0 && owner != Contract && c in s.collaterals && s.collaterals[c].owner == owner
            && CountsForLess(s, s.collaterals[c], value))
      && (tx.Fail? ==>
            tx.error in {ContractPaused, InvalidAmount, Trap, CollateralNotFound, Unauthorized, InvalidPrice})
  {
  }

  /** The listed collateral at which the origination loop stops: the first that is missing or not owned,
      as long as the values before it add up within i128. */
  ghost predicate StopsAt(s: State, borrower: Address, ids: seq<nat>, i: nat) {
    && i < |ids| && AllOwned(s, borrower, ids[..i]) && Fits(TotalValue(s, ids[..i]))
    && !(ids[i] in s.collaterals && s.collaterals[ids[i]].owner == borrower)
  }

  lemma {:induction false} AppraiseStops(s: State, borrower: Address, ids: seq<nat>, i: nat, acc: int)
    requires Inv(s) && i < |ids| && AllOwned(s, borrower, ids[..i]) && acc >= 0 && Fits(acc + TotalValue(s, ids[..i]))
    requires !(ids[i] in s.collaterals && s.collaterals[ids[i]].owner == borrower)
    ensures Appraise(s, borrower, ids, acc) == Err(if ids[i] in s.collaterals then Unauthorized else CollateralNotFound)
  {
    if i > 0 {
      var first := ids[..i];
      var later := first[1..];
      assert first[0] == ids[0] && later == ids[1..][..i - 1];
      EffectiveValueBounds(s.cfg, s.twap, s.collaterals[ids[0]]);
      TotalValuePositive(s, later);
      forall j | 0 <= j < |later| ensures later[j] in s.collaterals && s.collaterals[later[j]].owner == borrower {
        assert later[j] == first[j + 1];
      }
      AppraiseStops(s, borrower, ids[1..], i - 1, acc + EffectiveValue(s.cfg, s.twap, s.collaterals[ids[0]]));
    }
  }

  /** The request itself is in order. */
  ghost predicate Asks(s: State, now: nat, borrower: Address, ids: seq<nat>, amount: int) {
    !IsPaused(s.cfg, now) && amount > 0 && ids != [] && borrower != Contract
  }

  lemma {:induction false} AppraiseErrors(s: State, borrower: Address, ids: seq<nat>, acc: int)
    ensures Appraise(s, borrower, ids, acc).Err? ==>
      Appraise(s, borrower, ids, acc).error in {CollateralNotFound, Unauthorized, InvalidAmount}
  {
    if ids != [] && ids[0] in s.collaterals {
      AppraiseErrors(s, borrower, ids[1..], acc + EffectiveValue(s.cfg, s.twap, s.collaterals[ids[0]]));
    }
  }

  lemma BorrowRefusals(s: State, now: nat, borrower: Address, ids: seq<nat>, amount: int)
    ensures var tx, open := RequestLoan(s, now, borrower, ids, amount), !IsPaused(s.cfg, now);
      && (Refuses(tx, ContractPaused) <==> !open)
      && (open && amount <= 0 ==> Refuses(tx, InvalidAmount))
      && (open && amount > 0 && ids == [] ==> Refuses(tx, CollateralNotFound))
      && (open && amount > 0 && ids != [] && borrower == Contract ==> Refuses(tx, Trap))
  {
    AppraiseErrors(s, borrower, ids, 0);
  }

  lemma BorrowStops(s: State, now: nat, borrower: Address, ids: seq<nat>, amount: int, i: nat)
    requires Inv(s) && Asks(s, now, borrower, ids, amount) && StopsAt(s, borrower, ids, i)
    ensures Refuses(RequestLoan(s, now, borrower, ids, amount),
              if ids[i] in s.collaterals then Unauthorized else CollateralNotFound)
  {
    AppraiseStops(s, borrower, ids, i, 0);
  }

  /** With owned collateral and fitting arithmetic: first the LTV share, then the pool's balance. */
  lemma BorrowTests(s: State, now: nat, borrower: Address, ids: seq<nat>, amount: int)
    requires Inv(s) && Asks(s, now, borrower, ids, amount) && AllOwned(s, borrower, ids) && s.loanCount < U64_MAX
    requires Fits(TotalValue(s, ids)) && Fits(TotalValue(s, ids) * s.cfg.ltv) && Fits(amount * s.cfg.originationFee)
    ensures var tx, within := RequestLoan(s, now, borrower, ids, amount), 10_000 * amount <= TotalValue(s, ids) * s.cfg.ltv;
      && (Refuses(tx, InsufficientCollateral) <==> !within)
      && (Refuses(tx, Trap) <==> within && Outlay(s.cfg, amount) > Balance(s.tokens, Contract))
  {
    AppraiseIff(s, borrower, ids, 0);
    var limit := TotalValue(s, ids) * s.cfg.ltv;
    assert amount <= limit / 10_000 <==> 10_000 * amount <= limit;
    DisburseDone(s, now, borrower, ids, amount, TotalValue(s, ids));
  }

  lemma {:induction false} AppraiseOverflows(s: State, borrower: Address, ids: seq<nat>, acc: int)
    requires AllOwned(s, borrower, ids) && Appraise(s, borrower, ids, acc).Err?
    ensures Appraise(s, borrower, ids, acc).error == InvalidAmount
  {
    assert ids[0] in s.collaterals && s.collaterals[ids[0]].owner == borrower;
    var total := acc + EffectiveValue(s.cfg, s.twap, s.collaterals[ids[0]]);
    if Fits(total) {
      assert forall j :: 0 <= j < |ids| - 1 ==> ids[1..][j] == ids[j + 1];
      AppraiseOverflows(s, borrower, ids[1..], total);
    }
  }

  /** With owned collateral: what each overflow answers, in the order of the checks. */
  lemma BorrowOverflows(s: State, now: nat, borrower: Address, ids: seq<nat>, amount: int)
    requires Inv(s) && Asks(s, now, borrower, ids, amount) && AllOwned(s, borrower, ids)
    ensures var tx, total := RequestLoan(s, now, borrower, ids, amount), TotalValue(s, ids);
      var summed := Fits(total) && Fits(total * s.cfg.ltv);
      var within := 10_000 * amount <= total * s.cfg.ltv;
      && (!summed ==> Refuses(tx, InvalidAmount))
      && (summed && !within ==> Refuses(tx, InsufficientCollateral))
      && (summed && within && !Fits(amount * s.cfg.originationFee) ==> Refuses(tx, InvalidAmount))
      && (summed && within && Fits(amount * s.cfg.originationFee) && s.loanCount >= U64_MAX ==>
            Refuses(tx, ArithmeticOverflow))
  {
    AppraiseIff(s, borrower, ids, 0);
    if !Fits(TotalValue(s, ids)) { AppraiseOverflows(s, borrower, ids, 0); }
    var limit := TotalValue(s, ids) * s.cfg.ltv;
    assert amount <= limit / 10_000 <==> 10_000 * amount <= limit;
  }

  lemma RepayRefusals(s: State, now: nat, borrower: Address, i: nat, amount: int)
    requires Inv(s)
    ensures var tx, asked := RepayLoan(s, now, borrower, i, amount), amount > 0 && borrower != Contract;
      && (amount <= 0 ==> Refuses(tx, InvalidAmount))
      && (Refuses(tx, LoanNotFound) <==> asked && i !in s.loans)
      && (Refuses(tx, Unauthorized) <==> asked && i in s.loans && s.loans[i].borrower != borrower)
      && (Refuses(tx, LoanAlreadyClosed) <==>
            asked && i in s.loans && s.loans[i].borrower == borrower && s.loans[i].status != Active)
      && (tx.Fail? ==> tx.error in {InvalidAmount, LoanNotFound, Unauthorized, LoanAlreadyClosed, Trap})
  {
  }

  /** The borrower's own open loan: first the overflows, then the borrower's balance. */
  lemma RepayTests(s: State, now: nat, borrower: Address, i: nat, amount: int)
    requires Inv(s) && amount > 0 && i in s.loans && s.loans[i].borrower == borrower && s.loans[i].status == Active
    ensures var tx, l := RepayLoan(s, now, borrower, i, amount), s.loans[i];
      var due := InterestDue(l, s.cfg.interestFee, now);
      var fits := Fits(l.outstanding + due) && Fits(Min(due, amount) * s.cfg.interestFee);
      && (Refuses(tx, InvalidAmount) <==> !fits)
      && (Refuses(tx, Trap) <==> fits && Min(amount, l.outstanding + due) > Balance(s.tokens, borrower))
  {
    RepaySucceedsIff(s, now, borrower, i, amount);
    AccrueKeeps(s.loans[i], s.cfg.interestFee, now);
    var l := Accrue(s.loans[i], s.cfg.interestFee, now);
    assert Min(l.interestAccrued, Min(amount, l.outstanding + l.interestAccrued)) == Min(l.interestAccrued, amount);
  }

  lemma {:induction false} ValueErrors(s: State, ids: seq<nat>, acc: int)
    ensures CurrentValue(s, ids, acc).Err? ==> CurrentValue(s, ids, acc).error == InvalidAmount
  {
    if ids != [] {
      ValueErrors(s, ids[1..], acc);
      if ids[0] in s.collaterals {
        ValueErrors(s, ids[1..], acc + EffectiveValue(s.cfg, s.twap, s.collaterals[ids[0]]));
      }
    }
  }

  /** Why the health factor of an open loan is undefined: only the last, unchecked product traps. */
  lemma HealthErrors(s: State, i: nat)
    requires Inv(s) && i in s.loans && s.loans[i].status == Active && HealthFactor(s, s.loans[i]).Err?
    ensures var l, v := s.loans[i], CurrentValue(s, s.loans[i].collateralIds, 0);
      HealthFactor(s, l).error ==
        if Fits(l.outstanding + l.interestAccrued) && v.Ok? && Fits(v.value * s.cfg.liqThreshold) && Fits(l.outstanding * 10_000)
        then Trap else InvalidAmount
  {
    ValueErrors(s, s.loans[i].collateralIds, 0);
    if CurrentValue(s, s.loans[i].collateralIds, 0).Ok? { FallbackNeverTaken(s, i); }
  }

  lemma LiquidateRefusals(s: State, now: nat, liquidator: Address, i: nat, repay: int)
    requires Inv(s)
    ensures var tx, open := Liquidate(s, now, liquidator, i, repay), !IsPaused(s.cfg, now);
      var asked := open && repay > 0 && liquidator != Contract;
      var allowed := s.cfg.whitelist == {} || liquidator in s.cfg.whitelist;
      && (Refuses(tx, ContractPaused) <==> !open)
      && (open && repay <= 0 ==> Refuses(tx, InvalidAmount))
      && (open && repay > 0 && liquidator == Contract ==> Refuses(tx, Trap))
      && (Refuses(tx, LiquidatorNotWhitelisted) <==> asked && !allowed)
      && (Refuses(tx, LoanNotFound) <==> asked && allowed && i !in s.loans)
      && (Refuses(tx, LoanAlreadyClosed) <==> asked && allowed && i in s.loans && s.loans[i].status != Active)
      && (asked && allowed && i in s.loans && s.loans[i].status == Active && HealthFactor(s, s.loans[i]).Err? ==>
            Refuses(tx, HealthFactor(s, s.loans[i]).error))
  {
    if i in s.loans { ValueErrors(s, s.loans[i].collateralIds, 0); }
    assert s.cfg.whitelistCount == 0 <==> s.cfg.whitelist == {};
  }

  /** With an open loan, a permitted caller and fitting arithmetic: first the health, then the cap, then
      the liquidator's balance. */
  lemma LiquidateTests(s: State, now: nat, liquidator: Address, i: nat, repay: int)
    requires Inv(s) && !IsPaused(s.cfg, now) && repay > 0 && liquidator != Contract
    requires s.cfg.whitelist == {} || liquidator in s.cfg.whitelist
    requires i in s.loans && s.loans[i].status == Active && CurrentValue(s, s.loans[i].collateralIds, 0).Ok?
    requires HealthFits(s.loans[i], CurrentValue(s, s.loans[i].collateralIds, 0).value, s.cfg.liqThreshold)
    ensures var tx, l := Liquidate(s, now, liquidator, i, repay), s.loans[i];
      var safe := CurrentValue(s, l.collateralIds, 0).value * s.cfg.liqThreshold >= 10_000 * l.outstanding;
      var within := 10_000 * repay <= l.outstanding * s.cfg.closeFactor;
      && (Refuses(tx, HealthFactorSafe) <==> safe)
      && (Refuses(tx, ExceedsCloseFactor) <==> !safe && !within)
      && (Refuses(tx, Trap) <==> !safe && within && repay > Balance(s.tokens, liquidator))
  {
    HealthExact(s, i);
    assert s.cfg.whitelistCount == 0 <==> s.cfg.whitelist == {};
    CapFits(s.loans[i].outstanding, s.cfg.closeFactor);
    var cap := s.loans[i].outstanding * s.cfg.closeFactor;
    assert repay <= cap / 10_000 <==> 10_000 * repay <= cap;
  }

  lemma CapFits(outstanding: int, closeFactor: nat)
    requires outstanding >= 0 && closeFactor <= 10_000 && Fits(outstanding * 10_000)
    ensures Fits(outstanding * closeFactor)
  {
    if outstanding > 0 { MultiplyMonotone(outstanding, closeFactor, 10_000); }
  }

  lemma PriceRefusals(s: State, now: nat, who: Address, price: int, prices: seq<int>)
    ensures var one := SubmitPrice(s, now, who, price);
      && (who == Contract ==> Refuses(one, Trap))
      && (Refuses(one, Unauthorized) <==> who != Contract && who != s.cfg.oracle)
      && (Refuses(one, InvalidPrice) <==> who != Contract && who == s.cfg.oracle && price <= 0)
    ensures var many, valid := SubmitOraclePrices(s, now, who, prices),
                               |prices| == |OracleList(s.cfg)| && forall p :: p in prices ==> 0 < p < 1_000_000_000_000_000_000;
      && (who == Contract ==> Refuses(many, Trap))
      && (Refuses(many, InvalidPrice) <==> who != Contract && !valid)
      && (Refuses(many, InsufficientOracleQuorum) <==> who != Contract && valid && |prices| < s.cfg.minQuorum)
  {
  }

  lemma AdminRefusals(s: State, now: nat, caller: Address, op: AdminOp)
    requires Inv(s)
    ensures var tx, c := Administer(s, now, caller, op), s.cfg;
      var held := (op.UpdateFeeConfig? || op.AddOracle?) && IsPaused(c, now);
      && (Refuses(tx, ContractPaused) <==> held)
      && (Refuses(tx, Unauthorized) <==> !held && caller != c.admin)
      && (!held && caller == c.admin && tx.Fail? ==>
            match op
            case Pause => tx.error == if IsPaused(c, now) then AlreadyPaused else ArithmeticOverflow
            case Unpause => tx.error == NotPaused
            case SetCloseFactor(_) => tx.error == InvalidCloseFactor
            case UpdateFeeConfig(_, _) => tx.error == InvalidFeeRate
            case AddOracle(o) => tx.error == if o in OracleList(c) then OracleAlreadyRegistered else OracleLimitReached
            case RemoveOracle(_) => tx.error == OracleNotFound
            case CancelUpgrade => tx.error == NoUpgradePending
            case AddLiquidator(_) => tx.error == Trap
            case _ => tx.error == InvalidAmount)
  {
  }

  lemma OtherRefusals(s: State, now: nat, who: Address, to: Address)
    requires Inv(s)
    ensures Refuses(AcceptAdminRole(s, who), Unauthorized) <==> s.cfg.pendingAdmin != Some(who)
    ensures Refuses(EmergencyWithdraw(s, now, who, to), Unauthorized) <==> who != s.cfg.admin
    ensures Refuses(EmergencyWithdraw(s, now, who, to), NotPaused) <==> who == s.cfg.admin && !IsPaused(s.cfg, now)
    ensures Refuses(ExecuteUpgrade(s, now), NoUpgradePending) <==> s.upgrade.None?
    ensures Refuses(ExecuteUpgrade(s, now), TimelockNotElapsed) <==>
      s.upgrade.Some? && now < Min(s.upgrade.value.time + 86_400, U64_MAX)
  {
  }
}
