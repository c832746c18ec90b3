/** The lending contract as it is written: storage fields, one method per entry point. Every method
    is proved to commit exactly what its transaction function says, or to leave storage as it was. */
module StellarKraalContract {
  import opened Outcomes
  import opened Registries
  import opened OrderStatistics
  import opened PriceSorts
  import opened LendingModel
  import opened LendingInvariants
  import opened LendingLinks

  /** An invocation that took storage from before to after and answered r realises the transaction. */
  ghost predicate Realises<T>(tx: Tx<T>, before: State, after: State, r: Result<T, Error>) {
    match tx
    case Done(s, v) => after == s && r == Ok(v)
    case Fail(e) => after == before && r == Err(e)
  }

  /** The caller is the admin and the call is allowed exactly when it succeeds; it then leaves the
      configuration c, and nothing else changes in any case. */
  ghost predicate Sets(before: State, after: State, caller: Address, allowed: bool, c: Config, ok: bool) {
    && (ok <==> caller == before.cfg.admin && caller != Contract && allowed)
    && after == if ok then before.(cfg := c) else before
  }

  class StellarKraal {
    var cfg: Config
    var loans: map<nat, Loan>
    var collaterals: map<nat, Collateral>
    var loanCount: nat
    var collateralCount: nat
    var tokens: map<Address, nat>
    var twap: Twap
    var upgrade: Option<Proposal>

    ghost function View(): State
      reads this
    {
      State(cfg, loans, collaterals, loanCount, collateralCount, tokens, twap, upgrade)
    }

    ghost predicate Valid()
      reads this
    {
      Inv(View())
    }

    /** Deployment by a successful `initialize`. */
    constructor (
      admin: Address, zero: Address, oracle: Address, treasury: Address, ltv: nat, liqThreshold: nat,
      minQuorum: nat, tokens: map<Address, nat>)
      requires Initialize(admin, zero, oracle, treasury, ltv, liqThreshold, minQuorum, tokens).Done?
      ensures Valid() && IsFresh(View(), admin, oracle, treasury, ltv, liqThreshold, minQuorum, tokens)
      ensures View() == Initialize(admin, zero, oracle, treasury, ltv, liqThreshold, minQuorum, tokens).state
    {
      cfg := Config(admin, None, oracle, None, treasury, ltv, liqThreshold, minQuorum, 50, 1000, 5000, false, 0,
        86_400, 2000, 0, 0, map[], {}, 0);
      loans, collaterals, loanCount, collateralCount := map[], map[], 0, 0;
      this.tokens, twap, upgrade := tokens, Twap(0, 0, 0, 0, 0, 3600), None;
      new;
      InitializeEstablishes(admin, zero, oracle, treasury, ltv, liqThreshold, minQuorum, tokens);
    }

    /** A token transfer; false is a host trap. */
    method Pay(from: Address, to: Address, amount: int) returns (ok: bool)
      modifies this`tokens
      ensures var t := Transfer(old(tokens), from, to, amount);
        ok == t.Some? && tokens == if t.Some? then t.value else old(tokens)
    {
      if amount < 0 || Balance(tokens, from) < amount { return false; }
      tokens := tokens[from := Balance(tokens, from) - amount];
      tokens := tokens[to := Balance(tokens, to) + amount];
      return true;
    }

    // ---- Collateral ---------------------------------------------------------------------------

    method RegisterLivestock(now: nat, owner: Address, animalType: string, count: nat, appraisedValue: int)
      returns (r: Result<nat, Error>)
      requires Valid()
      modifies this
      ensures Realises(LendingModel.RegisterLivestock(old(View()), now, owner, animalType, count, appraisedValue), old(View()), View(), r)
      ensures Valid()
    {
      RegisterKeeps(View(), now, owner, animalType, count, appraisedValue);
      if IsPaused(cfg, now) { return Err(ContractPaused); }
      if appraisedValue <= 0 || count == 0 { return Err(InvalidAmount); }
      if animalType in cfg.animalCaps {
        if appraisedValue > cfg.animalCaps[animalType] { return Err(InvalidAmount); }
      }
      var price := EffectivePrice(cfg, twap);
      if price.Some? {
        if appraisedValue > PriceCeiling(cfg, price.value, count) { return Err(InvalidPrice); }
      }
      if owner == Contract { return Err(Trap); }
      if collateralCount >= U64_MAX { return Err(ArithmeticOverflow); }
      collateralCount := collateralCount + 1;
      collaterals := collaterals[collateralCount := Collateral(owner, animalType, count, appraisedValue, 0, [appraisedValue])];
      return Ok(collateralCount);
    }

    method UpdateAppraisal(now: nat, owner: Address, collateralId: nat, newValue: int) returns (r: Result<(), Error>)
      requires Valid()
      modifies this
      ensures Realises(LendingModel.UpdateAppraisal(old(View()), now, owner, collateralId, newValue), old(View()), View(), r)
      ensures Valid()
    {
      ReappraiseKeeps(View(), now, owner, collateralId, newValue);
      if IsPaused(cfg, now) { return Err(ContractPaused); }
      if newValue <= 0 { return Err(InvalidAmount); }
      if owner == Contract { return Err(Trap); }
      if collateralId !in collaterals { return Err(CollateralNotFound); }
      var record := collaterals[collateralId];
      if record.owner != owner { return Err(Unauthorized); }
      var price := EffectivePrice(cfg, twap);
      if price.Some? {
        if newValue > PriceCeiling(cfg, price.value, record.count) { return Err(InvalidPrice); }
      }
      var history := record.history;
      if |history| >= 3 {
        var newHistory := [];
        var start := |history| - 2;
        for i := start to |history|
          invariant newHistory == history[start..i]
        {
          newHistory := newHistory + [history[i]];
        }
        assert newHistory == history[start..];
        history := newHistory;
      }
      collaterals := collaterals[collateralId := record.(appraisedValue := newValue, history := history + [newValue])];
      return Ok(());
    }

    /** The owner's collaterals whose last loan was not liquidated; traps if they exceed u32. */
    method GetCollateralCount(owner: Address) returns (r: Result<nat, Error>)
      requires Valid()
      ensures var n := |Counted(View(), owner)|;
        r == if n <= U32_MAX then Ok(n) else Err(Trap)
    {
      var count := 0;
      CountedEnds(View(), owner);
      for id := 1 to collateralCount + 1
        invariant count == |CountedUpTo(View(), owner, id - 1)| <= U32_MAX
      {
        CountedGrows(View(), owner, id - 1);
        SmallerPart(CountedUpTo(View(), owner, id), Counted(View(), owner));
        var col := collaterals[id];
        if col.owner == owner {
          var isLiquidated := false;
          if col.loanId > 0 {
            if col.loanId in loans {
              if loans[col.loanId].status == Liquidated { isLiquidated := true; }
            }
          }
          if !isLiquidated {
            if count == U32_MAX { return Err(Trap); }
            count := count + 1;
          }
        }
      }
      return Ok(count);
    }

    // ---- Loans ------------------------------------------------------------------------------------

    /** The origination loop. */
    method AppraiseAll(borrower: Address, ids: seq<nat>) returns (r: Result<int, Error>)
      ensures r == Appraise(View(), borrower, ids, 0)
    {
      var total := 0;
      for i := 0 to |ids|
        invariant Appraise(View(), borrower, ids, 0) == Appraise(View(), borrower, ids[i..], total)
      {
        if ids[i] !in collaterals { return Err(CollateralNotFound); }
        var collateral := collaterals[ids[i]];
        if collateral.owner != borrower { return Err(Unauthorized); }
        var value := EffectiveValue(cfg, twap, collateral);
        if !Fits(total + value) { return Err(InvalidAmount); }
        total := total + value;
      }
      return Ok(total);
    }

    /** Point every listed collateral at the loan. */
    method LinkAll(ids: seq<nat>, loanId: nat)
      requires forall c :: c in ids ==> c in collaterals
      modifies this`collaterals
      ensures collaterals == Link(old(collaterals), ids, loanId)
    {
      for i := 0 to |ids|
        invariant collaterals == Link(old(collaterals), ids[..i], loanId)
      {
        assert ids[i] in ids;
        collaterals := collaterals[ids[i] := collaterals[ids[i]].(loanId := loanId)];
        assert ids[..i + 1] == ids[..i] + [ids[i]];
      }
      assert ids[..|ids|] == ids;
    }

    method RequestLoan(now: nat, borrower: Address, collateralIds: seq<nat>, amount: int) returns (r: Result<nat, Error>)
      requires Valid()
      modifies this
      ensures Realises(LendingModel.RequestLoan(old(View()), now, borrower, collateralIds, amount), old(View()), View(), r)
      ensures Valid()
    {
      BorrowKeeps(View(), now, borrower, collateralIds, amount);
      if IsPaused(cfg, now) { return Err(ContractPaused); }
      if amount <= 0 { return Err(InvalidAmount); }
      if collateralIds == [] { return Err(CollateralNotFound); }
      if borrower == Contract { return Err(Trap); }
      var total := AppraiseAll(borrower, collateralIds);
      if total.Err? { return Err(total.error); }
      if !Fits(total.value * cfg.ltv) { return Err(InvalidAmount); }
      var maxLoan := total.value * cfg.ltv / 10_000;
      if amount > maxLoan { return Err(InsufficientCollateral); }
      if !Fits(amount * cfg.originationFee) { return Err(InvalidAmount); }
      if loanCount >= U64_MAX { return Err(ArithmeticOverflow); }
      AppraisedAreOwned(View(), borrower, collateralIds, 0);
      r := Open(now, borrower, collateralIds, amount, total.value);
    }

    /** The writes and transfers of a new loan; a failed transfer rolls everything back. */
    method Open(now: nat, borrower: Address, ids: seq<nat>, amount: int, total: int) returns (r: Result<nat, Error>)
      requires forall c :: c in ids ==> c in collaterals
      modifies this
      ensures Realises(Disburse(old(View()), now, borrower, ids, amount, total), old(View()), View(), r)
    {
      var savedLoans, savedCollaterals, savedCount, savedTokens := loans, collaterals, loanCount, tokens;
      var fee := amount * cfg.originationFee / 10_000;
      var disbursement := amount - fee;
      loanCount := loanCount + 1;
      var loanId := loanCount;
      loans := loans[loanId := Loan(loanId, borrower, ids, total, amount, amount, 0, now, Active)];
      LinkAll(ids, loanId);
      var ok := true;
      if fee > 0 {
        ok := Pay(Contract, cfg.treasury, fee);
      }
      if ok {
        ok := Pay(Contract, borrower, disbursement);
      }
      if !ok {
        loans, collaterals, loanCount, tokens := savedLoans, savedCollaterals, savedCount, savedTokens;
        return Err(Trap);
      }
      return Ok(loanId);
    }

    method RepayLoan(now: nat, borrower: Address, loanId: nat, amount: int) returns (r: Result<(), Error>)
      requires Valid()
      modifies this
      ensures Realises(LendingModel.RepayLoan(old(View()), now, borrower, loanId, amount), old(View()), View(), r)
      ensures Valid()
    {
      RepayKeeps(View(), now, borrower, loanId, amount);
      if amount <= 0 { return Err(InvalidAmount); }
      if borrower == Contract { return Err(Trap); }
      if loanId !in loans { return Err(LoanNotFound); }
      var loan := loans[loanId];
      if loan.borrower != borrower { return Err(Unauthorized); }
      if loan.status != Active { return Err(LoanAlreadyClosed); }
      var elapsed := Elapsed(loan.lastInterestTime, now);
      if elapsed > 0 && loan.outstanding > 0 {
        var accrued := Accrual(loan.outstanding, cfg.interestFee, elapsed);
        loan := loan.(interestAccrued := Saturate(loan.interestAccrued + accrued));
      }
      loan := loan.(lastInterestTime := now);
      assert loan == Accrue(loans[loanId], cfg.interestFee, now);
      if !Fits(loan.outstanding + loan.interestAccrued) { return Err(InvalidAmount); }
      var repayAmount := Min(amount, loan.outstanding + loan.interestAccrued);
      var interestPaid := Min(loan.interestAccrued, repayAmount);
      if !Fits(interestPaid * cfg.interestFee) { return Err(InvalidAmount); }
      var interestFee := interestPaid * cfg.interestFee / 10_000;
      r := Receive(loan, repayAmount, interestPaid, interestFee);
    }

    /** The transfers and the record of a repayment. */
    method Receive(accrued: Loan, repayAmount: int, interestPaid: int, interestFee: int) returns (r: Result<(), Error>)
      modifies this
      ensures Realises(Collect(old(View()), accrued, repayAmount, interestPaid, interestFee), old(View()), View(), r)
    {
      var savedTokens := tokens;
      var loan := accrued.(interestAccrued := accrued.interestAccrued - interestPaid);
      var principalPaid := repayAmount - interestPaid;
      loan := loan.(outstanding := loan.outstanding - principalPaid);
      var ok := Pay(loan.borrower, Contract, repayAmount);
      if ok && interestFee > 0 {
        ok := Pay(Contract, cfg.treasury, interestFee);
      }
      if !ok {
        tokens := savedTokens;
        return Err(Trap);
      }
      if loan.outstanding == 0 && loan.interestAccrued == 0 {
        loan := loan.(status := Repaid);
      }
      loans := loans[loan.id := loan];
      return Ok(());
    }

    /** The health-factor loop. */
    method ValueOf(ids: seq<nat>) returns (r: Result<int, Error>)
      ensures r == CurrentValue(View(), ids, 0)
    {
      var current := 0;
      for i := 0 to |ids|
        invariant CurrentValue(View(), ids, 0) == CurrentValue(View(), ids[i..], current)
      {
        if ids[i] in collaterals {
          var value := EffectiveValue(cfg, twap, collaterals[ids[i]]);
          if !Fits(current + value) { return Err(InvalidAmount); }
          current := current + value;
        }
      }
      return Ok(current);
    }

    method ComputeHealthFactor(loan: Loan) returns (r: Result<int, Error>)
      ensures r == HealthFactor(View(), loan)
    {
      if !Fits(loan.outstanding + loan.interestAccrued) { return Err(InvalidAmount); }
      if loan.outstanding + loan.interestAccrued == 0 { return Ok(I128_MAX); }
      var current := ValueOf(loan.collateralIds);
      if current.Err? { return current; }
      var value := current.value;
      if value == 0 && loan.totalCollateralValue > 0 {
        value := loan.totalCollateralValue;
      }
      var numerator := value * cfg.liqThreshold;
      if !Fits(numerator) { return Err(InvalidAmount); }
      var denominator := loan.outstanding * 10_000;
      if !Fits(denominator) { return Err(InvalidAmount); }
      if !Fits(numerator * 10_000) || denominator == 0 { return Err(Trap); }
      return Ok(numerator * 10_000 / denominator);
    }

    method Liquidate(now: nat, liquidator: Address, loanId: nat, repayAmount: int) returns (r: Result<(), Error>)
      requires Valid()
      modifies this
      ensures Realises(LendingModel.Liquidate(old(View()), now, liquidator, loanId, repayAmount), old(View()), View(), r)
      ensures Valid()
    {
      LiquidateKeeps(View(), now, liquidator, loanId, repayAmount);
      if IsPaused(cfg, now) { return Err(ContractPaused); }
      if repayAmount <= 0 { return Err(InvalidAmount); }
      if liquidator == Contract { return Err(Trap); }
      if cfg.whitelistCount > 0 && liquidator !in cfg.whitelist { return Err(LiquidatorNotWhitelisted); }
      if loanId !in loans { return Err(LoanNotFound); }
      var loan := loans[loanId];
      if loan.status != Active { return Err(LoanAlreadyClosed); }
      var hf := ComputeHealthFactor(loan);
      if hf.Err? { return Err(hf.error); }
      if hf.value >= 10_000 { return Err(HealthFactorSafe); }
      if !Fits(loan.outstanding * cfg.closeFactor) { return Err(InvalidAmount); }
      var maxRepay := loan.outstanding * cfg.closeFactor / 10_000;
      if repayAmount > maxRepay { return Err(ExceedsCloseFactor); }
      var ok := Pay(liquidator, Contract, repayAmount);
      if !ok { return Err(Trap); }
      loan := loan.(outstanding := loan.outstanding - repayAmount);
      if loan.outstanding == 0 {
        loan := loan.(status := Liquidated);
      }
      loans := loans[loanId := loan];
      return Ok(());
    }

    // ---- Prices ---------------------------------------------------------------------------------------

    method SubmitPrice(now: nat, oracle: Address, price: int) returns (r: Result<(), Error>)
      requires Valid()
      modifies this
      ensures Realises(LendingModel.SubmitPrice(old(View()), now, oracle, price), old(View()), View(), r)
      ensures Valid()
    {
      StepKeeps(View(), Event(now, PostPrice(oracle, price)));
      if oracle == Contract { return Err(Trap); }
      if oracle != cfg.oracle { return Err(Unauthorized); }
      if price <= 0 { return Err(InvalidPrice); }
      Record(price, now);
      return Ok(());
    }

    /** The averaging step that both price entry points carry out. */
    method Record(price: int, now: nat)
      modifies this`twap
      ensures twap == RecordPrice(old(twap), price, now)
    {
      var sum, count;
      if twap.lastTime == 0 || Elapsed(twap.lastTime, now) > twap.window {
        sum, count := price, 1;
      } else {
        count := if twap.count >= U32_MAX then U32_MAX else twap.count + 1;
        sum := Saturate(twap.sum + price);
      }
      twap := twap.(lastPrice := price, lastTime := now, sum := sum, count := count, price := sum / count);
    }

    method SubmitOraclePrices(now: nat, submitter: Address, prices: seq<int>) returns (r: Result<OracleReport, Error>)
      requires Valid()
      modifies this
      ensures Realises(LendingModel.SubmitOraclePrices(old(View()), now, submitter, prices), old(View()), View(), r)
      ensures Valid()
    {
      StepKeeps(View(), Event(now, PostOraclePrices(submitter, prices)));
      if submitter == Contract { return Err(Trap); }
      if |prices| != |OracleList(cfg)| { return Err(InvalidPrice); }
      for i := 0 to |prices|
        invariant forall j :: 0 <= j < i ==> 0 < prices[j] < MAX_PRICE
      {
        assert prices[i] in prices;
        if prices[i] <= 0 || prices[i] >= MAX_PRICE { return Err(InvalidPrice); }
      }
      assert forall p :: p in prices ==> 0 < p < MAX_PRICE;
      if |prices| < cfg.minQuorum { return Err(InsufficientOracleQuorum); }
      if |prices| == 0 { return Err(Trap); }
      var median := SortedMiddle(prices);
      Record(median, now);
      var flagged := CountFlagged(prices, median);
      return Ok(OracleReport(median, |prices|, flagged));
    }

    // ---- Administration ----------------------------------------------------------------------------------

    /** The caller test shared by the administrative entry points. */
    method CheckAdmin(caller: Address) returns (e: Option<Error>)
      ensures e == if caller != cfg.admin then Some(Unauthorized) else if caller == Contract then Some(Trap) else None
    {
      if caller != cfg.admin { return Some(Unauthorized); }
      if caller == Contract { return Some(Trap); }
      return None;
    }

    method Pause(now: nat, admin: Address) returns (r: Result<(), Error>)
      requires Valid()
      modifies this
      ensures Realises(Administer(old(View()), now, admin, AdminOp.Pause), old(View()), View(), r)
      ensures Sets(old(View()), View(), admin, !IsPaused(old(cfg), now) && now + old(cfg.pauseDuration) <= U64_MAX,
        old(cfg).(paused := true, pauseExpiry := now + old(cfg.pauseDuration)), r.Ok?)
      ensures Valid()
    {
      AdministerKeeps(View(), now, admin, AdminOp.Pause);
      var e := CheckAdmin(admin);
      if e.Some? { return Err(e.value); }
      if IsPaused(cfg, now) { return Err(AlreadyPaused); }
      if now + cfg.pauseDuration > U64_MAX { return Err(ArithmeticOverflow); }
      cfg := cfg.(paused := true, pauseExpiry := now + cfg.pauseDuration);
      return Ok(());
    }

    method Unpause(now: nat, admin: Address) returns (r: Result<(), Error>)
      requires Valid()
      modifies this
      ensures Realises(Administer(old(View()), now, admin, AdminOp.Unpause), old(View()), View(), r)
      ensures Sets(old(View()), View(), admin, IsPaused(old(cfg), now),
        old(cfg).(paused := false, pauseExpiry := 0), r.Ok?)
      ensures Valid()
    {
      AdministerKeeps(View(), now, admin, AdminOp.Unpause);
      var e := CheckAdmin(admin);
      if e.Some? { return Err(e.value); }
      if !IsPaused(cfg, now) { return Err(NotPaused); }
      cfg := cfg.(paused := false, pauseExpiry := 0);
      return Ok(());
    }

    /** The pause duration is capped at 518 400 seconds. */
    method SetPauseDuration(now: nat, admin: Address, duration: nat) returns (r: Result<(), Error>)
      requires Valid()
      modifies this
      ensures Realises(Administer(old(View()), now, admin, AdminOp.SetPauseDuration(duration)), old(View()), View(), r)
      ensures Sets(old(View()), View(), admin, duration <= 518_400,
        old(cfg).(pauseDuration := duration), r.Ok?)
      ensures Valid()
    {
      AdministerKeeps(View(), now, admin, AdminOp.SetPauseDuration(duration));
      var e := CheckAdmin(admin);
      if e.Some? { return Err(e.value); }
      if duration > MAX_PAUSE_DURATION { return Err(InvalidAmount); }
      cfg := cfg.(pauseDuration := duration);
      return Ok(());
    }

    method UpdateOracle(now: nat, admin: Address, newOracle: Address, newMinQuorum: nat) returns (r: Result<(), Error>)
      requires Valid()
      modifies this
      ensures Realises(Administer(old(View()), now, admin, AdminOp.UpdateOracle(newOracle, newMinQuorum)), old(View()), View(), r)
      ensures Sets(old(View()), View(), admin, true,
        old(cfg).(oracle := newOracle, minQuorum := if newMinQuorum > 0 then newMinQuorum else old(cfg.minQuorum)), r.Ok?)
      ensures Valid()
    {
      AdministerKeeps(View(), now, admin, AdminOp.UpdateOracle(newOracle, newMinQuorum));
      var e := CheckAdmin(admin);
      if e.Some? { return Err(e.value); }
      cfg := cfg.(oracle := newOracle);
      if newMinQuorum > 0 {
        cfg := cfg.(minQuorum := newMinQuorum);
      }
      return Ok(());
    }

    method SetAnimalCap(now: nat, admin: Address, animalType: string, maxValue: int) returns (r: Result<(), Error>)
      requires Valid()
      modifies this
      ensures Realises(Administer(old(View()), now, admin, AdminOp.SetAnimalCap(animalType, maxValue)), old(View()), View(), r)
      ensures Sets(old(View()), View(), admin, maxValue > 0,
        old(cfg).(animalCaps := old(cfg.animalCaps)[animalType := maxValue]), r.Ok?)
      ensures Valid()
    {
      AdministerKeeps(View(), now, admin, AdminOp.SetAnimalCap(animalType, maxValue));
      var e := CheckAdmin(admin);
      if e.Some? { return Err(e.value); }
      if maxValue <= 0 { return Err(InvalidAmount); }
      cfg := cfg.(animalCaps := cfg.animalCaps[animalType := maxValue]);
      return Ok(());
    }

    method ProposeNewAdmin(now: nat, admin: Address, newAdmin: Address) returns (r: Result<(), Error>)
      requires Valid()
      modifies this
      ensures Realises(Administer(old(View()), now, admin, AdminOp.ProposeNewAdmin(newAdmin)), old(View()), View(), r)
      ensures Sets(old(View()), View(), admin, true,
        old(cfg).(pendingAdmin := Some(newAdmin)), r.Ok?)
      ensures Valid()
    {
      AdministerKeeps(View(), now, admin, AdminOp.ProposeNewAdmin(newAdmin));
      var e := CheckAdmin(admin);
      if e.Some? { return Err(e.value); }
      cfg := cfg.(pendingAdmin := Some(newAdmin));
      return Ok(());
    }

    method AcceptAdminRole(newAdmin: Address) returns (r: Result<(), Error>)
      requires Valid()
      modifies this
      ensures Realises(LendingModel.AcceptAdminRole(old(View()), newAdmin), old(View()), View(), r)
      ensures r.Ok? <==> old(cfg.pendingAdmin) == Some(newAdmin) && newAdmin != Contract
      ensures View() == if r.Ok? then old(View()).(cfg := old(cfg).(admin := newAdmin, pendingAdmin := None)) else old(View())
      ensures Valid()
    {
      AcceptKeeps(View(), newAdmin);
      if cfg.pendingAdmin != Some(newAdmin) { return Err(Unauthorized); }
      if newAdmin == Contract { return Err(Trap); }
      cfg := cfg.(admin := newAdmin, pendingAdmin := None);
      return Ok(());
    }

    method SetLtv(now: nat, admin: Address, bps: nat) returns (r: Result<(), Error>)
      requires Valid()
      modifies this
      ensures Realises(Administer(old(View()), now, admin, AdminOp.SetLtv(bps)), old(View()), View(), r)
      ensures Sets(old(View()), View(), admin, 1000 <= bps <= 9000,
        old(cfg).(ltv := bps), r.Ok?)
      ensures Valid()
    {
      AdministerKeeps(View(), now, admin, AdminOp.SetLtv(bps));
      var e := CheckAdmin(admin);
      if e.Some? { return Err(e.value); }
      if bps < 1000 || bps > 9000 { return Err(InvalidAmount); }
      cfg := cfg.(ltv := bps);
      return Ok(());
    }

    method SetLiquidationThreshold(now: nat, admin: Address, bps: nat) returns (r: Result<(), Error>)
      requires Valid()
      modifies this
      ensures Realises(Administer(old(View()), now, admin, AdminOp.SetLiquidationThreshold(bps)), old(View()), View(), r)
      ensures Sets(old(View()), View(), admin, 1 <= bps <= 10_000,
        old(cfg).(liqThreshold := bps), r.Ok?)
      ensures Valid()
    {
      AdministerKeeps(View(), now, admin, AdminOp.SetLiquidationThreshold(bps));
      var e := CheckAdmin(admin);
      if e.Some? { return Err(e.value); }
      if bps == 0 || bps > 10_000 { return Err(InvalidAmount); }
      cfg := cfg.(liqThreshold := bps);
      return Ok(());
    }

    method SetCloseFactor(now: nat, admin: Address, bps: nat) returns (r: Result<(), Error>)
      requires Valid()
      modifies this
      ensures Realises(Administer(old(View()), now, admin, AdminOp.SetCloseFactor(bps)), old(View()), View(), r)
      ensures Sets(old(View()), View(), admin, 1 <= bps <= 10_000,
        old(cfg).(closeFactor := bps), r.Ok?)
      ensures Valid()
    {
      AdministerKeeps(View(), now, admin, AdminOp.SetCloseFactor(bps));
      var e := CheckAdmin(admin);
      if e.Some? { return Err(e.value); }
      if bps == 0 || bps > 10_000 { return Err(InvalidCloseFactor); }
      cfg := cfg.(closeFactor := bps);
      return Ok(());
    }

    method UpdateFeeConfig(now: nat, admin: Address, origination: nat, interest: nat) returns (r: Result<(), Error>)
      requires Valid()
      modifies this
      ensures Realises(Administer(old(View()), now, admin, AdminOp.UpdateFeeConfig(origination, interest)), old(View()), View(), r)
      ensures Sets(old(View()), View(), admin, !IsPaused(old(cfg), now) && origination <= 500 && interest <= 500,
        old(cfg).(originationFee := origination, interestFee := interest), r.Ok?)
      ensures Valid()
    {
      AdministerKeeps(View(), now, admin, AdminOp.UpdateFeeConfig(origination, interest));
      if IsPaused(cfg, now) { return Err(ContractPaused); }
      var e := CheckAdmin(admin);
      if e.Some? { return Err(e.value); }
      if origination > 500 || interest > 500 { return Err(InvalidFeeRate); }
      cfg := cfg.(originationFee := origination, interestFee := interest);
      return Ok(());
    }

    method AddLiquidator(now: nat, admin: Address, liquidator: Address) returns (r: Result<(), Error>)
      requires Valid()
      modifies this
      ensures Realises(Administer(old(View()), now, admin, AdminOp.AddLiquidator(liquidator)), old(View()), View(), r)
      ensures Sets(old(View()), View(), admin, liquidator in old(cfg.whitelist) || |old(cfg.whitelist)| < U32_MAX,
        old(cfg).(whitelist := old(cfg.whitelist) + {liquidator}, whitelistCount := |old(cfg.whitelist) + {liquidator}|), r.Ok?)
      ensures Valid()
    {
      AdministerKeeps(View(), now, admin, AdminOp.AddLiquidator(liquidator));
      var e := CheckAdmin(admin);
      if e.Some? { return Err(e.value); }
      if liquidator in cfg.whitelist {
        assert cfg.whitelist + {liquidator} == cfg.whitelist;
        return Ok(());
      }
      if cfg.whitelistCount >= U32_MAX { return Err(Trap); }
      cfg := cfg.(whitelist := cfg.whitelist + {liquidator}, whitelistCount := cfg.whitelistCount + 1);
      return Ok(());
    }

    method RemoveLiquidator(now: nat, admin: Address, liquidator: Address) returns (r: Result<(), Error>)
      requires Valid()
      modifies this
      ensures Realises(Administer(old(View()), now, admin, AdminOp.RemoveLiquidator(liquidator)), old(View()), View(), r)
      ensures Sets(old(View()), View(), admin, true,
        old(cfg).(whitelist := old(cfg.whitelist) - {liquidator}, whitelistCount := |old(cfg.whitelist) - {liquidator}|), r.Ok?)
      ensures Valid()
    {
      AdministerKeeps(View(), now, admin, AdminOp.RemoveLiquidator(liquidator));
      var e := CheckAdmin(admin);
      if e.Some? { return Err(e.value); }
      if liquidator !in cfg.whitelist {
        assert cfg.whitelist - {liquidator} == cfg.whitelist;
        return Ok(());
      }
      cfg := cfg.(whitelist := cfg.whitelist - {liquidator},
                  whitelistCount := SaturatingDecrement(cfg.whitelistCount));
      return Ok(());
    }

    method AddOracle(now: nat, admin: Address, oracle: Address) returns (r: Result<(), Error>)
      requires Valid()
      modifies this
      ensures Realises(Administer(old(View()), now, admin, AdminOp.AddOracle(oracle)), old(View()), View(), r)
      ensures Sets(old(View()), View(), admin,
        !IsPaused(old(cfg), now) && oracle !in OracleList(old(cfg)) && |OracleList(old(cfg))| < 5,
        old(cfg).(oracles := Some(OracleList(old(cfg)) + [oracle])), r.Ok?)
      ensures Valid()
    {
      AdministerKeeps(View(), now, admin, AdminOp.AddOracle(oracle));
      if IsPaused(cfg, now) { return Err(ContractPaused); }
      var e := CheckAdmin(admin);
      if e.Some? { return Err(e.value); }
      var oracles := OracleList(cfg);
      if oracle in oracles { return Err(OracleAlreadyRegistered); }
      if |oracles| >= 5 { return Err(OracleLimitReached); }
      cfg := cfg.(oracles := Some(oracles + [oracle]));
      return Ok(());
    }

    method RemoveOracle(now: nat, admin: Address, oracle: Address) returns (r: Result<(), Error>)
      requires Valid()
      modifies this
      ensures Realises(Administer(old(View()), now, admin, AdminOp.RemoveOracle(oracle)), old(View()), View(), r)
      ensures Sets(old(View()), View(), admin, oracle in OracleList(old(cfg)), old(cfg).(oracles := cfg.oracles), r.Ok?)
      ensures r.Ok? ==> forall o :: o in OracleList(cfg) <==> o in OracleList(old(cfg)) && o != oracle
      ensures Valid()
    {
      AdministerKeeps(View(), now, admin, AdminOp.RemoveOracle(oracle));
      var e := CheckAdmin(admin);
      if e.Some? { return Err(e.value); }
      var oracles := OracleList(cfg);
      var i := 0;
      while i < |oracles| && oracles[i] != oracle
        invariant 0 <= i <= |oracles| && oracle !in oracles[..i]
      {
        i := i + 1;
      }
      if i == |oracles| {
        assert oracles[..i] == oracles;
        return Err(OracleNotFound);
      }
      RemoveFirstAt(oracles, oracle, i);
      RemoveFirstDistinct(oracles, oracle);
      cfg := cfg.(oracles := Some(oracles[..i] + oracles[i + 1..]));
      return Ok(());
    }

    method EmergencyWithdraw(now: nat, admin: Address, recipient: Address) returns (r: Result<(), Error>)
      requires Valid()
      modifies this
      ensures Realises(LendingModel.EmergencyWithdraw(old(View()), now, admin, recipient), old(View()), View(), r)
      ensures r.Ok? <==> admin == old(cfg.admin) && admin != Contract && IsPaused(old(cfg), now)
      ensures View() == old(View()).(tokens := tokens)
      ensures r.Ok? && recipient != Contract ==>
        && Balance(tokens, Contract) == 0
        && Balance(tokens, recipient) == Balance(old(tokens), recipient) + Balance(old(tokens), Contract)
      ensures forall a :: !r.Ok? || (a != Contract && a != recipient) || recipient == Contract ==>
        Balance(tokens, a) == Balance(old(tokens), a)
      ensures Valid()
    {
      WithdrawKeeps(View(), now, admin, recipient);
      var e := CheckAdmin(admin);
      if e.Some? { return Err(e.value); }
      if !IsPaused(cfg, now) { return Err(NotPaused); }
      var balance := Balance(tokens, Contract);
      if balance > 0 {
        var ok := Pay(Contract, recipient, balance);
        if !ok { return Err(Trap); }
      }
      return Ok(());
    }

    method ProposeUpgrade(now: nat, admin: Address, wasmHash: nat) returns (r: Result<(), Error>)
      requires Valid()
      modifies this
      ensures Realises(Administer(old(View()), now, admin, AdminOp.ProposeUpgrade(wasmHash)), old(View()), View(), r)
      ensures r.Ok? <==> admin == old(cfg.admin) && admin != Contract
      ensures View() == if r.Ok? then old(View()).(upgrade := Some(Proposal(wasmHash, now))) else old(View())
      ensures Valid()
    {
      AdministerKeeps(View(), now, admin, AdminOp.ProposeUpgrade(wasmHash));
      var e := CheckAdmin(admin);
      if e.Some? { return Err(e.value); }
      upgrade := Some(Proposal(wasmHash, now));
      return Ok(());
    }

    method CancelUpgrade(now: nat, admin: Address) returns (r: Result<(), Error>)
      requires Valid()
      modifies this
      ensures Realises(Administer(old(View()), now, admin, AdminOp.CancelUpgrade), old(View()), View(), r)
      ensures r.Ok? <==> admin == old(cfg.admin) && admin != Contract && old(upgrade).Some?
      ensures View() == if r.Ok? then old(View()).(upgrade := None) else old(View())
      ensures Valid()
    {
      AdministerKeeps(View(), now, admin, AdminOp.CancelUpgrade);
      var e := CheckAdmin(admin);
      if e.Some? { return Err(e.value); }
      if upgrade.None? { return Err(NoUpgradePending); }
      upgrade := None;
      return Ok(());
    }

    /** Answers the hash that replaces the contract's code. */
    method ExecuteUpgrade(now: nat) returns (r: Result<nat, Error>)
      requires Valid()
      modifies this
      ensures Realises(LendingModel.ExecuteUpgrade(old(View()), now), old(View()), View(), r)
      ensures r.Ok? <==> old(upgrade).Some? && now >= Min(old(upgrade).value.time + 86_400, U64_MAX)
      ensures r.Ok? ==> r.value == old(upgrade).value.wasmHash
      ensures View() == if r.Ok? then old(View()).(upgrade := None) else old(View())
      ensures Valid()
    {
      ExecuteKeeps(View(), now);
      if upgrade.None? { return Err(NoUpgradePending); }
      var proposal := upgrade.value;
      if now < Min(proposal.time + UPGRADE_TIMELOCK_SECS, U64_MAX) { return Err(TimelockNotElapsed); }
      upgrade := None;
      return Ok(proposal.wasmHash);
    }
  }

  /** Deployment and `initialize` on a fresh contract, refusals included. */
  method Deploy(
    admin: Address, zero: Address, oracle: Address, treasury: Address, ltv: nat, liqThreshold: nat,
    minQuorum: nat, tokens: map<Address, nat>) returns (r: Result<StellarKraal, Error>)
    ensures match Initialize(admin, zero, oracle, treasury, ltv, liqThreshold, minQuorum, tokens)
      case Done(s, _) => r.Ok? && fresh(r.value) && r.value.View() == s && r.value.Valid()
      case Fail(e) => r == Err(e)
    ensures r.Ok? ==> IsFresh(r.value.View(), admin, oracle, treasury, ltv, liqThreshold, minQuorum, tokens)
    ensures r.Ok? <==> admin != zero && 0 < ltv <= 9000 && ltv <= liqThreshold && admin != Contract
  {
    if admin == zero { return Err(Unauthorized); }
    if ltv == 0 || ltv > 9000 { return Err(InvalidAmount); }
    if liqThreshold < ltv { return Err(InvalidAmount); }
    if admin == Contract { return Err(Trap); }
    var contract := new StellarKraal(admin, zero, oracle, treasury, ltv, liqThreshold, minQuorum, tokens);
    return Ok(contract);
  }

  lemma SmallerPart(part: set<nat>, whole: set<nat>)
    requires part <= whole
    ensures |part| <= |whole|
  {
    if part != {} {
      var x :| x in part;
      SmallerPart(part - {x}, whole - {x});
    }
  }

  /** Copy into the fixed five-cell array, exchange sort, read the middle. */
  method SortedMiddle(prices: seq<int>) returns (median: int)
    requires 0 < |prices| <= 5
    ensures median == MedianOf(INT_LE, INT_AVG, prices)
  {
    var n := |prices|;
    var arr := new int[5](_ => 0);
    for i := 0 to n
      invariant arr[..i] == prices[..i]
    {
      arr[i] := prices[i];
    }
    assert arr[..n] == prices;
    ExchangeSort(arr, n);
    if n % 2 == 1 {
      median := arr[n / 2];
    } else {
      var mid := n / 2;
      median := (arr[mid - 1] + arr[mid]) / 2;
    }
    SortedMedian(INT_LE, INT_AVG, prices, arr[..n], median);
    PriceOrders();
    MedianOfIff(INT_LE, INT_AVG, prices, median);
  }

  /** The loop that counts prices more than half the median away. */
  method CountFlagged(prices: seq<int>, median: int) returns (flagged: nat)
    ensures flagged == Count(prices, FarFrom(median))
  {
    flagged := 0;
    for i := 0 to |prices|
      invariant flagged == Count(prices[..i], FarFrom(median))
    {
      var diff := if prices[i] > median then prices[i] - median else median - prices[i];
      assert prices[..i + 1] == prices[..i] + [prices[i]];
      CountConcat(prices[..i], [prices[i]], FarFrom(median));
      if median > 0 && diff * 100 > median * 50 {
        flagged := flagged + 1;
      }
    }
    assert prices[..|prices|] == prices;
  }
}
