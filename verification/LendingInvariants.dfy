/** What every entry point keeps, and so what holds in every reachable state. */
module LendingInvariants {
  import opened Outcomes
  import opened Registries
  import opened LendingModel

  ghost predicate ConfigOk(c: Config) {
    && c.admin != Contract
    && 0 < c.ltv <= 9000 && 0 < c.liqThreshold && 0 < c.closeFactor <= 10_000
    && c.originationFee <= 500 && c.interestFee <= 1000
    && c.deviationBps == 2000 && c.priceMin == 0 && c.priceMax == 0
    && c.whitelistCount == |c.whitelist|
    && Distinct(OracleList(c)) && |OracleList(c)| <= MAX_ORACLES
  }

  /** Status and debt of a loan agree, and the debt stays inside the origination terms. */
  ghost predicate LoanOk(l: Loan) {
    && l.borrower != Contract && l.collateralIds != []
    && 0 <= l.outstanding <= l.principal && 0 <= l.interestAccrued
    && 10_000 * l.principal <= 9000 * l.totalCollateralValue
    && (l.status == Active <==> l.outstanding > 0)
    && (l.status == Repaid ==> l.interestAccrued == 0)
  }

  ghost predicate CollateralOk(c: Collateral) {
    && c.owner != Contract && c.count > 0 && c.appraisedValue > 0
    && 1 <= |c.history| <= 3 && c.history[|c.history| - 1] == c.appraisedValue
  }

  ghost predicate LoansOk(s: State) {
    && (forall i :: i in s.loans <==> 1 <= i <= s.loanCount)
    && (forall i :: i in s.loans ==> s.loans[i].id == i && LoanOk(s.loans[i]))
  }

  ghost predicate CollateralsOk(s: State) {
    && (forall c :: c in s.collaterals <==> 1 <= c <= s.collateralCount)
    && (forall c :: c in s.collaterals ==> CollateralOk(s.collaterals[c]))
  }

  /** A listed collateral exists, belongs to the borrower and points to no earlier loan. */
  ghost predicate ListedOk(s: State, i: nat, c: nat)
    requires i in s.loans
  {
    c in s.collaterals && s.collaterals[c].owner == s.loans[i].borrower && i <= s.collaterals[c].loanId
  }

  /** A collateral's link is 0 or a loan that lists it. */
  ghost predicate LinkOk(s: State, c: nat)
    requires c in s.collaterals
  {
    var i := s.collaterals[c].loanId;
    i > 0 ==> i in s.loans && c in s.loans[i].collateralIds
  }

  ghost predicate LinksOk(s: State) {
    && (forall i, c :: i in s.loans && c in s.loans[i].collateralIds ==> ListedOk(s, i, c))
    && (forall c :: c in s.collaterals ==> LinkOk(s, c))
  }

  ghost predicate Inv(s: State) {
    ConfigOk(s.cfg) && LoansOk(s) && CollateralsOk(s) && LinksOk(s)
  }

  // ---- Every entry point keeps the invariant -----------------------------------------------

  lemma InitializeEstablishes(
    admin: Address, zero: Address, oracle: Address, treasury: Address, ltv: nat, liqThreshold: nat, minQuorum: nat,
    tokens: map<Address, nat>)
    requires Initialize(admin, zero, oracle, treasury, ltv, liqThreshold, minQuorum, tokens).Done?
    ensures Inv(Initialize(admin, zero, oracle, treasury, ltv, liqThreshold, minQuorum, tokens).state)
    ensures IsFresh(Initialize(admin, zero, oracle, treasury, ltv, liqThreshold, minQuorum, tokens).state,
              admin, oracle, treasury, ltv, liqThreshold, minQuorum, tokens)
    ensures OracleList(Initialize(admin, zero, oracle, treasury, ltv, liqThreshold, minQuorum, tokens).state.cfg) == [oracle]
  {
  }

  /** A new collateral that no loan lists yet. */
  lemma RegisteringKeepsLinks(s: State, s': State, id: nat)
    requires Inv(s) && id !in s.collaterals && id in s'.collaterals && s'.collaterals[id].loanId == 0
    requires s'.loans == s.loans && s'.collaterals == s.collaterals[id := s'.collaterals[id]]
    ensures LinksOk(s')
  {
    forall i, c | i in s'.loans && c in s'.loans[i].collateralIds ensures ListedOk(s', i, c) {
      assert ListedOk(s, i, c);
    }
    forall c | c in s'.collaterals ensures LinkOk(s', c) {
      assert c in s.collaterals ==> LinkOk(s, c);
    }
  }

  lemma RegisterKeeps(s: State, now: nat, owner: Address, animalType: string, count: nat, value: int)
    requires Inv(s)
    ensures Inv(Settle(s, RegisterLivestock(s, now, owner, animalType, count, value)))
  {
    var tx := RegisterLivestock(s, now, owner, animalType, count, value);
    if tx.Done? {
      var s', id := tx.state, s.collateralCount + 1;
      assert s'.collaterals == s.collaterals[id := Collateral(owner, animalType, count, value, 0, [value])];
      RegisteringKeepsLinks(s, s', id);
      assert CollateralsOk(s');
    }
  }

  lemma {:induction false} AppraisedAreOwned(s: State, borrower: Address, ids: seq<nat>, acc: int)
    requires Appraise(s, borrower, ids, acc).Ok?
    ensures forall c :: c in ids ==> c in s.collaterals && s.collaterals[c].owner == borrower
    ensures ids != [] ==> Fits(Appraise(s, borrower, ids, acc).value)
  {
    if ids != [] {
      var total := acc + EffectiveValue(s.cfg, s.twap, s.collaterals[ids[0]]);
      AppraisedAreOwned(s, borrower, ids[1..], total);
    }
  }

  lemma PrincipalWithinTerms(total: int, ltv: nat, amount: int)
    requires amount <= total * ltv / 10_000 && 0 < amount && ltv <= 9000
    ensures 10_000 * amount <= total * ltv
    ensures 10_000 * amount <= 9000 * total
  {
    assert 10_000 * (total * ltv / 10_000) <= total * ltv;
    if total < 0 {
      SignOfProduct(total, ltv);
    } else {
      assert total * ltv <= total * 9000;
    }
  }

  lemma SignOfProduct(x: int, y: nat)
    requires x < 0
    ensures x * y <= 0
  {
  }

  /** A new loan over owned collaterals, with their links redirected to it. */
  lemma OpeningKeepsLinks(s: State, s': State, l: Loan)
    requires Inv(s) && l.id == s.loanCount + 1
    requires s'.loanCount == l.id && s'.loans == s.loans[l.id := l]
    requires s'.collaterals == Link(s.collaterals, l.collateralIds, l.id)
    requires forall c :: c in l.collateralIds ==> c in s.collaterals && s.collaterals[c].owner == l.borrower
    ensures LinksOk(s')
  {
    forall i, c | i in s'.loans && c in s'.loans[i].collateralIds ensures ListedOk(s', i, c) {
      if i != l.id { assert ListedOk(s, i, c); }
    }
    forall c | c in s'.collaterals ensures LinkOk(s', c) {
      assert LinkOk(s, c);
    }
  }

  lemma OpeningKeepsLoans(s: State, s': State, l: Loan)
    requires LoansOk(s) && LoanOk(l) && l.id == s.loanCount + 1
    requires s'.loanCount == l.id && s'.loans == s.loans[l.id := l]
    ensures LoansOk(s')
  {
  }

  lemma LinkingKeepsCollaterals(s: State, s': State, ids: seq<nat>, loanId: nat)
    requires CollateralsOk(s) && s'.collateralCount == s.collateralCount && s'.collaterals == Link(s.collaterals, ids, loanId)
    ensures CollateralsOk(s')
  {
    forall c | c in s'.collaterals ensures CollateralOk(s'.collaterals[c]) {
      assert CollateralOk(s.collaterals[c]);
    }
  }

  lemma BorrowKeeps(s: State, now: nat, borrower: Address, ids: seq<nat>, amount: int)
    requires Inv(s)
    ensures Inv(Settle(s, RequestLoan(s, now, borrower, ids, amount)))
  {
    var tx := RequestLoan(s, now, borrower, ids, amount);
    if tx.Done? {
      var total := Appraise(s, borrower, ids, 0).value;
      AppraisedAreOwned(s, borrower, ids, 0);
      PrincipalWithinTerms(total, s.cfg.ltv, amount);
      var s', id := tx.state, s.loanCount + 1;
      OpeningKeepsLoans(s, s', s'.loans[id]);
      OpeningKeepsLinks(s, s', s'.loans[id]);
      LinkingKeepsCollaterals(s, s', ids, id);
    }
  }

  /** The same loans over the same collaterals, with the same owners and links. */
  ghost predicate SameLinks(s: State, s': State) {
    && s'.loans.Keys == s.loans.Keys && s'.collaterals.Keys == s.collaterals.Keys
    && (forall i :: i in s.loans ==>
          s'.loans[i].borrower == s.loans[i].borrower && s'.loans[i].collateralIds == s.loans[i].collateralIds)
    && (forall c :: c in s.collaterals ==>
          s'.collaterals[c].owner == s.collaterals[c].owner && s'.collaterals[c].loanId == s.collaterals[c].loanId)
  }

  lemma LinksFrame(s: State, s': State)
    requires LinksOk(s) && SameLinks(s, s')
    ensures LinksOk(s')
  {
    forall i, c | i in s'.loans && c in s'.loans[i].collateralIds ensures ListedOk(s', i, c) {
      assert ListedOk(s, i, c);
    }
    forall c | c in s'.collaterals ensures LinkOk(s', c) {
      assert LinkOk(s, c);
    }
  }

  /** Replacing one loan record by a consistent one with the same terms keeps the invariant. */
  lemma UpdateLoanKeeps(s: State, s': State, id: nat, l: Loan)
    requires Inv(s) && id in s.loans && LoanOk(l)
    requires l.id == id && l.borrower == s.loans[id].borrower && l.collateralIds == s.loans[id].collateralIds
    requires s' == s.(loans := s.loans[id := l], tokens := s'.tokens)
    ensures Inv(s')
  {
    LinksFrame(s, s');
  }

  lemma AccrualNonNegative(outstanding: int, feeBps: nat, elapsed: nat)
    requires outstanding >= 0
    ensures Accrual(outstanding, feeBps, elapsed) >= 0
  {
    assert outstanding * feeBps >= 0;
    assert Saturate(outstanding * feeBps) * elapsed >= 0;
  }

  lemma AccrueKeeps(l: Loan, feeBps: nat, now: nat)
    requires LoanOk(l) && l.status == Active
    ensures LoanOk(Accrue(l, feeBps, now))
    ensures Accrue(l, feeBps, now) == l.(interestAccrued := Accrue(l, feeBps, now).interestAccrued, lastInterestTime := now)
  {
    AccrualNonNegative(l.outstanding, feeBps, Elapsed(l.lastInterestTime, now));
  }

  lemma RepayKeeps(s: State, now: nat, borrower: Address, id: nat, amount: int)
    requires Inv(s)
    ensures Inv(Settle(s, RepayLoan(s, now, borrower, id, amount)))
  {
    var tx := RepayLoan(s, now, borrower, id, amount);
    if tx.Done? {
      AccrueKeeps(s.loans[id], s.cfg.interestFee, now);
      UpdateLoanKeeps(s, tx.state, id, tx.state.loans[id]);
    }
  }

  lemma LiquidateKeeps(s: State, now: nat, liquidator: Address, id: nat, repay: int)
    requires Inv(s)
    ensures Inv(Settle(s, Liquidate(s, now, liquidator, id, repay)))
  {
    var tx := Liquidate(s, now, liquidator, id, repay);
    if tx.Done? {
      CloseFactorCaps(s.loans[id].outstanding, s.cfg.closeFactor, repay);
      UpdateLoanKeeps(s, tx.state, id, tx.state.loans[id]);
    }
  }

  lemma CloseFactorCaps(outstanding: int, closeFactor: nat, repay: int)
    requires 0 <= outstanding && closeFactor <= 10_000 && repay <= outstanding * closeFactor / 10_000
    ensures repay <= outstanding
    ensures 10_000 * repay <= outstanding * closeFactor
  {
    assert outstanding * closeFactor <= outstanding * 10_000;
  }

  /** Replacing one collateral record by a consistent one with the same owner and link. */
  lemma UpdateCollateralKeeps(s: State, s': State, id: nat, col: Collateral)
    requires Inv(s) && id in s.collaterals && CollateralOk(col)
    requires col.owner == s.collaterals[id].owner && col.loanId == s.collaterals[id].loanId
    requires s' == s.(collaterals := s.collaterals[id := col])
    ensures Inv(s')
  {
    LinksFrame(s, s');
  }

  lemma ReappraiseKeeps(s: State, now: nat, owner: Address, id: nat, value: int)
    requires Inv(s)
    ensures Inv(Settle(s, UpdateAppraisal(s, now, owner, id, value)))
  {
    var tx := UpdateAppraisal(s, now, owner, id, value);
    if tx.Done? {
      assert CollateralOk(s.collaterals[id]);
      UpdateCollateralKeeps(s, tx.state, id, tx.state.collaterals[id]);
    }
  }

  lemma RegistryKeeps(c: Config, now: nat, op: AdminOp)
    requires ConfigOk(c) && (op.AddOracle? || op.RemoveOracle?) && Reconfigure(c, now, op).Ok?
    ensures ConfigOk(Reconfigure(c, now, op).value)
  {
    if op.RemoveOracle? { RemoveFirstDistinct(OracleList(c), op.oracle); }
  }

  lemma WhitelistKeeps(c: Config, now: nat, op: AdminOp)
    requires ConfigOk(c) && (op.AddLiquidator? || op.RemoveLiquidator?) && Reconfigure(c, now, op).Ok?
    ensures ConfigOk(Reconfigure(c, now, op).value)
  {
    assert OracleList(Reconfigure(c, now, op).value) == OracleList(c);
  }

  lemma ReconfigureKeeps(c: Config, now: nat, op: AdminOp)
    requires ConfigOk(c) && !op.ProposeUpgrade? && !op.CancelUpgrade? && Reconfigure(c, now, op).Ok?
    ensures ConfigOk(Reconfigure(c, now, op).value)
  {
    if op.AddOracle? || op.RemoveOracle? {
      RegistryKeeps(c, now, op);
    } else if op.AddLiquidator? || op.RemoveLiquidator? {
      WhitelistKeeps(c, now, op);
    } else {
      var os, os' := OracleList(c), OracleList(Reconfigure(c, now, op).value);
      assert os' == os || (op.UpdateOracle? && os' == [op.oracle]);
    }
  }

  /** Changes to configuration, prices, tokens and the upgrade slot leave the records consistent. */
  lemma RecordsUntouched(s: State, s': State)
    requires Inv(s) && ConfigOk(s'.cfg)
    requires s'.loans == s.loans && s'.collaterals == s.collaterals
    requires s'.loanCount == s.loanCount && s'.collateralCount == s.collateralCount
    ensures Inv(s')
  {
    LinksFrame(s, s');
  }

  lemma AdministerKeeps(s: State, now: nat, caller: Address, op: AdminOp)
    requires Inv(s)
    ensures Inv(Settle(s, Administer(s, now, caller, op)))
  {
    if !op.ProposeUpgrade? && !op.CancelUpgrade? && Reconfigure(s.cfg, now, op).Ok? {
      ReconfigureKeeps(s.cfg, now, op);
    }
    RecordsUntouched(s, Settle(s, Administer(s, now, caller, op)));
  }

  /** The actions that touch no loan and no collateral. */
  ghost predicate RecordFree(a: Action) {
    a.PostPrice? || a.PostOraclePrices? || a.AcceptAdmin? || a.Withdraw? || a.Execute? || a.Outside?
  }

  lemma OtherStepKeeps(s: State, e: Event)
    requires Inv(s) && RecordFree(e.action)
    ensures Inv(Step(s, e))
  {
    if e.action.AcceptAdmin? {
      AcceptKeeps(s, e.action.who);
    } else {
      StepFrame(s, e);
      RecordsUntouched(s, Step(s, e));
    }
  }

  lemma AcceptKeeps(s: State, who: Address)
    requires Inv(s)
    ensures Inv(Settle(s, AcceptAdminRole(s, who)))
  {
    RecordsUntouched(s, Settle(s, AcceptAdminRole(s, who)));
  }

  lemma WithdrawKeeps(s: State, now: nat, caller: Address, recipient: Address)
    requires Inv(s)
    ensures Inv(Settle(s, EmergencyWithdraw(s, now, caller, recipient)))
  {
    RecordsUntouched(s, Settle(s, EmergencyWithdraw(s, now, caller, recipient)));
  }

  lemma ExecuteKeeps(s: State, now: nat)
    requires Inv(s)
    ensures Inv(Settle(s, ExecuteUpgrade(s, now)))
  {
    RecordsUntouched(s, Settle(s, ExecuteUpgrade(s, now)));
  }

  lemma StepKeeps(s: State, e: Event)
    requires Inv(s)
    ensures Inv(Step(s, e))
  {
    match e.action
    case Register(owner, a, n, v) => RegisterKeeps(s, e.now, owner, a, n, v);
    case Borrow(b, ids, amount) => BorrowKeeps(s, e.now, b, ids, amount);
    case Repay(b, id, amount) => RepayKeeps(s, e.now, b, id, amount);
    case LiquidateLoan(l, id, amount) => LiquidateKeeps(s, e.now, l, id, amount);
    case Reappraise(o, id, v) => ReappraiseKeeps(s, e.now, o, id, v);
    case Admin(caller, op) => AdministerKeeps(s, e.now, caller, op);
    case _ => OtherStepKeeps(s, e);
  }

  /** Every run from a consistent state stays consistent. */
  lemma {:induction false} RunKeeps(s: State, es: seq<Event>)
    requires Inv(s)
    ensures Inv(Run(s, es))
  {
    if es != [] {
      RunKeeps(s, es[..|es| - 1]);
      StepKeeps(Run(s, es[..|es| - 1]), es[|es| - 1]);
    }
  }

  // ---- What each action may touch ---------------------------------------------------------

  ghost predicate TouchesLoans(a: Action) {
    a.Borrow? || a.Repay? || a.LiquidateLoan?
  }

  ghost predicate TouchesTokens(a: Action) {
    TouchesLoans(a) || a.Withdraw? || a.Outside?
  }

  lemma StepFrame(s: State, e: Event)
    ensures !TouchesLoans(e.action) ==> Step(s, e).loans == s.loans && Step(s, e).loanCount == s.loanCount
    ensures !TouchesTokens(e.action) ==> Step(s, e).tokens == s.tokens
    ensures !e.action.PostPrice? && !e.action.PostOraclePrices? ==> Step(s, e).twap == s.twap
    ensures !e.action.Admin? && !e.action.AcceptAdmin? ==> Step(s, e).cfg == s.cfg
    ensures !e.action.Admin? && !e.action.Execute? ==> Step(s, e).upgrade == s.upgrade
  {
    match e.action
    case Admin(caller, op) => AdministerFrame(s, e.now, caller, op);
    case _ =>
  }

  lemma AdministerFrame(s: State, now: nat, caller: Address, op: AdminOp)
    ensures var s' := Settle(s, Administer(s, now, caller, op)); s' == s.(cfg := s'.cfg, upgrade := s'.upgrade)
  {
  }

  /** Configuration changes only at the hand of the present admin, or when the account that an admin
      proposed takes over, which changes nothing but the role. */
  lemma OnlyAdminReconfigures(s: State, e: Event)
    requires Step(s, e).cfg != s.cfg
    ensures (e.action.Admin? && e.action.caller == s.cfg.admin && Step(s, e).cfg.admin == s.cfg.admin)
      || (s.cfg.pendingAdmin.Some? && e.action == AcceptAdmin(s.cfg.pendingAdmin.value)
          && Step(s, e).cfg == s.cfg.(admin := s.cfg.pendingAdmin.value, pendingAdmin := None))
  {
    match e.action
    case Admin(caller, op) => AdministerKeepsAdmin(s, e.now, caller, op);
    case AcceptAdmin(_) =>
    case _ => StepFrame(s, e);
  }

  lemma AdministerKeepsAdmin(s: State, now: nat, caller: Address, op: AdminOp)
    ensures Settle(s, Administer(s, now, caller, op)).cfg.admin == s.cfg.admin
    ensures caller != s.cfg.admin ==> Administer(s, now, caller, op).Fail?
  {
  }

  /** How the list of oracles changes: by the two list operations, and by a new single oracle as long as
      neither has ever succeeded. */
  lemma OracleListSteps(s: State, now: nat, caller: Address, op: AdminOp)
    requires Inv(s) && Administer(s, now, caller, op).Done?
    ensures var before, after := OracleList(s.cfg), OracleList(Administer(s, now, caller, op).state.cfg);
      && (op.AddOracle? ==> after == before + [op.oracle])
      && (op.RemoveOracle? ==> |after| == |before| - 1 && forall o :: o in after <==> o in before && o != op.oracle)
      && (op.UpdateOracle? ==> after == if s.cfg.oracles.None? then [op.oracle] else before)
      && (!op.AddOracle? && !op.RemoveOracle? && !op.UpdateOracle? ==> after == before)
  {
    if op.RemoveOracle? {
      var os := OracleList(s.cfg);
      RemoveFirstDistinct(os, op.oracle);
      var k :| 0 <= k < |os| && os[k] == op.oracle;
      assert op.oracle !in os[..k];
      RemoveFirstAt(os, op.oracle, k);
    }
  }

  /** What the steps that only set something leave behind. */
  lemma StepEffects(s: State, e: Event)
    ensures e.action.AcceptAdmin? && s.cfg.pendingAdmin == Some(e.action.who) && e.action.who != Contract ==>
      Step(s, e).cfg.admin == e.action.who && Step(s, e).cfg.pendingAdmin.None?
    ensures e.action.Execute? && ExecuteUpgrade(s, e.now).Done? ==> Step(s, e).upgrade.None?
    ensures e.action.Reappraise? && UpdateAppraisal(s, e.now, e.action.owner, e.action.collateralId, e.action.value).Done? ==>
      var c := e.action.collateralId;
      c in s.collaterals && c in Step(s, e).collaterals
      && Step(s, e).collaterals[c].appraisedValue == e.action.value
      && Step(s, e).collaterals == s.collaterals[c := Step(s, e).collaterals[c]]
  {
  }

  // ---- What no run changes ------------------------------------------------------------------

  /** The terms of a loan are fixed, its debt principal never grows, and a closed loan is frozen. */
  ghost predicate LoanEvolves(before: Loan, after: Loan) {
    && after == before.(outstanding := after.outstanding, interestAccrued := after.interestAccrued,
                        lastInterestTime := after.lastInterestTime, status := after.status)
    && after.outstanding <= before.outstanding
    && (before.status != Active ==> after == before)
  }

  lemma RepayEvolves(s: State, now: nat, borrower: Address, loanId: nat, amount: int, id: nat)
    requires Inv(s) && id in s.loans
    ensures var s' := Settle(s, RepayLoan(s, now, borrower, loanId, amount));
      id in s'.loans && LoanEvolves(s.loans[id], s'.loans[id])
  {
    if loanId in s.loans && s.loans[loanId].status == Active {
      AccrueKeeps(s.loans[loanId], s.cfg.interestFee, now);
    }
  }

  lemma StepEvolves(s: State, e: Event, id: nat)
    requires Inv(s) && id in s.loans
    ensures id in Step(s, e).loans && LoanEvolves(s.loans[id], Step(s, e).loans[id])
  {
    match e.action
    case Repay(b, loanId, amount) => RepayEvolves(s, e.now, b, loanId, amount, id);
    case LiquidateLoan(l, loanId, repay) => LiquidateEvolves(s, e.now, l, loanId, repay, id);
    case Borrow(_, _, _) =>
    case _ => StepFrame(s, e);
  }

  lemma LiquidateEvolves(s: State, now: nat, liquidator: Address, loanId: nat, repay: int, id: nat)
    requires Inv(s) && id in s.loans
    ensures var s' := Settle(s, Liquidate(s, now, liquidator, loanId, repay));
      id in s'.loans && LoanEvolves(s.loans[id], s'.loans[id])
  {
  }

  lemma {:induction false} RunEvolves(s: State, es: seq<Event>, id: nat)
    requires Inv(s) && id in s.loans
    ensures id in Run(s, es).loans && LoanEvolves(s.loans[id], Run(s, es).loans[id])
  {
    if es != [] {
      RunKeeps(s, es[..|es| - 1]);
      RunEvolves(s, es[..|es| - 1], id);
      StepEvolves(Run(s, es[..|es| - 1]), es[|es| - 1], id);
    }
  }
}
