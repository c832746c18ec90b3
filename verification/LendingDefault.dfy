/** A deployment, and runs of it that show what the contract does with interest. */
module LendingDefault {
  import opened Outcomes
  import opened LendingModel
  import opened LendingConservation

  const ADMIN := Account(1)
  const ORACLE := Account(2)
  const TREASURY := Account(3)
  const BORROWER := Account(4)
  const LIQUIDATOR := Account(5)
  const YEAR: nat := SECONDS_PER_YEAR

  function Deployment(): Tx<()> {
    Initialize(ADMIN, Account(0), ORACLE, TREASURY, 6000, 8000, 1,
      map[Contract := 1_000_000, BORROWER := 1_000_000, LIQUIDATOR := 1_000_000])
  }

  /** One herd worth a million and a loan of 600 000 on it; the rest happens a year later. */
  const HERD_OFFERED := Event(1, Register(BORROWER, "cattle", 1, 1_000_000))
  const LOAN_TAKEN := Event(1, Borrow(BORROWER, [1], 600_000))
  const UNIT_REPAID := Event(1 + YEAR, Repay(BORROWER, 1, 1))
  const CLOSE_FACTOR_MAX := Event(1 + YEAR, Admin(ADMIN, SetCloseFactor(10_000)))
  const THRESHOLD_MIN := Event(1 + YEAR, Admin(ADMIN, SetLiquidationThreshold(1)))
  const HALF_LIQUIDATED := Event(1 + YEAR, LiquidateLoan(LIQUIDATOR, 1, 300_000))
  const ALL_LIQUIDATED := Event(1 + YEAR, LiquidateLoan(LIQUIDATOR, 1, 600_000))
  const FEES_ZERO := Event(1 + YEAR, Admin(ADMIN, UpdateFeeConfig(0, 0)))

  const HERD := Collateral(BORROWER, "cattle", 1, 1_000_000, 0, [1_000_000])
  const LOAN := Loan(1, BORROWER, [1], 1_000_000, 600_000, 600_000, 0, 1, Active)
  /** The loan after its year of interest, less the unit repaid. */
  const DUE := LOAN.(interestAccrued := 59_999, lastInterestTime := 1 + YEAR)

  function Registered(): State
    requires Deployment().Done?
  {
    Deployment().state.(collateralCount := 1, collaterals := map[1 := HERD])
  }

  /** A state with one loan on the herd. */
  ghost predicate OneLoan(s: State, l: Loan) {
    && Deployment().Done?
    && s == Registered().(cfg := s.cfg, loanCount := 1, loans := map[1 := l], tokens := s.tokens,
                          collaterals := map[1 := HERD.(loanId := 1)])
    && Balance(s.tokens, LIQUIDATOR) == 1_000_000
  }

  lemma HerdRegisters()
    ensures Deployment().Done?
    ensures Step(Deployment().state, HERD_OFFERED) == Registered()
  {
  }

  lemma LoanIsGranted()
    requires Deployment().Done?
    ensures var s := Step(Registered(), LOAN_TAKEN); Granted(s, LOAN, Registered().cfg)
  {
    var s := Registered();
    assert EffectiveValue(s.cfg, s.twap, HERD) == 1_000_000;
    assert [1 as nat][1..] == [];
    assert Appraise(s, BORROWER, [1], 0) == Appraise(s, BORROWER, [], 1_000_000) == Ok(1_000_000);
    assert Link(s.collaterals, [1], 1) == map[1 := HERD.(loanId := 1)];
  }

  /** The loan l on the herd, under the configuration c, with a borrower and a pool that can pay a unit. */
  ghost predicate Granted(s: State, l: Loan, c: Config) {
    OneLoan(s, l) && s.cfg == c && Balance(s.tokens, BORROWER) >= 1 && Balance(s.tokens, Contract) >= 1
  }

  lemma HerdCounts(s: State)
    requires s.collaterals == map[1 := HERD.(loanId := 1)] && s.twap.price <= 0 && s.twap.lastPrice <= 0
    ensures CurrentValue(s, [1], 0) == Ok(1_000_000)
  {
    assert EffectiveValue(s.cfg, s.twap, HERD.(loanId := 1)) == 1_000_000;
    assert [1 as nat][1..] == [];
    assert CurrentValue(s, [1], 0) == CurrentValue(s, [], 1_000_000);
  }

  /** A year at ten percent on 600 000 and on half of it, and a year at no fee. */
  lemma YearOfInterest()
    ensures InterestDue(LOAN, 0, 1 + YEAR) == 0
    ensures InterestDue(LOAN, 1000, 1 + YEAR) == 60_000
    ensures InterestDue(LOAN.(outstanding := 300_000), 1000, 1 + YEAR) == 30_000
  {
    assert Accrual(600_000, 1000, YEAR) == 60_000;
    assert Accrual(300_000, 1000, YEAR) == 30_000;
    assert Accrual(600_000, 0, YEAR) == 0;
  }

  // ---- Runs of the deployment -------------------------------------------------------------------

  /** The state after the first n of the given events. */
  ghost function After(es: seq<Event>, n: nat): State
    requires n <= |es|
  {
    HerdRegisters();
    Run(Deployment().state, es[..n])
  }

  lemma NextEvent(es: seq<Event>, n: nat)
    requires n < |es|
    ensures After(es, n + 1) == Step(After(es, n), es[n])
  {
    HerdRegisters();
    assert es[..n + 1][..n] == es[..n];
  }

  lemma WholeRun(es: seq<Event>)
    ensures Deployment().Done? && Run(Deployment().state, es) == After(es, |es|)
  {
    HerdRegisters();
    assert es[..|es|] == es;
  }

  lemma AfterRegistration(es: seq<Event>)
    requires es != [] && es[0] == HERD_OFFERED
    ensures Deployment().Done? && After(es, 1) == Registered()
  {
    HerdRegisters();
    NextEvent(es, 0);
    assert es[..0] == [];
  }

  lemma AfterGrant(es: seq<Event>)
    requires |es| >= 2 && es[0] == HERD_OFFERED && es[1] == LOAN_TAKEN
    ensures Deployment().Done? && Granted(After(es, 2), LOAN, Registered().cfg)
  {
    AfterRegistration(es);
    NextEvent(es, 1);
    LoanIsGranted();
  }

  // ---- Interest left on a liquidated loan --------------------------------------------------------

  lemma InterestStaysRecorded(s: State)
    requires Deployment().Done? && Granted(s, LOAN, Registered().cfg)
    ensures OneLoan(Step(s, UNIT_REPAID), DUE) && Step(s, UNIT_REPAID).cfg == s.cfg
  {
    assert Accrual(600_000, 1000, YEAR) == 60_000;
    assert Accrue(LOAN, 1000, 1 + YEAR) == LOAN.(interestAccrued := 60_000, lastInterestTime := 1 + YEAR);
  }

  lemma SettingsMove(s: State)
    requires OneLoan(s, DUE) && s.cfg == Registered().cfg
    ensures var s' := Step(Step(s, CLOSE_FACTOR_MAX), THRESHOLD_MIN);
      OneLoan(s', DUE) && s'.cfg == s.cfg.(closeFactor := 10_000, liqThreshold := 1)
  {
  }

  lemma PrincipalIsLiquidated(s: State)
    requires OneLoan(s, DUE) && s.cfg == Registered().cfg.(closeFactor := 10_000, liqThreshold := 1)
    ensures var s' := Step(s, ALL_LIQUIDATED);
      1 in s'.loans && s'.loans[1] == DUE.(outstanding := 0, status := Liquidated) && HealthFactor(s', s'.loans[1]) == Err(Trap)
  {
    var s' := Step(s, ALL_LIQUIDATED);
    HerdCounts(s);
    assert HealthFactor(s, DUE) == Ok(1);
    HerdCounts(s');
  }

  function UnpaidInterest(): seq<Event> {
    [HERD_OFFERED, LOAN_TAKEN, UNIT_REPAID, CLOSE_FACTOR_MAX, THRESHOLD_MIN, ALL_LIQUIDATED]
  }

  /** A run of a fresh contract reaches a loan whose health factor divides by zero. */
  lemma UnpaidInterestReachable()
    ensures Deployment().Done?
    ensures var s := Run(Deployment().state, UnpaidInterest());
      && 1 in s.loans && s.loans[1].status == Liquidated && s.loans[1].interestAccrued == 59_999
      && HealthFactor(s, s.loans[1]) == Err(Trap)
  {
    var es := UnpaidInterest();
    UnpaidInterestUpTo5();
    NextEvent(es, 5);
    PrincipalIsLiquidated(After(es, 5));
    WholeRun(es);
  }

  lemma UnpaidInterestUpTo5()
    ensures var s := After(UnpaidInterest(), 5);
      OneLoan(s, DUE) && s.cfg == Registered().cfg.(closeFactor := 10_000, liqThreshold := 1)
  {
    var es := UnpaidInterest();
    AfterGrant(es);
    NextEvent(es, 2);
    InterestStaysRecorded(After(es, 2));
    NextEvent(es, 3);
    NextEvent(es, 4);
    SettingsMove(After(es, 3));
  }

  // ---- Interest that a liquidation takes with it ---------------------------------------------------

  lemma ThresholdMoves(s: State)
    requires Deployment().Done? && Granted(s, LOAN, Registered().cfg)
    ensures Granted(Step(s, THRESHOLD_MIN), LOAN, s.cfg.(liqThreshold := 1))
  {
  }

  lemma HalfIsLiquidated(s: State)
    requires Deployment().Done? && Granted(s, LOAN, Registered().cfg.(liqThreshold := 1))
    ensures var s' := Step(s, HALF_LIQUIDATED);
      && 1 in s'.loans && s'.loans[1] == LOAN.(outstanding := 300_000) && s'.cfg == s.cfg
      && Balance(s'.tokens, BORROWER) >= 1 && Balance(s'.tokens, Contract) >= 1
  {
    HerdCounts(s);
    assert HealthFactor(s, LOAN) == Ok(1);
  }

  lemma UnitOnHalf(s: State)
    requires Deployment().Done? && s.cfg == Registered().cfg.(liqThreshold := 1)
    requires 1 in s.loans && s.loans[1] == LOAN.(outstanding := 300_000)
    requires Balance(s.tokens, BORROWER) >= 1 && Balance(s.tokens, Contract) >= 1
    ensures var s' := Step(s, UNIT_REPAID);
      1 in s'.loans && s'.loans[1].outstanding == 300_000 && s'.loans[1].interestAccrued == 29_999
  {
    var l := LOAN.(outstanding := 300_000);
    assert Accrual(300_000, 1000, YEAR) == 30_000;
    assert Accrue(l, 1000, 1 + YEAR) == l.(interestAccrued := 30_000, lastInterestTime := 1 + YEAR);
  }

  function ForgivenInterest(): seq<Event> {
    [HERD_OFFERED, LOAN_TAKEN, THRESHOLD_MIN, HALF_LIQUIDATED, UNIT_REPAID]
  }

  /** After a year 60 000 are due; once half the principal is liquidated in that second only 30 000 are,
      and the repayment of one unit in the same second leaves 29 999. */
  lemma LiquidationForgivesInterest()
    ensures var es := ForgivenInterest();
      && 1 in After(es, 3).loans && InterestDue(After(es, 3).loans[1], After(es, 3).cfg.interestFee, 1 + YEAR) == 60_000
      && 1 in After(es, 4).loans && InterestDue(After(es, 4).loans[1], After(es, 4).cfg.interestFee, 1 + YEAR) == 30_000
      && 1 in After(es, 5).loans && After(es, 5).loans[1].interestAccrued == 29_999 && After(es, 5).loans[1].outstanding == 300_000
  {
    var es := ForgivenInterest();
    AfterGrant(es);
    NextEvent(es, 2);
    ThresholdMoves(After(es, 2));
    NextEvent(es, 3);
    HalfIsLiquidated(After(es, 3));
    NextEvent(es, 4);
    UnitOnHalf(After(es, 4));
    YearOfInterest();
  }

  // ---- Interest that a new fee rewrites ---------------------------------------------------------------

  lemma FeesDrop(s: State)
    requires Deployment().Done? && Granted(s, LOAN, Registered().cfg)
    ensures Granted(Step(s, FEES_ZERO), LOAN, s.cfg.(originationFee := 0, interestFee := 0))
  {
  }

  lemma UnitWithoutFee(s: State)
    requires Deployment().Done? && Granted(s, LOAN, Registered().cfg.(originationFee := 0, interestFee := 0))
    ensures var s' := Step(s, UNIT_REPAID);
      1 in s'.loans && s'.loans[1].outstanding == 599_999 && s'.loans[1].interestAccrued == 0
  {
    assert Accrual(600_000, 0, YEAR) == 0;
  }

  function ErasedInterest(): seq<Event> {
    [HERD_OFFERED, LOAN_TAKEN, FEES_ZERO, UNIT_REPAID]
  }

  /** After a year 60 000 are due; setting the fees to 0 in that second leaves nothing due, and the next
      repayment goes to the principal. */
  lemma FeeChangeErasesInterest()
    ensures var es := ErasedInterest();
      && 1 in After(es, 2).loans && InterestDue(After(es, 2).loans[1], After(es, 2).cfg.interestFee, 1 + YEAR) == 60_000
      && 1 in After(es, 3).loans && InterestDue(After(es, 3).loans[1], After(es, 3).cfg.interestFee, 1 + YEAR) == 0
      && 1 in After(es, 4).loans && After(es, 4).loans[1].interestAccrued == 0 && After(es, 4).loans[1].outstanding == 599_999
  {
    var es := ErasedInterest();
    AfterGrant(es);
    NextEvent(es, 2);
    FeesDrop(After(es, 2));
    NextEvent(es, 3);
    UnitWithoutFee(After(es, 3));
    YearOfInterest();
  }
}
