/** The StellarKraal lending contract as a transition system: storage, one transaction function per
    entry point, and runs. A transaction either commits a new state or fails and leaves the state
    alone, as the host rolls back every failed invocation. */
module LendingModel {
  import opened Outcomes
  import opened Registries
  import opened OrderStatistics

  /** Contract is the lending contract's own address. */
  datatype Address = Contract | Account(id: nat)

  /** The contract's error codes, and Trap for a host trap: failed authorisation, failed transfer,
      unchecked overflow, division by zero. */
  datatype Error =
    | Unauthorized | InsufficientCollateral | LoanNotFound | CollateralNotFound | HealthFactorSafe
    | InvalidAmount | LoanAlreadyClosed | InvalidFeeRate | ExceedsCloseFactor | InvalidCloseFactor
    | ContractPaused | OracleAlreadyRegistered | OracleLimitReached | OracleNotFound
    | InsufficientOracleQuorum | InvalidPrice | NotPaused | AlreadyPaused | ArithmeticOverflow
    | LiquidatorNotWhitelisted | NoUpgradePending | TimelockNotElapsed | Trap

  datatype LoanStatus = Active | Repaid | Liquidated

  datatype Collateral = Collateral(
    owner: Address, animalType: string, count: nat, appraisedValue: int, loanId: nat, history: seq<int>)

  datatype Loan = Loan(
    id: nat, borrower: Address, collateralIds: seq<nat>, totalCollateralValue: int, principal: int,
    outstanding: int, interestAccrued: int, lastInterestTime: nat, status: LoanStatus)

  /** Instance storage other than counters and price data. */
  datatype Config = Config(
    admin: Address, pendingAdmin: Option<Address>, oracle: Address, oracles: Option<seq<Address>>,
    treasury: Address, ltv: nat, liqThreshold: nat, minQuorum: nat, originationFee: nat, interestFee: nat,
    closeFactor: nat, paused: bool, pauseExpiry: nat, pauseDuration: nat, deviationBps: nat,
    priceMin: int, priceMax: int, animalCaps: map<string, int>, whitelist: set<Address>, whitelistCount: nat)

  datatype Twap = Twap(lastPrice: int, lastTime: nat, sum: int, count: nat, price: int, window: nat)

  datatype Proposal = Proposal(wasmHash: nat, time: nat)

  datatype State = State(
    cfg: Config, loans: map<nat, Loan>, collaterals: map<nat, Collateral>, loanCount: nat,
    collateralCount: nat, tokens: map<Address, nat>, twap: Twap, upgrade: Option<Proposal>)

  /** A transaction's outcome. */
  datatype Tx<+T> = Done(state: State, value: T) | Fail(error: Error)

  const MAX_PAUSE_DURATION: nat := 518_400
  const UPGRADE_TIMELOCK_SECS: nat := 86_400
  const MAX_PRICE: nat := 1_000_000_000_000_000_000
  const SECONDS_PER_YEAR: nat := 31_536_000
  const MAX_ORACLES: nat := 5

  /** The state left behind by a transaction. */
  function Settle<T>(s: State, tx: Tx<T>): State {
    match tx
    case Done(s', _) => s'
    case Fail(_) => s
  }

  // ---- Tokens --------------------------------------------------------------------------

  function Balance(tokens: map<Address, nat>, a: Address): nat {
    if a in tokens then tokens[a] else 0
  }

  function Credit(tokens: map<Address, nat>, a: Address, amount: nat): map<Address, nat> {
    tokens[a := Balance(tokens, a) + amount]
  }

  /** A transfer traps unless the payer covers it. */
  function Transfer(tokens: map<Address, nat>, from: Address, to: Address, amount: int): Option<map<Address, nat>> {
    if amount < 0 || Balance(tokens, from) < amount then None
    else Some(Credit(tokens[from := Balance(tokens, from) - amount], to, amount))
  }

  /** A transfer that the code makes only for a positive amount. */
  function TransferIfPositive(tokens: map<Address, nat>, from: Address, to: Address, amount: int): Option<map<Address, nat>> {
    if amount > 0 then Transfer(tokens, from, to, amount) else Some(tokens)
  }

  // ---- Prices and collateral values -------------------------------------------------------

  predicate IsPaused(c: Config, now: nat) {
    c.paused && (c.pauseExpiry == 0 || now < c.pauseExpiry)
  }

  function EffectivePrice(c: Config, t: Twap): Option<int> {
    var price := if t.price > 0 then t.price else t.lastPrice;
    if price <= 0 then None
    else
      var capped := if c.priceMax > 0 && price > c.priceMax then c.priceMax else price;
      Some(if c.priceMin > 0 && capped < c.priceMin then c.priceMin else capped)
  }

  /** The most that `count` animals may be valued at under the oracle price. */
  function PriceCeiling(c: Config, price: int, count: nat): int {
    Saturate(count * (Saturate(price * (10_000 + c.deviationBps)) / 10_000))
  }

  /** Whether the oracle price, if there is one, rejects a valuation. */
  predicate Overvalued(c: Config, t: Twap, count: nat, value: int) {
    var p := EffectivePrice(c, t);
    p.Some? && value > PriceCeiling(c, p.value, count)
  }

  function EffectiveValue(c: Config, t: Twap, col: Collateral): int {
    if Overvalued(c, t, col.count, col.appraisedValue) then PriceCeiling(c, EffectivePrice(c, t).value, col.count)
    else col.appraisedValue
  }

  /** The origination loop over the listed collaterals: first obstacle in list order, or the sum. */
  function Appraise(s: State, borrower: Address, ids: seq<nat>, acc: int): Result<int, Error> {
    if ids == [] then Ok(acc)
    else if ids[0] !in s.collaterals then Err(CollateralNotFound)
    else
      var col := s.collaterals[ids[0]];
      if col.owner != borrower then Err(Unauthorized)
      else
        var total := acc + EffectiveValue(s.cfg, s.twap, col);
        if !Fits(total) then Err(InvalidAmount) else Appraise(s, borrower, ids[1..], total)
  }

  /** The health-factor loop: missing collaterals are skipped. */
  function CurrentValue(s: State, ids: seq<nat>, acc: int): Result<int, Error> {
    if ids == [] then Ok(acc)
    else if ids[0] !in s.collaterals then CurrentValue(s, ids[1..], acc)
    else
      var total := acc + EffectiveValue(s.cfg, s.twap, s.collaterals[ids[0]]);
      if !Fits(total) then Err(InvalidAmount) else CurrentValue(s, ids[1..], total)
  }

  function HealthFactor(s: State, l: Loan): Result<int, Error> {
    if !Fits(l.outstanding + l.interestAccrued) then Err(InvalidAmount)
    else if l.outstanding + l.interestAccrued == 0 then Ok(I128_MAX)
    else
      var current := CurrentValue(s, l.collateralIds, 0);
      if current.Err? then current
      else
        var value := if current.value == 0 && l.totalCollateralValue > 0 then l.totalCollateralValue else current.value;
        var numerator, denominator := value * s.cfg.liqThreshold, l.outstanding * 10_000;
        if !Fits(numerator) || !Fits(denominator) then Err(InvalidAmount)
        else if !Fits(numerator * 10_000) || denominator == 0 then Err(Trap)
        else Ok(numerator * 10_000 / denominator)
  }

  // ---- Borrowing ----------------------------------------------------------------------------

  function RegisterLivestock(s: State, now: nat, owner: Address, animalType: string, count: nat, value: int): Tx<nat> {
    if IsPaused(s.cfg, now) then Fail(ContractPaused)
    else if value <= 0 || count == 0 then Fail(InvalidAmount)
    else if animalType in s.cfg.animalCaps && value > s.cfg.animalCaps[animalType] then Fail(InvalidAmount)
    else if Overvalued(s.cfg, s.twap, count, value) then Fail(InvalidPrice)
    else if owner == Contract then Fail(Trap)
    else if s.collateralCount >= U64_MAX then Fail(ArithmeticOverflow)
    else
      var id := s.collateralCount + 1;
      Done(s.(collateralCount := id,
              collaterals := s.collaterals[id := Collateral(owner, animalType, count, value, 0, [value])]), id)
  }

  /** Every listed collateral points to the loan. */
  function Link(cols: map<nat, Collateral>, ids: seq<nat>, loanId: nat): map<nat, Collateral> {
    map i | i in cols :: if i in ids then cols[i].(loanId := loanId) else cols[i]
  }

  function RequestLoan(s: State, now: nat, borrower: Address, ids: seq<nat>, amount: int): Tx<nat> {
    if IsPaused(s.cfg, now) then Fail(ContractPaused)
    else if amount <= 0 then Fail(InvalidAmount)
    else if ids == [] then Fail(CollateralNotFound)
    else if borrower == Contract then Fail(Trap)
    else
      var total := Appraise(s, borrower, ids, 0);
      if total.Err? then Fail(total.error)
      else if !Fits(total.value * s.cfg.ltv) then Fail(InvalidAmount)
      else if amount > total.value * s.cfg.ltv / 10_000 then Fail(InsufficientCollateral)
      else if !Fits(amount * s.cfg.originationFee) then Fail(InvalidAmount)
      else if s.loanCount >= U64_MAX then Fail(ArithmeticOverflow)
      else Disburse(s, now, borrower, ids, amount, total.value)
  }

  /** The writing half of `request_loan`: the record, the back-links, the two transfers. */
  function Disburse(s: State, now: nat, borrower: Address, ids: seq<nat>, amount: int, total: int): Tx<nat> {
    var fee := amount * s.cfg.originationFee / 10_000;
    var id := s.loanCount + 1;
    var loan := Loan(id, borrower, ids, total, amount, amount, 0, now, Active);
    var t1 := TransferIfPositive(s.tokens, Contract, s.cfg.treasury, fee);
    if t1.None? then Fail(Trap)
    else
      var t2 := Transfer(t1.value, Contract, borrower, amount - fee);
      if t2.None? then Fail(Trap)
      else Done(s.(loanCount := id, loans := s.loans[id := loan],
                   collaterals := Link(s.collaterals, ids, id), tokens := t2.value), id)
  }

  // ---- Repayment -----------------------------------------------------------------------------

  /** Interest for `elapsed` seconds, with the saturating products of the code. */
  function Accrual(outstanding: int, feeBps: nat, elapsed: nat): int {
    Saturate(Saturate(outstanding * feeBps) * elapsed) / (10_000 * SECONDS_PER_YEAR)
  }

  function Elapsed(since: nat, now: nat): nat {
    if now > since then now - since else 0
  }

  /** The loan with interest accrued up to now. */
  function Accrue(l: Loan, feeBps: nat, now: nat): Loan {
    var elapsed := Elapsed(l.lastInterestTime, now);
    l.(interestAccrued :=
         if elapsed > 0 && l.outstanding > 0
         then Saturate(l.interestAccrued + Accrual(l.outstanding, feeBps, elapsed)) else l.interestAccrued,
       lastInterestTime := now)
  }

  function RepayLoan(s: State, now: nat, borrower: Address, id: nat, amount: int): Tx<()> {
    if amount <= 0 then Fail(InvalidAmount)
    else if borrower == Contract then Fail(Trap)
    else if id !in s.loans then Fail(LoanNotFound)
    else if s.loans[id].borrower != borrower then Fail(Unauthorized)
    else if s.loans[id].status != Active then Fail(LoanAlreadyClosed)
    else
      var l := Accrue(s.loans[id], s.cfg.interestFee, now);
      var owed := l.outstanding + l.interestAccrued;
      if !Fits(owed) then Fail(InvalidAmount)
      else
        var paid := Min(amount, owed);
        var interestPaid := Min(l.interestAccrued, paid);
        if !Fits(interestPaid * s.cfg.interestFee) then Fail(InvalidAmount)
        else Collect(s, l, paid, interestPaid, interestPaid * s.cfg.interestFee / 10_000)
  }

  /** The transfers and the record of a repayment. */
  function Collect(s: State, l: Loan, paid: int, interestPaid: int, fee: int): Tx<()> {
    var outstanding, interest := l.outstanding - (paid - interestPaid), l.interestAccrued - interestPaid;
    var l' := l.(outstanding := outstanding, interestAccrued := interest,
                 status := if outstanding == 0 && interest == 0 then Repaid else l.status);
    var t1 := Transfer(s.tokens, l.borrower, Contract, paid);
    if t1.None? then Fail(Trap)
    else
      var t2 := TransferIfPositive(t1.value, Contract, s.cfg.treasury, fee);
      if t2.None? then Fail(Trap)
      else Done(s.(loans := s.loans[l.id := l'], tokens := t2.value), ())
  }

  // ---- Liquidation ------------------------------------------------------------------------------

  predicate MayLiquidate(c: Config, who: Address) {
    c.whitelistCount == 0 || who in c.whitelist
  }

  function Liquidate(s: State, now: nat, liquidator: Address, id: nat, repay: int): Tx<()> {
    if IsPaused(s.cfg, now) then Fail(ContractPaused)
    else if repay <= 0 then Fail(InvalidAmount)
    else if liquidator == Contract then Fail(Trap)
    else if !MayLiquidate(s.cfg, liquidator) then Fail(LiquidatorNotWhitelisted)
    else if id !in s.loans then Fail(LoanNotFound)
    else if s.loans[id].status != Active then Fail(LoanAlreadyClosed)
    else
      var l := s.loans[id];
      var hf := HealthFactor(s, l);
      if hf.Err? then Fail(hf.error)
      else if hf.value >= 10_000 then Fail(HealthFactorSafe)
      else if !Fits(l.outstanding * s.cfg.closeFactor) then Fail(InvalidAmount)
      else if repay > l.outstanding * s.cfg.closeFactor / 10_000 then Fail(ExceedsCloseFactor)
      else
        var t := Transfer(s.tokens, liquidator, Contract, repay);
        if t.None? then Fail(Trap)
        else
          var left := l.outstanding - repay;
          Done(s.(loans := s.loans[id := l.(outstanding := left, status := if left == 0 then Liquidated else Active)],
                  tokens := t.value), ())
  }

  function UpdateAppraisal(s: State, now: nat, owner: Address, id: nat, value: int): Tx<()> {
    if IsPaused(s.cfg, now) then Fail(ContractPaused)
    else if value <= 0 then Fail(InvalidAmount)
    else if owner == Contract then Fail(Trap)
    else if id !in s.collaterals then Fail(CollateralNotFound)
    else if s.collaterals[id].owner != owner then Fail(Unauthorized)
    else if Overvalued(s.cfg, s.twap, s.collaterals[id].count, value) then Fail(InvalidPrice)
    else
      var col := s.collaterals[id];
      var kept := if |col.history| >= 3 then col.history[|col.history| - 2..] else col.history;
      Done(s.(collaterals := s.collaterals[id := col.(appraisedValue := value, history := kept + [value])]), ())
  }

  // ---- Prices ------------------------------------------------------------------------------------

  /** Whether a price at time now opens a new averaging window. */
  predicate StartsWindow(t: Twap, now: nat) {
    t.lastTime == 0 || Elapsed(t.lastTime, now) > t.window
  }

  /** The price bookkeeping shared by the two price entry points. */
  function RecordPrice(t: Twap, price: int, now: nat): Twap {
    var sum := if StartsWindow(t, now) then price else Saturate(t.sum + price);
    var count := if StartsWindow(t, now) then 1 else Min(t.count + 1, U32_MAX);
    t.(lastPrice := price, lastTime := now, sum := sum, count := count, price := sum / count)
  }

  function SubmitPrice(s: State, now: nat, oracle: Address, price: int): Tx<()> {
    if oracle == Contract then Fail(Trap)
    else if oracle != s.cfg.oracle then Fail(Unauthorized)
    else if price <= 0 then Fail(InvalidPrice)
    else Done(s.(twap := RecordPrice(s.twap, price, now)), ())
  }

  function OracleList(c: Config): seq<Address> {
    if c.oracles.Some? then c.oracles.value else [c.oracle]
  }

  datatype OracleReport = OracleReport(median: int, responses: nat, flagged: nat)

  /** Whether a price is more than half the median away from it. */
  function FarFrom(median: int): int -> bool {
    p => median > 0 && (if p > median then p - median else median - p) * 100 > median * 50
  }

  function SubmitOraclePrices(s: State, now: nat, submitter: Address, prices: seq<int>): Tx<OracleReport> {
    if submitter == Contract then Fail(Trap)
    else if |prices| != |OracleList(s.cfg)| then Fail(InvalidPrice)
    else if exists p :: p in prices && (p <= 0 || p >= MAX_PRICE) then Fail(InvalidPrice)
    else if |prices| < s.cfg.minQuorum then Fail(InsufficientOracleQuorum)
    else if prices == [] then Fail(Trap)
    else
      var median := MedianOf(INT_LE, INT_AVG, prices);
      Done(s.(twap := RecordPrice(s.twap, median, now)), OracleReport(median, |prices|, Count(prices, FarFrom(median))))
  }

  // ---- Administration -----------------------------------------------------------------------------

  datatype AdminOp =
    | Pause | Unpause | SetPauseDuration(seconds: nat) | UpdateOracle(oracle: Address, quorum: nat)
    | SetAnimalCap(animalType: string, cap: int) | SetLiquidationThreshold(bps: nat) | SetLtv(bps: nat)
    | SetCloseFactor(bps: nat) | UpdateFeeConfig(origination: nat, interest: nat)
    | AddLiquidator(who: Address) | RemoveLiquidator(who: Address)
    | AddOracle(oracle: Address) | RemoveOracle(oracle: Address) | ProposeNewAdmin(who: Address)
    | ProposeUpgrade(wasmHash: nat) | CancelUpgrade

  /** Two entry points test the pause before the caller. */
  predicate BlockedByPause(op: AdminOp) {
    op.UpdateFeeConfig? || op.AddOracle?
  }

  function Administer(s: State, now: nat, caller: Address, op: AdminOp): Tx<()> {
    var c := s.cfg;
    if BlockedByPause(op) && IsPaused(c, now) then Fail(ContractPaused)
    else if caller != c.admin then Fail(Unauthorized)
    else if caller == Contract then Fail(Trap)
    else match op
      case ProposeUpgrade(hash) => Done(s.(upgrade := Some(Proposal(hash, now))), ())
      case CancelUpgrade => if s.upgrade.None? then Fail(NoUpgradePending) else Done(s.(upgrade := None), ())
      case _ =>
        var c' := Reconfigure(c, now, op);
        if c'.Err? then Fail(c'.error) else Done(s.(cfg := c'.value), ())
  }

  /** The administrative operations that only rewrite the configuration. */
  function Reconfigure(c: Config, now: nat, op: AdminOp): Result<Config, Error>
    requires !op.ProposeUpgrade? && !op.CancelUpgrade?
  {
    match op
    case Pause =>
      if IsPaused(c, now) then Err(AlreadyPaused)
      else if now + c.pauseDuration > U64_MAX then Err(ArithmeticOverflow)
      else Ok(c.(paused := true, pauseExpiry := now + c.pauseDuration))
    case Unpause => if !IsPaused(c, now) then Err(NotPaused) else Ok(c.(paused := false, pauseExpiry := 0))
    case SetPauseDuration(d) => if d > MAX_PAUSE_DURATION then Err(InvalidAmount) else Ok(c.(pauseDuration := d))
    case UpdateOracle(o, q) => Ok(c.(oracle := o, minQuorum := if q > 0 then q else c.minQuorum))
    case SetAnimalCap(a, cap) => if cap <= 0 then Err(InvalidAmount) else Ok(c.(animalCaps := c.animalCaps[a := cap]))
    case SetLiquidationThreshold(b) => if b == 0 || b > 10_000 then Err(InvalidAmount) else Ok(c.(liqThreshold := b))
    case SetLtv(b) => if b < 1000 || b > 9000 then Err(InvalidAmount) else Ok(c.(ltv := b))
    case SetCloseFactor(b) => if b == 0 || b > 10_000 then Err(InvalidCloseFactor) else Ok(c.(closeFactor := b))
    case UpdateFeeConfig(o, i) =>
      if o > 500 || i > 500 then Err(InvalidFeeRate) else Ok(c.(originationFee := o, interestFee := i))
    case AddLiquidator(w) =>
      if w in c.whitelist then Ok(c)
      else if c.whitelistCount >= U32_MAX then Err(Trap)
      else Ok(c.(whitelist := c.whitelist + {w}, whitelistCount := c.whitelistCount + 1))
    case RemoveLiquidator(w) =>
      if w !in c.whitelist then Ok(c)
      else Ok(c.(whitelist := c.whitelist - {w},
                 whitelistCount := SaturatingDecrement(c.whitelistCount)))
    case AddOracle(o) =>
      var os := OracleList(c);
      if o in os then Err(OracleAlreadyRegistered)
      else if |os| >= MAX_ORACLES then Err(OracleLimitReached)
      else Ok(c.(oracles := Some(os + [o])))
    case RemoveOracle(o) =>
      var os := OracleList(c);
      if o !in os then Err(OracleNotFound) else Ok(c.(oracles := Some(RemoveFirst(os, o))))
    case ProposeNewAdmin(w) => Ok(c.(pendingAdmin := Some(w)))
  }

  function AcceptAdminRole(s: State, who: Address): Tx<()> {
    if s.cfg.pendingAdmin != Some(who) then Fail(Unauthorized)
    else if who == Contract then Fail(Trap)
    else Done(s.(cfg := s.cfg.(admin := who, pendingAdmin := None)), ())
  }

  function EmergencyWithdraw(s: State, now: nat, caller: Address, recipient: Address): Tx<()> {
    if caller != s.cfg.admin then Fail(Unauthorized)
    else if caller == Contract then Fail(Trap)
    else if !IsPaused(s.cfg, now) then Fail(NotPaused)
    else
      var t := TransferIfPositive(s.tokens, Contract, recipient, Balance(s.tokens, Contract));
      if t.None? then Fail(Trap) else Done(s.(tokens := t.value), ())
  }

  /** Returns the hash of the code that replaces the contract. */
  function ExecuteUpgrade(s: State, now: nat): Tx<nat> {
    if s.upgrade.None? then Fail(NoUpgradePending)
    else if now < Min(s.upgrade.value.time + UPGRADE_TIMELOCK_SECS, U64_MAX) then Fail(TimelockNotElapsed)
    else Done(s.(upgrade := None), s.upgrade.value.wasmHash)
  }

  // ---- Deployment and runs --------------------------------------------------------------------------

  /** `initialize` on a fresh contract: the stored values, or the reason it refuses. */
  function Initialize(
    admin: Address, zero: Address, oracle: Address, treasury: Address, ltv: nat, liqThreshold: nat, minQuorum: nat,
    tokens: map<Address, nat>): Tx<()>
  {
    if admin == zero then Fail(Unauthorized)
    else if ltv == 0 || ltv > 9000 then Fail(InvalidAmount)
    else if liqThreshold < ltv then Fail(InvalidAmount)
    else if admin == Contract then Fail(Trap)
    else Done(State(
      Config(admin, None, oracle, None, treasury, ltv, liqThreshold, minQuorum, 50, 1000, 5000, false, 0,
        24 * 3600, 2000, 0, 0, map[], {}, 0),
      map[], map[], 0, 0, tokens, Twap(0, 0, 0, 0, 0, 3600), None), ())
  }

  /** What a fresh contract stores, argument by argument and default by default. */
  ghost predicate IsFresh(
    s: State, admin: Address, oracle: Address, treasury: Address, ltv: nat, liqThreshold: nat, minQuorum: nat,
    tokens: map<Address, nat>)
  {
    && s.cfg.admin == admin && s.cfg.oracle == oracle && s.cfg.treasury == treasury
    && s.cfg.ltv == ltv && s.cfg.liqThreshold == liqThreshold && s.cfg.minQuorum == minQuorum && s.tokens == tokens
    && s.cfg.originationFee == 50 && s.cfg.interestFee == 1000 && s.cfg.closeFactor == 5000
    && !s.cfg.paused && s.cfg.pauseExpiry == 0 && s.cfg.pauseDuration == 86_400
    && s.cfg.deviationBps == 2000 && s.cfg.priceMin == 0 && s.cfg.priceMax == 0
    && s.cfg.pendingAdmin.None? && s.cfg.oracles.None? && s.cfg.animalCaps == map[]
    && s.cfg.whitelist == {} && s.cfg.whitelistCount == 0
    && s.loans == map[] && s.collaterals == map[] && s.loanCount == 0 && s.collateralCount == 0 && s.upgrade.None?
    && s.twap.price == 0 && s.twap.lastPrice == 0 && s.twap.lastTime == 0 && s.twap.sum == 0 && s.twap.count == 0
    && s.twap.window == 3600
  }

  datatype Action =
    | Register(owner: Address, animalType: string, count: nat, value: int)
    | Borrow(borrower: Address, ids: seq<nat>, amount: int)
    | Repay(borrower: Address, loanId: nat, amount: int)
    | LiquidateLoan(liquidator: Address, loanId: nat, repay: int)
    | Reappraise(owner: Address, collateralId: nat, value: int)
    | PostPrice(oracle: Address, price: int)
    | PostOraclePrices(submitter: Address, prices: seq<int>)
    | Admin(caller: Address, op: AdminOp)
    | AcceptAdmin(who: Address)
    | Withdraw(caller: Address, recipient: Address)
    | Execute
    /** A token movement that the contract has no part in; issuance when from is None. */
    | Outside(from: Option<Address>, to: Address, quantity: nat)

  datatype Event = Event(now: nat, action: Action)

  function OutsideTransfer(s: State, from: Option<Address>, to: Address, amount: nat): Tx<()> {
    match from
    case None => Done(s.(tokens := Credit(s.tokens, to, amount)), ())
    case Some(a) =>
      if a == Contract then Fail(Trap)
      else
        var t := Transfer(s.tokens, a, to, amount);
        if t.None? then Fail(Trap) else Done(s.(tokens := t.value), ())
  }

  function Step(s: State, e: Event): State {
    match e.action
    case Register(owner, a, n, v) => Settle(s, RegisterLivestock(s, e.now, owner, a, n, v))
    case Borrow(b, ids, amount) => Settle(s, RequestLoan(s, e.now, b, ids, amount))
    case Repay(b, id, amount) => Settle(s, RepayLoan(s, e.now, b, id, amount))
    case LiquidateLoan(l, id, amount) => Settle(s, Liquidate(s, e.now, l, id, amount))
    case Reappraise(o, id, v) => Settle(s, UpdateAppraisal(s, e.now, o, id, v))
    case PostPrice(o, p) => Settle(s, SubmitPrice(s, e.now, o, p))
    case PostOraclePrices(who, ps) => Settle(s, SubmitOraclePrices(s, e.now, who, ps))
    case Admin(caller, op) => Settle(s, Administer(s, e.now, caller, op))
    case AcceptAdmin(who) => Settle(s, AcceptAdminRole(s, who))
    case Withdraw(caller, to) => Settle(s, EmergencyWithdraw(s, e.now, caller, to))
    case Execute => Settle(s, ExecuteUpgrade(s, e.now))
    case Outside(from, to, amount) => Settle(s, OutsideTransfer(s, from, to, amount))
  }

  function Run(s: State, es: seq<Event>): State {
    if es == [] then s else Step(Run(s, es[..|es| - 1]), es[|es| - 1])
  }
}
