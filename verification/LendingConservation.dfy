/** Where the money goes: the effect of each transaction on every balance, and conservation of the
    pool over whole runs. */
module LendingConservation {
  import opened Outcomes
  import opened LendingModel
  import opened LendingInvariants

  // ---- Effect on balances ---------------------------------------------------------------

  ghost function Share(x: Address, who: Address, amount: int): int {
    if x == who then amount else 0
  }

  lemma TransferMoves(tokens: map<Address, nat>, from: Address, to: Address, amount: int, x: Address)
    requires Transfer(tokens, from, to, amount).Some?
    ensures Balance(Transfer(tokens, from, to, amount).value, x)
      == Balance(tokens, x) - Share(x, from, amount) + Share(x, to, amount)
  {
  }

  lemma TransferIfPositiveMoves(tokens: map<Address, nat>, from: Address, to: Address, amount: int, x: Address)
    requires amount >= 0 && TransferIfPositive(tokens, from, to, amount).Some?
    ensures Balance(TransferIfPositive(tokens, from, to, amount).value, x)
      == Balance(tokens, x) - Share(x, from, amount) + Share(x, to, amount)
  {
  }

  lemma FeeBounds(amount: int, bps: nat)
    requires amount >= 0 && bps <= 10_000
    ensures 0 <= amount * bps / 10_000 <= amount
    ensures 10_000 * (amount * bps / 10_000) <= amount * bps
  {
    assert 0 <= amount * bps <= amount * 10_000;
  }

  lemma OriginationFee(amount: int, bps: nat)
    requires amount > 0 && bps <= 500
    ensures 0 <= amount * bps / 10_000 < amount
  {
    assert 0 <= amount * bps <= amount * 500;
  }

  lemma TwoTransfersMove(tokens: map<Address, nat>, treasury: Address, fee: int, borrower: Address, rest: int, x: Address)
    requires fee >= 0 && TransferIfPositive(tokens, Contract, treasury, fee).Some?
    requires Transfer(TransferIfPositive(tokens, Contract, treasury, fee).value, Contract, borrower, rest).Some?
    ensures Balance(Transfer(TransferIfPositive(tokens, Contract, treasury, fee).value, Contract, borrower, rest).value, x)
      == Balance(tokens, x) - Share(x, Contract, fee + rest) + Share(x, borrower, rest) + Share(x, treasury, fee)
  {
    TransferIfPositiveMoves(tokens, Contract, treasury, fee, x);
    TransferMoves(TransferIfPositive(tokens, Contract, treasury, fee).value, Contract, borrower, rest, x);
  }

  /** A loan of `amount` costs the pool exactly that much: the fee to the treasury, the rest to the borrower. */
  lemma BorrowLedger(s: State, now: nat, borrower: Address, ids: seq<nat>, amount: int, x: Address)
    requires Inv(s) && RequestLoan(s, now, borrower, ids, amount).Done?
    ensures var s', fee := RequestLoan(s, now, borrower, ids, amount).state, amount * s.cfg.originationFee / 10_000;
      && 0 <= fee < amount
      && Balance(s'.tokens, x) == Balance(s.tokens, x) - Share(x, Contract, amount)
           + Share(x, borrower, amount - fee) + Share(x, s.cfg.treasury, fee)
  {
    OriginationFee(amount, s.cfg.originationFee);
    var fee := amount * s.cfg.originationFee / 10_000;
    TwoTransfersMove(s.tokens, s.cfg.treasury, fee, borrower, amount - fee, x);
  }

  /** Interest owed on a loan at time now. */
  ghost function InterestDue(l: Loan, feeBps: nat, now: nat): int {
    Accrue(l, feeBps, now).interestAccrued
  }

  /** A repayment lowers the debt by exactly min(amount, debt), touches principal only once all
      interest due is paid, and closes the loan exactly when it covers the whole debt. */
  lemma RepayDebt(s: State, now: nat, borrower: Address, id: nat, amount: int)
    requires Inv(s) && RepayLoan(s, now, borrower, id, amount).Done?
    ensures id in s.loans && s.loans[id].borrower == borrower
    ensures var s', l := RepayLoan(s, now, borrower, id, amount).state, s.loans[id];
      var due := InterestDue(l, s.cfg.interestFee, now);
      var l' := s'.loans[id];
      && s'.loans == s.loans[id := l'] && s'.loanCount == s.loanCount
      && due >= l.interestAccrued && l'.lastInterestTime == now
      && l'.outstanding + l'.interestAccrued == l.outstanding + due - Min(amount, l.outstanding + due)
      && due - l'.interestAccrued == Min(due, amount)
      && (l'.outstanding < l.outstanding ==> l'.interestAccrued == 0)
      && (l'.status == Repaid <==> amount >= l.outstanding + due)
  {
    var l := s.loans[id];
    AccrueKeeps(l, s.cfg.interestFee, now);
    AccrualNonNegative(l.outstanding, s.cfg.interestFee, Elapsed(l.lastInterestTime, now));
  }

  /** The payment moves from the borrower to the pool, less the treasury's share of the interest. */
  lemma RepayLedger(s: State, now: nat, borrower: Address, id: nat, amount: int, x: Address)
    requires Inv(s) && RepayLoan(s, now, borrower, id, amount).Done?
    ensures id in s.loans
    ensures var due := InterestDue(s.loans[id], s.cfg.interestFee, now);
      var paid, fee := Min(amount, s.loans[id].outstanding + due), Min(due, amount) * s.cfg.interestFee / 10_000;
      Balance(RepayLoan(s, now, borrower, id, amount).state.tokens, x)
        == Balance(s.tokens, x) - Share(x, borrower, paid) + Share(x, Contract, paid - fee) + Share(x, s.cfg.treasury, fee)
  {
    var l := Accrue(s.loans[id], s.cfg.interestFee, now);
    AccrueKeeps(s.loans[id], s.cfg.interestFee, now);
    var paid := Min(amount, l.outstanding + l.interestAccrued);
    var interest := Min(l.interestAccrued, paid);
    assert interest == Min(l.interestAccrued, amount) >= 0;
    var fee := interest * s.cfg.interestFee / 10_000;
    FeeBounds(interest, s.cfg.interestFee);
    assert RepayLoan(s, now, borrower, id, amount) == Collect(s, l, paid, interest, fee);
    CollectMoves(s, l, paid, interest, fee, x);
  }

  lemma CollectMoves(s: State, l: Loan, paid: int, interest: int, fee: int, x: Address)
    requires fee >= 0 && Collect(s, l, paid, interest, fee).Done?
    ensures Balance(Collect(s, l, paid, interest, fee).state.tokens, x)
      == Balance(s.tokens, x) - Share(x, l.borrower, paid) + Share(x, Contract, paid - fee) + Share(x, s.cfg.treasury, fee)
  {
    TransferMoves(s.tokens, l.borrower, Contract, paid, x);
    TransferIfPositiveMoves(Transfer(s.tokens, l.borrower, Contract, paid).value, Contract, s.cfg.treasury, fee, x);
  }

  /** A liquidation moves exactly its amount from the liquidator to the pool and off the principal. */
  lemma LiquidateLedger(s: State, now: nat, liquidator: Address, id: nat, repay: int, x: Address)
    requires Inv(s) && Liquidate(s, now, liquidator, id, repay).Done?
    ensures id in s.loans
    ensures var s', l := Liquidate(s, now, liquidator, id, repay).state, s.loans[id];
      && 0 < repay <= l.outstanding
      && s'.loans == s.loans[id := l.(outstanding := l.outstanding - repay,
                                      status := if repay == l.outstanding then Liquidated else Active)]
      && Balance(s'.tokens, x) == Balance(s.tokens, x) - Share(x, liquidator, repay) + Share(x, Contract, repay)
  {
    CloseFactorCaps(s.loans[id].outstanding, s.cfg.closeFactor, repay);
    TransferMoves(s.tokens, liquidator, Contract, repay, x);
  }

  // ---- The pool ------------------------------------------------------------------------------

  /** Outstanding principal over loans 1..n. */
  function SumOutstanding(loans: map<nat, Loan>, n: nat): int {
    if n == 0 then 0
    else SumOutstanding(loans, n - 1) + if n in loans then loans[n].outstanding else 0
  }

  lemma {:induction false} SumAfterUpdate(loans: map<nat, Loan>, n: nat, id: nat, l: Loan)
    requires id in loans && 1 <= id
    ensures SumOutstanding(loans[id := l], n)
      == SumOutstanding(loans, n) + if id <= n then l.outstanding - loans[id].outstanding else 0
  {
    if n > 0 { SumAfterUpdate(loans, n - 1, id, l); }
  }

  lemma {:induction false} SumAfterInsert(loans: map<nat, Loan>, n: nat, id: nat, l: Loan)
    requires n < id
    ensures SumOutstanding(loans[id := l], n) == SumOutstanding(loans, n)
  {
    if n > 0 { SumAfterInsert(loans, n - 1, id, l); }
  }

  /** The contract's tokens plus everything still owed to it as principal. */
  function Pool(s: State): int {
    Balance(s.tokens, Contract) + SumOutstanding(s.loans, s.loanCount)
  }

  /** Interest and fees kept by the pool, tokens sent to it from outside, tokens withdrawn from it. */
  datatype Flow = Flow(retained: int, deposited: int, withdrawn: int)

  /** The part of a fee that leaves the pool: all of it, unless the contract is its own treasury. */
  ghost function Leaving(s: State, fee: int): int {
    if s.cfg.treasury == Contract then 0 else fee
  }

  /** What one event adds to and takes from the pool. */
  ghost function FlowOf(s: State, e: Event): Flow {
    match e.action
    case Borrow(b, ids, amount) =>
      if RequestLoan(s, e.now, b, ids, amount).Fail? then Flow(0, 0, 0)
      else
        var fee := amount * s.cfg.originationFee / 10_000;
        Flow(fee - Leaving(s, fee), 0, 0)
    case Repay(b, id, amount) =>
      if RepayLoan(s, e.now, b, id, amount).Fail? || id !in s.loans then Flow(0, 0, 0)
      else
        var interest := Min(InterestDue(s.loans[id], s.cfg.interestFee, e.now), amount);
        Flow(interest - Leaving(s, interest * s.cfg.interestFee / 10_000), 0, 0)
    case Outside(from, to, quantity) =>
      if OutsideTransfer(s, from, to, quantity).Done? && to == Contract then Flow(0, quantity, 0) else Flow(0, 0, 0)
    case Withdraw(caller, to) =>
      if EmergencyWithdraw(s, e.now, caller, to).Done? && to != Contract
      then Flow(0, 0, Balance(s.tokens, Contract)) else Flow(0, 0, 0)
    case _ => Flow(0, 0, 0)
  }

  ghost function RunFlow(s: State, es: seq<Event>): Flow {
    if es == [] then Flow(0, 0, 0)
    else
      var before := RunFlow(s, es[..|es| - 1]);
      var last := FlowOf(Run(s, es[..|es| - 1]), es[|es| - 1]);
      Flow(before.retained + last.retained, before.deposited + last.deposited, before.withdrawn + last.withdrawn)
  }

  lemma BorrowConserves(s: State, now: nat, borrower: Address, ids: seq<nat>, amount: int)
    requires Inv(s)
    ensures Pool(Settle(s, RequestLoan(s, now, borrower, ids, amount)))
      == Pool(s) + FlowOf(s, Event(now, Borrow(borrower, ids, amount))).retained
  {
    var tx := RequestLoan(s, now, borrower, ids, amount);
    if tx.Done? {
      BorrowLedger(s, now, borrower, ids, amount, Contract);
      SumAfterInsert(s.loans, s.loanCount, s.loanCount + 1, tx.state.loans[s.loanCount + 1]);
    }
  }

  lemma RepayConserves(s: State, now: nat, borrower: Address, id: nat, amount: int)
    requires Inv(s)
    ensures Pool(Settle(s, RepayLoan(s, now, borrower, id, amount)))
      == Pool(s) + FlowOf(s, Event(now, Repay(borrower, id, amount))).retained
  {
    var tx := RepayLoan(s, now, borrower, id, amount);
    if tx.Done? {
      RepayDebt(s, now, borrower, id, amount);
      RepayLedger(s, now, borrower, id, amount, Contract);
      SumAfterUpdate(s.loans, s.loanCount, id, tx.state.loans[id]);
    }
  }

  lemma LiquidateConserves(s: State, now: nat, liquidator: Address, id: nat, repay: int)
    requires Inv(s)
    ensures Pool(Settle(s, Liquidate(s, now, liquidator, id, repay))) == Pool(s)
  {
    var tx := Liquidate(s, now, liquidator, id, repay);
    if tx.Done? {
      LiquidateLedger(s, now, liquidator, id, repay, Contract);
      SumAfterUpdate(s.loans, s.loanCount, id, tx.state.loans[id]);
    }
  }

  lemma WithdrawDrains(s: State, now: nat, caller: Address, to: Address)
    requires Inv(s)
    ensures Pool(Settle(s, EmergencyWithdraw(s, now, caller, to)))
      == Pool(s) - FlowOf(s, Event(now, Withdraw(caller, to))).withdrawn
  {
    TransferIfPositiveMoves(s.tokens, Contract, to, Balance(s.tokens, Contract), Contract);
  }

  lemma StepConserves(s: State, e: Event)
    requires Inv(s)
    ensures var f := FlowOf(s, e);
      Pool(Step(s, e)) == Pool(s) + f.retained + f.deposited - f.withdrawn
  {
    match e.action
    case Borrow(b, ids, amount) => BorrowConserves(s, e.now, b, ids, amount);
    case Repay(b, id, amount) => RepayConserves(s, e.now, b, id, amount);
    case LiquidateLoan(l, id, repay) => LiquidateConserves(s, e.now, l, id, repay);
    case Withdraw(caller, to) => WithdrawDrains(s, e.now, caller, to);
    case Outside(from, to, quantity) => OutsideDeposits(s, from, to, quantity);
    case _ => StepFrame(s, e);
  }

  lemma OutsideDeposits(s: State, from: Option<Address>, to: Address, quantity: nat)
    ensures Pool(Settle(s, OutsideTransfer(s, from, to, quantity)))
      == Pool(s) + if OutsideTransfer(s, from, to, quantity).Done? && to == Contract then quantity else 0
  {
  }

  lemma AdministerKeepsTreasury(s: State, now: nat, caller: Address, op: AdminOp)
    ensures Settle(s, Administer(s, now, caller, op)).cfg.treasury == s.cfg.treasury
  {
  }

  lemma TreasuryFixed(s: State, e: Event)
    ensures Step(s, e).cfg.treasury == s.cfg.treasury
  {
    if e.action.Admin? {
      AdministerKeepsTreasury(s, e.now, e.action.caller, e.action.op);
    } else if !e.action.AcceptAdmin? {
      StepFrame(s, e);
    }
  }

  lemma KeptShare(interest: int, bps: nat)
    requires interest >= 0 && bps <= 1000
    ensures 0 <= interest * bps / 10_000 && 10 * (interest - interest * bps / 10_000) >= 9 * interest
  {
    assert 0 <= interest * bps <= interest * 1000;
  }

  /** At least nine tenths of the interest collected stays in the pool, and no flow is negative. */
  lemma RetainedShare(s: State, e: Event)
    requires Inv(s)
    ensures FlowOf(s, e).retained >= 0 && FlowOf(s, e).deposited >= 0 && FlowOf(s, e).withdrawn >= 0
    ensures e.action.Repay? && RepayLoan(s, e.now, e.action.borrower, e.action.loanId, e.action.amount).Done? ==>
      e.action.loanId in s.loans
      && 10 * FlowOf(s, e).retained >= 9 * Min(InterestDue(s.loans[e.action.loanId], s.cfg.interestFee, e.now), e.action.amount)
  {
    if e.action.Repay? && RepayLoan(s, e.now, e.action.borrower, e.action.loanId, e.action.amount).Done? {
      var l := s.loans[e.action.loanId];
      AccrueKeeps(l, s.cfg.interestFee, e.now);
      var interest := Min(InterestDue(l, s.cfg.interestFee, e.now), e.action.amount);
      KeptShare(interest, s.cfg.interestFee);
    } else if e.action.Borrow? && RequestLoan(s, e.now, e.action.borrower, e.action.ids, e.action.amount).Done? {
      OriginationFee(e.action.amount, s.cfg.originationFee);
    }
  }

  /** Pool conservation over every run: retained interest, fees that the contract pays itself and outside
      deposits are all that is added, emergency withdrawals are all that is taken. */
  lemma {:induction false} PoolConserved(s: State, es: seq<Event>)
    requires Inv(s)
    ensures var f := RunFlow(s, es);
      && Pool(Run(s, es)) == Pool(s) + f.retained + f.deposited - f.withdrawn
      && f.retained >= 0 && f.deposited >= 0 && f.withdrawn >= 0
    ensures Run(s, es).cfg.treasury == s.cfg.treasury
  {
    if es != [] {
      var before, e := Run(s, es[..|es| - 1]), es[|es| - 1];
      PoolConserved(s, es[..|es| - 1]);
      RunKeeps(s, es[..|es| - 1]);
      TreasuryFixed(before, e);
      StepConserves(before, e);
      RetainedShare(before, e);
    }
  }

  /** Without an emergency withdrawal the pool never shrinks, whatever else happens. */
  lemma {:induction false} PoolNeverShrinks(s: State, es: seq<Event>)
    requires Inv(s)
    requires forall e :: e in es ==> !e.action.Withdraw?
    ensures Pool(Run(s, es)) >= Pool(s)
  {
    PoolConserved(s, es);
    NoWithdrawals(s, es);
  }

  lemma {:induction false} NoWithdrawals(s: State, es: seq<Event>)
    requires forall e :: e in es ==> !e.action.Withdraw?
    ensures RunFlow(s, es).withdrawn == 0
  {
    if es != [] {
      NoWithdrawals(s, es[..|es| - 1]);
      assert es[|es| - 1] in es;
    }
  }
}
