/** The account of one loan over a whole run: where its principal and its interest went. */
module LendingAccounts {
  import opened Outcomes
  import opened LendingModel
  import opened LendingInvariants
  import opened LendingConservation
  import opened LendingDecay
  import opened LendingSafety

  /** Principal repaid and liquidated, interest charged and paid. */
  datatype Ledger = Ledger(repaid: int, liquidated: int, charged: int, paid: int)

  /** What one event books on the loan, read off the call. */
  ghost function Entry(s: State, e: Event, id: nat): Ledger
    requires id in s.loans
  {
    if Repays(s, e, id) then
      var l := s.loans[id];
      var due := InterestDue(l, s.cfg.interestFee, e.now);
      var paid := Min(due, e.action.amount);
      Ledger(Min(e.action.amount, l.outstanding + due) - paid, 0, due - l.interestAccrued, paid)
    else if Liquidates(s, e, id) then Ledger(0, e.action.repay, 0, 0)
    else Ledger(0, 0, 0, 0)
  }

  ghost function Booked(s: State, es: seq<Event>, id: nat): Ledger
    requires Inv(s) && id in s.loans
  {
    if es == [] then Ledger(0, 0, 0, 0)
    else
      RunEvolves(s, es[..|es| - 1], id);
      var before := Booked(s, es[..|es| - 1], id);
      var last := Entry(Run(s, es[..|es| - 1]), es[|es| - 1], id);
      Ledger(before.repaid + last.repaid, before.liquidated + last.liquidated,
             before.charged + last.charged, before.paid + last.paid)
  }

  lemma EntryBalances(s: State, e: Event, id: nat)
    requires Inv(s) && id in s.loans
    ensures id in Step(s, e).loans
    ensures var l, l', b := s.loans[id], Step(s, e).loans[id], Entry(s, e, id);
      && b.repaid >= 0 && b.liquidated >= 0 && b.charged >= 0 && b.paid >= 0
      && l'.outstanding == l.outstanding - b.repaid - b.liquidated
      && l'.interestAccrued == l.interestAccrued + b.charged - b.paid
  {
    if Repays(s, e, id) {
      RepayDebt(s, e.now, e.action.borrower, id, e.action.amount);
    } else if Liquidates(s, e, id) {
      LiquidateLedger(s, e.now, e.action.liquidator, id, e.action.repay, Contract);
    } else {
      ElsewhereUntouched(s, e, id);
    }
  }

  /** Along every run what is still owed as principal, what was repaid and what was liquidated add up to
      what was owed at the start; and interest still due plus interest paid to interest due at the
      start plus interest charged. */
  lemma {:induction false} DebtAccounted(s: State, es: seq<Event>, id: nat)
    requires Inv(s) && id in s.loans
    ensures id in Run(s, es).loans
    ensures var l, l', b := s.loans[id], Run(s, es).loans[id], Booked(s, es, id);
      && b.repaid >= 0 && b.liquidated >= 0 && b.charged >= 0 && b.paid >= 0
      && l'.outstanding + b.repaid + b.liquidated == l.outstanding
      && l'.interestAccrued + b.paid == l.interestAccrued + b.charged
  {
    if es != [] {
      var prior := es[..|es| - 1];
      DebtAccounted(s, prior, id);
      RunKeeps(s, prior);
      EntryBalances(Run(s, prior), es[|es| - 1], id);
    }
  }

  /** So from the grant on, outstanding + repaid + liquidated is the amount that was lent. */
  lemma PrincipalAccounted(s: State, t0: nat, borrower: Address, ids: seq<nat>, amount: int, es: seq<Event>)
    requires Inv(s) && RequestLoan(s, t0, borrower, ids, amount).Done?
    ensures var tx := RequestLoan(s, t0, borrower, ids, amount);
      && Inv(tx.state) && tx.value in tx.state.loans && tx.value in Run(tx.state, es).loans
      && var l, b := Run(tx.state, es).loans[tx.value], Booked(tx.state, es, tx.value);
      && l.outstanding + b.repaid + b.liquidated == l.principal == amount
      && l.interestAccrued + b.paid == b.charged
  {
    var tx := RequestLoan(s, t0, borrower, ids, amount);
    BorrowKeeps(s, t0, borrower, ids, amount);
    LoanTerms(s, t0, borrower, ids, amount);
    DebtAccounted(tx.state, es, tx.value);
    RunEvolves(tx.state, es, tx.value);
  }
}
