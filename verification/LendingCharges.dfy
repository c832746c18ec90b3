/** The interest charged on one loan over a whole run, against its principal outstanding over time. */
module LendingCharges {
  import opened Outcomes
  import opened LendingModel
  import opened LendingInvariants
  import opened LendingConservation
  import opened LendingDecay
  import opened LendingInterest
  import opened LendingAccounts

  // ---- Principal over time ------------------------------------------------------------------

  function LastTime(es: seq<Event>, start: nat): nat {
    if es == [] then start else es[|es| - 1].now
  }

  /** No event is earlier than the one before it, nor than start. */
  ghost predicate TimesInOrder(es: seq<Event>, start: nat) {
    es == [] || (TimesInOrder(es[..|es| - 1], start) && LastTime(es[..|es| - 1], start) <= es[|es| - 1].now)
  }

  /** A principal outstanding for a number of seconds, added up second by second. */
  function Area(principal: int, seconds: nat): int {
    if seconds == 0 then 0 else Area(principal, seconds - 1) + principal
  }

  lemma {:induction false} AreaIsProduct(principal: int, seconds: nat)
    ensures Area(principal, seconds) == principal * seconds
  {
    if seconds > 0 {
      AreaIsProduct(principal, seconds - 1);
      assert principal * seconds == principal * (seconds - 1) + principal;
    }
  }

  lemma {:induction false} AreaSplits(principal: int, a: nat, b: nat)
    ensures Area(principal, a + b) == Area(principal, a) + Area(principal, b)
  {
    if b > 0 { AreaSplits(principal, a, b - 1); }
  }

  lemma {:induction false} AreaAdds(x: int, y: int, seconds: nat)
    ensures Area(x + y, seconds) == Area(x, seconds) + Area(y, seconds)
  {
    if seconds > 0 { AreaAdds(x, y, seconds - 1); }
  }

  lemma {:induction false} AreaNonNegative(principal: int, seconds: nat)
    requires principal >= 0
    ensures Area(principal, seconds) >= 0
  {
    if seconds > 0 { AreaNonNegative(principal, seconds - 1); }
  }

  /** Principal outstanding, added up over the seconds from start to the last event. */
  ghost function Exposure(s: State, es: seq<Event>, id: nat, start: nat): int
    requires Inv(s) && id in s.loans
  {
    if es == [] then 0
    else
      var prior := es[..|es| - 1];
      RunEvolves(s, prior, id);
      Exposure(s, prior, id, start)
      + Area(Run(s, prior).loans[id].outstanding, Elapsed(LastTime(prior, start), es[|es| - 1].now))
  }

  /** The part of a loan's exposure that no charge has been made for by time now. */
  ghost function Uncharged(l: Loan, now: nat): int {
    Area(l.outstanding, Elapsed(l.lastInterestTime, now))
  }

  // ---- Where the exposure goes -----------------------------------------------------------------

  /** Principal-seconds that repayments charged for, those that liquidations took off the loan before any
      charge, the charges due at the fee of each repayment, and the number of repayments. */
  datatype Tally = Tally(covered: int, lost: int, due: int, repayments: nat)

  /** What one event adds, read off the call and the record before it. */
  ghost function Measure(s: State, e: Event, id: nat): Tally
    requires id in s.loans
  {
    if Repays(s, e, id) then
      Tally(Uncharged(s.loans[id], e.now), 0, s.cfg.interestFee * Uncharged(s.loans[id], e.now), 1)
    else if Liquidates(s, e, id) then
      Tally(0, Area(e.action.repay, Elapsed(s.loans[id].lastInterestTime, e.now)), 0, 0)
    else Tally(0, 0, 0, 0)
  }

  ghost function Measured(s: State, es: seq<Event>, id: nat): Tally
    requires Inv(s) && id in s.loans
  {
    if es == [] then Tally(0, 0, 0, 0)
    else
      RunEvolves(s, es[..|es| - 1], id);
      var before := Measured(s, es[..|es| - 1], id);
      var last := Measure(Run(s, es[..|es| - 1]), es[|es| - 1], id);
      Tally(before.covered + last.covered, before.lost + last.lost, before.due + last.due,
            before.repayments + last.repayments)
  }

  lemma StepMeasured(s: State, e: Event, id: nat)
    requires Inv(s) && id in s.loans && s.loans[id].lastInterestTime <= e.now
    ensures id in Step(s, e).loans && Step(s, e).loans[id].lastInterestTime <= e.now
    ensures var m := Measure(s, e, id);
      && m.covered >= 0 && m.lost >= 0
      && m.covered + m.lost + Uncharged(Step(s, e).loans[id], e.now) == Uncharged(s.loans[id], e.now)
  {
    var l, elapsed := s.loans[id], Elapsed(s.loans[id].lastInterestTime, e.now);
    AreaNonNegative(l.outstanding, elapsed);
    if Repays(s, e, id) {
      RepayDebt(s, e.now, e.action.borrower, id, e.action.amount);
    } else if Liquidates(s, e, id) {
      LiquidateLedger(s, e.now, e.action.liquidator, id, e.action.repay, Contract);
      AreaAdds(l.outstanding - e.action.repay, e.action.repay, elapsed);
      AreaNonNegative(e.action.repay, elapsed);
    } else {
      ElsewhereUntouched(s, e, id);
    }
  }

  /** One event in the middle of a run: what was uncharged before, what it covers and drops, what is
      uncharged after, and the exposure it adds. */
  lemma StepAdds(s: State, e: Event, id: nat, last: nat)
    returns (before: int, covered: int, lost: int, left: int, extra: int)
    requires Inv(s) && id in s.loans && s.loans[id].lastInterestTime <= last <= e.now
    ensures id in Step(s, e).loans && Step(s, e).loans[id].lastInterestTime <= e.now
    ensures before == Uncharged(s.loans[id], last) && left == Uncharged(Step(s, e).loans[id], e.now)
    ensures covered == Measure(s, e, id).covered && lost == Measure(s, e, id).lost
    ensures extra == Area(s.loans[id].outstanding, Elapsed(last, e.now))
    ensures covered >= 0 && lost >= 0 && covered + lost + left == before + extra
  {
    StepMeasured(s, e, id);
    AreaSplits(s.loans[id].outstanding, last - s.loans[id].lastInterestTime, e.now - last);
    before, left := Uncharged(s.loans[id], last), Uncharged(Step(s, e).loans[id], e.now);
    covered, lost := Measure(s, e, id).covered, Measure(s, e, id).lost;
    extra := Area(s.loans[id].outstanding, Elapsed(last, e.now));
  }

  lemma MeasuredExtends(s: State, es: seq<Event>, id: nat)
    requires Inv(s) && id in s.loans && es != []
    ensures var prior := es[..|es| - 1];
      && id in Run(s, prior).loans
      && Measured(s, es, id).covered == Measured(s, prior, id).covered + Measure(Run(s, prior), es[|es| - 1], id).covered
      && Measured(s, es, id).lost == Measured(s, prior, id).lost + Measure(Run(s, prior), es[|es| - 1], id).lost
  {
    RunEvolves(s, es[..|es| - 1], id);
  }

  lemma ExposureExtends(s: State, es: seq<Event>, id: nat, start: nat)
    requires Inv(s) && id in s.loans && es != []
    ensures var prior := es[..|es| - 1];
      && id in Run(s, prior).loans
      && Exposure(s, es, id, start) == Exposure(s, prior, id, start)
           + Area(Run(s, prior).loans[id].outstanding, Elapsed(LastTime(prior, start), es[|es| - 1].now))
  {
    RunEvolves(s, es[..|es| - 1], id);
  }

  /** The exposure up to the last event is covered by charges, lost to liquidations, or not charged yet. */
  ghost predicate Balanced(s: State, es: seq<Event>, id: nat, start: nat)
    requires Inv(s) && id in s.loans
  {
    && id in Run(s, es).loans && Run(s, es).loans[id].lastInterestTime <= LastTime(es, start)
    && Measured(s, es, id).covered >= 0 && Measured(s, es, id).lost >= 0
    && Exposure(s, es, id, start)
         == Measured(s, es, id).covered + Measured(s, es, id).lost + Uncharged(Run(s, es).loans[id], LastTime(es, start))
  }

  lemma BalancedExtends(s: State, es: seq<Event>, id: nat, start: nat)
    requires Inv(s) && id in s.loans && es != [] && TimesInOrder(es, start)
    requires Balanced(s, es[..|es| - 1], id, start)
    ensures Balanced(s, es, id, start)
  {
    RunKeeps(s, es[..|es| - 1]);
    var before, covered, lost, left, extra :=
      StepAdds(Run(s, es[..|es| - 1]), es[|es| - 1], id, LastTime(es[..|es| - 1], start));
    MeasuredExtends(s, es, id);
    ExposureExtends(s, es, id, start);
    assert Uncharged(Run(s, es).loans[id], LastTime(es, start)) == left;
  }

  /** Along every run the loan's exposure splits exactly into the three parts. */
  lemma {:induction false} ExposureSplits(s: State, es: seq<Event>, id: nat, start: nat)
    requires Inv(s) && id in s.loans && start == s.loans[id].lastInterestTime && TimesInOrder(es, start)
    ensures Balanced(s, es, id, start)
  {
    if es != [] {
      ExposureSplits(s, es[..|es| - 1], id, start);
      BalancedExtends(s, es, id, start);
    }
  }

  // ---- What is charged for the covered part -------------------------------------------------------

  /** An amount of interest in basis points times seconds of principal: 10 000 * 31 536 000 to the unit. */
  function BpSeconds(interest: int): int {
    315_360_000_000 * interest
  }

  /** n charges, each the floor of what was due. */
  ghost predicate Rounded(due: int, charged: int, n: nat) {
    0 <= due - BpSeconds(charged) <= 315_359_999_999 * n
  }

  /** The product of the interest computation fits, if the event charges interest on the loan. */
  ghost predicate ChargeFits(s: State, e: Event, id: nat)
    requires id in s.loans
  {
    Repays(s, e, id) ==>
      Fits(s.loans[id].outstanding * s.cfg.interestFee * Elapsed(s.loans[id].lastInterestTime, e.now))
  }

  /** One accrual charges the floor of what is due, or less if its product overflows. */
  lemma ChargeRounds(l: Loan, feeBps: nat, now: nat)
    requires LoanOk(l) && l.status == Active && Fits(l.outstanding + InterestDue(l, feeBps, now))
    ensures var charged, due := InterestDue(l, feeBps, now) - l.interestAccrued, feeBps * Uncharged(l, now);
      && BpSeconds(charged) <= due
      && (Fits(l.outstanding * feeBps * Elapsed(l.lastInterestTime, now)) ==> Rounded(due, charged, 1))
  {
    var elapsed := Elapsed(l.lastInterestTime, now);
    AccrualClips(l.outstanding, feeBps, elapsed);
    AreaIsProduct(l.outstanding, elapsed);
    DueIsProduct(l.outstanding, feeBps, elapsed);
    assert InterestDue(l, feeBps, now) - l.interestAccrued
      == if elapsed > 0 then Accrual(l.outstanding, feeBps, elapsed) else 0;
  }

  lemma DueIsProduct(outstanding: nat, feeBps: nat, elapsed: nat)
    ensures feeBps * (outstanding * elapsed) == outstanding * feeBps * elapsed >= 0
  {
    assert outstanding * feeBps >= 0;
  }

  lemma EntryRounds(s: State, e: Event, id: nat)
    requires Inv(s) && id in s.loans
    ensures var charged, m := Entry(s, e, id).charged, Measure(s, e, id);
      && BpSeconds(charged) <= m.due
      && (ChargeFits(s, e, id) ==> Rounded(m.due, charged, m.repayments))
  {
    if Repays(s, e, id) { ChargeRounds(s.loans[id], s.cfg.interestFee, e.now); }
  }

  ghost predicate ChargesFit(s: State, es: seq<Event>, id: nat)
    requires Inv(s) && id in s.loans
  {
    es == [] ||
      (RunEvolves(s, es[..|es| - 1], id);
       ChargesFit(s, es[..|es| - 1], id) && ChargeFits(Run(s, es[..|es| - 1]), es[|es| - 1], id))
  }

  lemma RoundedTwice(due: int, charged: int, n: nat, moreDue: int, more: int, k: nat)
    ensures BpSeconds(charged) <= due && BpSeconds(more) <= moreDue ==> BpSeconds(charged + more) <= due + moreDue
    ensures Rounded(due, charged, n) && Rounded(moreDue, more, k) ==> Rounded(due + moreDue, charged + more, n + k)
  {
  }

  /** Over every run the charges never exceed what is due at the fee in force at each repayment, and fall
      short by less than one unit per repayment while the products fit. */
  lemma {:induction false} ChargesRound(s: State, es: seq<Event>, id: nat)
    requires Inv(s) && id in s.loans
    ensures BpSeconds(Booked(s, es, id).charged) <= Measured(s, es, id).due
    ensures ChargesFit(s, es, id) ==>
      Rounded(Measured(s, es, id).due, Booked(s, es, id).charged, Measured(s, es, id).repayments)
  {
    if es != [] {
      var prior, e := es[..|es| - 1], es[|es| - 1];
      var before := Run(s, prior);
      ChargesRound(s, prior, id);
      RunKeeps(s, prior);
      RunEvolves(s, prior, id);
      EntryRounds(before, e, id);
      RoundedTwice(Measured(s, prior, id).due, Booked(s, prior, id).charged, Measured(s, prior, id).repayments,
        Measure(before, e, id).due, Entry(before, e, id).charged, Measure(before, e, id).repayments);
    }
  }

  /** Every repayment of the loan along the run happens at the fee f. */
  ghost predicate SteadyFee(s: State, es: seq<Event>, id: nat, f: nat)
    requires Inv(s) && id in s.loans
  {
    es == [] ||
      (SteadyFee(s, es[..|es| - 1], id, f)
       && (Repays(Run(s, es[..|es| - 1]), es[|es| - 1], id) ==> Run(s, es[..|es| - 1]).cfg.interestFee == f))
  }

  /** due is the interest on covered at the fee f. */
  ghost predicate DueAt(f: nat, due: int, covered: int) {
    due == f * covered
  }

  lemma DueAtTwice(f: nat, due: int, covered: int, moreDue: int, more: int)
    requires DueAt(f, due, covered) && DueAt(f, moreDue, more)
    ensures DueAt(f, due + moreDue, covered + more)
  {
  }

  lemma SteadyMeasure(s: State, e: Event, id: nat, f: nat)
    requires id in s.loans && (Repays(s, e, id) ==> s.cfg.interestFee == f)
    ensures DueAt(f, Measure(s, e, id).due, Measure(s, e, id).covered)
  {
  }

  lemma {:induction false} SteadyDue(s: State, es: seq<Event>, id: nat, f: nat)
    requires Inv(s) && id in s.loans && SteadyFee(s, es, id, f)
    ensures DueAt(f, Measured(s, es, id).due, Measured(s, es, id).covered)
  {
    if es != [] {
      var prior, e := es[..|es| - 1], es[|es| - 1];
      SteadyDue(s, prior, id, f);
      RunEvolves(s, prior, id);
      SteadyMeasure(Run(s, prior), e, id, f);
      DueAtTwice(f, Measured(s, prior, id).due, Measured(s, prior, id).covered,
        Measure(Run(s, prior), e, id).due, Measure(Run(s, prior), e, id).covered);
    }
  }

  /** Of the interest f * exposure, charged is all but that on waiting and lost, up to rounding. */
  ghost predicate ChargedExactly(f: nat, exposure: int, waiting: int, lost: int, charged: int, repayments: nat) {
    Rounded(f * exposure - f * waiting - f * lost, charged, repayments)
  }

  lemma SplitsExactly(f: nat, exposure: int, covered: int, waiting: int, lost: int, due: int, charged: int, n: nat)
    requires exposure == covered + lost + waiting && DueAt(f, due, covered) && Rounded(due, charged, n)
    ensures ChargedExactly(f, exposure, waiting, lost, charged, n)
  {
    Distribute(f, covered, lost, waiting);
  }

  lemma Distribute(f: nat, a: int, b: int, c: int)
    ensures f * (a + b + c) == f * a + f * b + f * c
  {
  }

  /** Interest at a steady fee f. Of the interest on a loan's exposure, what is charged along a run is all
      but the interest on the part not charged yet, the interest on what liquidations took off the
      loan, and less than one unit per repayment. */
  lemma InterestExact(s: State, es: seq<Event>, id: nat, f: nat)
    requires Inv(s) && id in s.loans && TimesInOrder(es, s.loans[id].lastInterestTime)
    requires SteadyFee(s, es, id, f) && ChargesFit(s, es, id)
    ensures id in Run(s, es).loans
    ensures var start, m := s.loans[id].lastInterestTime, Measured(s, es, id);
      ChargedExactly(f, Exposure(s, es, id, start), Uncharged(Run(s, es).loans[id], LastTime(es, start)), m.lost,
                     Booked(s, es, id).charged, m.repayments)
  {
    var start, m := s.loans[id].lastInterestTime, Measured(s, es, id);
    ExposureSplits(s, es, id, start);
    ChargesRound(s, es, id);
    SteadyDue(s, es, id, f);
    SplitsExactly(f, Exposure(s, es, id, start), m.covered, Uncharged(Run(s, es).loans[id], LastTime(es, start)), m.lost,
      m.due, Booked(s, es, id).charged, m.repayments);
  }

  /** Every liquidation of the loan along the run comes in the second of its last accrual. */
  ghost predicate LiquidatedOnAccrual(s: State, es: seq<Event>, id: nat)
    requires Inv(s) && id in s.loans
  {
    es == [] ||
      (RunEvolves(s, es[..|es| - 1], id);
       LiquidatedOnAccrual(s, es[..|es| - 1], id)
       && (Liquidates(Run(s, es[..|es| - 1]), es[|es| - 1], id) ==>
             Elapsed(Run(s, es[..|es| - 1]).loans[id].lastInterestTime, es[|es| - 1].now) == 0))
  }

  lemma {:induction false} AreaPositiveIff(principal: int, seconds: nat)
    requires principal > 0
    ensures Area(principal, seconds) >= 0 && (Area(principal, seconds) == 0 <==> seconds == 0)
  {
    if seconds > 0 { AreaPositiveIff(principal, seconds - 1); }
  }

  lemma StepLoses(s: State, e: Event, id: nat)
    requires Inv(s) && id in s.loans
    ensures Measure(s, e, id).lost >= 0
    ensures Measure(s, e, id).lost == 0
      <==> (Liquidates(s, e, id) ==> Elapsed(s.loans[id].lastInterestTime, e.now) == 0)
  {
    if Liquidates(s, e, id) { AreaPositiveIff(e.action.repay, Elapsed(s.loans[id].lastInterestTime, e.now)); }
  }

  /** Nothing is lost exactly when no liquidation finds interest waiting to accrue. */
  lemma {:induction false} LostIff(s: State, es: seq<Event>, id: nat)
    requires Inv(s) && id in s.loans
    ensures Measured(s, es, id).lost >= 0
    ensures Measured(s, es, id).lost == 0 <==> LiquidatedOnAccrual(s, es, id)
  {
    if es != [] {
      var prior := es[..|es| - 1];
      LostIff(s, prior, id);
      RunKeeps(s, prior);
      RunEvolves(s, prior, id);
      StepLoses(Run(s, prior), es[|es| - 1], id);
    }
  }

  // ---- The upper bound for any fee ----------------------------------------------------------------

  ghost function AtHighestFee(covered: int): int {
    1000 * covered
  }

  lemma MeasureAtMost(s: State, e: Event, id: nat)
    requires Inv(s) && id in s.loans
    ensures Measure(s, e, id).due <= AtHighestFee(Measure(s, e, id).covered)
  {
    AreaNonNegative(s.loans[id].outstanding, Elapsed(s.loans[id].lastInterestTime, e.now));
    FeeAtMost(s.cfg.interestFee, Uncharged(s.loans[id], e.now));
  }

  lemma FeeAtMost(f: nat, covered: int)
    requires f <= 1000 && covered >= 0
    ensures f * covered <= 1000 * covered
  {
  }

  lemma {:induction false} DueAtMost(s: State, es: seq<Event>, id: nat)
    requires Inv(s) && id in s.loans
    ensures Measured(s, es, id).due <= AtHighestFee(Measured(s, es, id).covered)
  {
    if es != [] {
      var prior := es[..|es| - 1];
      DueAtMost(s, prior, id);
      RunKeeps(s, prior);
      RunEvolves(s, prior, id);
      MeasureAtMost(Run(s, prior), es[|es| - 1], id);
    }
  }

  /** Interest charged along a run, whatever the fee did, never exceeds ten percent a year (of 31 536 000
      seconds) on the principal that was outstanding over time. */
  lemma InterestBounded(s: State, es: seq<Event>, id: nat)
    requires Inv(s) && id in s.loans && TimesInOrder(es, s.loans[id].lastInterestTime)
    ensures 315_360_000 * Booked(s, es, id).charged <= Exposure(s, es, id, s.loans[id].lastInterestTime)
  {
    var start := s.loans[id].lastInterestTime;
    ExposureSplits(s, es, id, start);
    ChargesRound(s, es, id);
    DueAtMost(s, es, id);
    RunKeeps(s, es);
    AreaNonNegative(Run(s, es).loans[id].outstanding, Elapsed(Run(s, es).loans[id].lastInterestTime, LastTime(es, start)));
  }
}
