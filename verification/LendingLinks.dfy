/** Back-links from collateral to loans, and the count built on them. */
module LendingLinks {
  import opened LendingModel
  import opened LendingInvariants

  /** A collateral's link is the largest id of a loan that lists it, or 0 if none does. */
  lemma LinkIsLatestLoan(s: State, c: nat)
    requires Inv(s) && c in s.collaterals
    ensures s.collaterals[c].loanId == 0 <==> forall i :: i in s.loans ==> c !in s.loans[i].collateralIds
    ensures s.collaterals[c].loanId > 0 ==>
      var i := s.collaterals[c].loanId;
      && i in s.loans && c in s.loans[i].collateralIds
      && s.loans[i].borrower == s.collaterals[c].owner
      && forall j :: j in s.loans && c in s.loans[j].collateralIds ==> j <= i
  {
    assert LinkOk(s, c);
    forall j | j in s.loans && c in s.loans[j].collateralIds
      ensures 1 <= j <= s.collaterals[c].loanId && s.loans[j].borrower == s.collaterals[c].owner
    {
      assert ListedOk(s, j, c);
    }
  }

  /** The collateral's last loan was closed by liquidation. */
  predicate LastLoanLiquidated(s: State, c: nat)
    requires c in s.collaterals
  {
    var i := s.collaterals[c].loanId;
    i > 0 && i in s.loans && s.loans[i].status == Liquidated
  }

  /** The owner's collaterals whose last loan was not liquidated. */
  function Counted(s: State, owner: Address): set<nat> {
    set c | c in s.collaterals && s.collaterals[c].owner == owner && !LastLoanLiquidated(s, c)
  }

  /** In terms of loans: a collateral counts unless the latest loan that lists it was liquidated. */
  lemma CountedIff(s: State, owner: Address, c: nat)
    requires Inv(s)
    ensures c in Counted(s, owner) <==>
      && c in s.collaterals && s.collaterals[c].owner == owner
      && forall i :: i in s.loans && c in s.loans[i].collateralIds && s.loans[i].status == Liquidated ==>
           exists j :: j > i && j in s.loans && c in s.loans[j].collateralIds
  {
    if c in s.collaterals {
      LinkIsLatestLoan(s, c);
      var last := s.collaterals[c].loanId;
      forall i | i in s.loans && c in s.loans[i].collateralIds && i != last
        ensures last > i && last in s.loans && c in s.loans[last].collateralIds
      {
      }
    }
  }

  /** Those among the first n ids. */
  function CountedUpTo(s: State, owner: Address, n: nat): set<nat> {
    set c | c in Counted(s, owner) && c <= n
  }

  lemma CountedGrows(s: State, owner: Address, n: nat)
    ensures |CountedUpTo(s, owner, n + 1)|
      == |CountedUpTo(s, owner, n)| + if n + 1 in Counted(s, owner) then 1 else 0
  {
    assert CountedUpTo(s, owner, n + 1)
      == CountedUpTo(s, owner, n) + if n + 1 in Counted(s, owner) then {n + 1} else {};
  }

  lemma CountedEnds(s: State, owner: Address)
    requires Inv(s)
    ensures CountedUpTo(s, owner, 0) == {} && CountedUpTo(s, owner, s.collateralCount) == Counted(s, owner)
  {
  }
}
