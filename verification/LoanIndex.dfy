/** The off-chain loan index: event handlers that may see the same event several times. */
module LoanIndex {
  import opened Outcomes

  datatype LoanStatus = Active | Repaid | Liquidated | Defaulted

  datatype VerificationStatus = Pending | Verified | Rejected

  /** A row of the loan table, keyed by the on-chain loan id. Wall-clock columns are not modelled. */
  datatype LoanRow = LoanRow(
    borrowerId: string, livestockId: string, principalUSDC: real, interestRateBps: int, durationDays: int,
    status: LoanStatus, lastEventLedger: Option<nat>)

  datatype Event =
    | LoanCreated(ledger: nat, loanId: string, borrowerKey: string, principal: int,
                  interestRateBps: int, durationDays: int, animalId: string)
    | LoanRepaid(ledger: nat, loanId: string)
    | AssetLiquidated(ledger: nat, loanId: string)
    | Unknown(ledger: nat)

  /** Registered users by public key, and livestock ids by animal id. */
  datatype Tables = Tables(users: map<string, string>, animals: map<string, string>)

  datatype Index = Index(loans: map<string, LoanRow>, livestock: map<string, VerificationStatus>)

  predicate Terminal(s: LoanStatus) {
    s == Repaid || s == Liquidated || s == Defaulted
  }

  /** The replay guard: the loan's row already carries this ledger or a later one. */
  predicate Replayed(ix: Index, loanId: string, ledger: nat) {
    loanId in ix.loans && ix.loans[loanId].lastEventLedger.Some? && ledger <= ix.loans[loanId].lastEventLedger.value
  }

  /** The effect of one event on the index. */
  function Handle(t: Tables, ix: Index, e: Event): Index {
    match e
    case Unknown(_) => ix
    case LoanCreated(ledger, id, borrowerKey, principal, rate, days, animalId) =>
      if Replayed(ix, id, ledger) then ix
      else if id in ix.loans && Terminal(ix.loans[id].status) then ix
      else if borrowerKey !in t.users || animalId !in t.animals then ix
      else if id in ix.loans then
        ix.(loans := ix.loans[id := ix.loans[id].(status := Active, lastEventLedger := Some(ledger))])
      else
        ix.(loans := ix.loans[id := LoanRow(t.users[borrowerKey], t.animals[animalId],
          principal as real / 10000000.0, rate, days, Active, Some(ledger))])
    case LoanRepaid(ledger, id) =>
      if Replayed(ix, id, ledger) || id !in ix.loans then ix
      else ix.(loans := ix.loans[id := ix.loans[id].(status := Repaid, lastEventLedger := Some(ledger))])
    case AssetLiquidated(ledger, id) =>
      if Replayed(ix, id, ledger) || id !in ix.loans then ix
      else
        var released := ix.loans[id].livestockId;
        Index(
          ix.loans[id := ix.loans[id].(status := Liquidated, lastEventLedger := Some(ledger))],
          if released in ix.livestock then ix.livestock[released := Verified] else ix.livestock)
  }

  /** What can happen to the index: an event is delivered, or a retirement batch commits a chunk. */
  datatype Op = Deliver(event: Event) | Retire(ids: set<string>)

  function Apply(t: Tables, ix: Index, op: Op): Index {
    match op
    case Deliver(e) => Handle(t, ix, e)
    case Retire(ids) =>
      ix.(loans := map id | id in ix.loans ::
        if id in ids then ix.loans[id].(status := Repaid) else ix.loans[id])
  }

  function Run(t: Tables, ix: Index, ops: seq<Op>): Index {
    if ops == [] then ix else Apply(t, Run(t, ix, ops[..|ops| - 1]), ops[|ops| - 1])
  }

  lemma RunAppend(t: Tables, ix: Index, ops: seq<Op>, op: Op)
    ensures Run(t, ix, ops + [op]) == Apply(t, Run(t, ix, ops), op)
  {
    assert (ops + [op])[..|ops|] == ops;
  }

  // ---- Settled events --------------------------------------------------------------------

  /** Delivering e again would change nothing. */
  ghost predicate Settled(t: Tables, ix: Index, e: Event) {
    match e
    case Unknown(_) => true
    case LoanCreated(ledger, id, borrowerKey, _, _, _, animalId) =>
      || Replayed(ix, id, ledger)
      || (id in ix.loans && Terminal(ix.loans[id].status))
      || borrowerKey !in t.users || animalId !in t.animals
    case LoanRepaid(ledger, id) => Replayed(ix, id, ledger) || id !in ix.loans
    case AssetLiquidated(ledger, id) => Replayed(ix, id, ledger) || id !in ix.loans
  }

  lemma SettledIffFixed(t: Tables, ix: Index, e: Event)
    ensures Settled(t, ix, e) <==> Handle(t, ix, e) == ix
  {
    if !Settled(t, ix, e) {
      var after := Handle(t, ix, e);
      assert after.loans[e.loanId].lastEventLedger == Some(e.ledger);
      assert !Replayed(ix, e.loanId, e.ledger) && Replayed(after, e.loanId, e.ledger);
    }
  }

  /** Handling settles an event, whatever the index held before. */
  lemma HandlingSettles(t: Tables, ix: Index, e: Event)
    ensures Settled(t, Handle(t, ix, e), e)
  {
  }

  /** A settled creation stays settled whatever happens next, in any order. */
  lemma CreationStaysSettled(t: Tables, ix: Index, e: Event, op: Op)
    requires e.LoanCreated? && Settled(t, ix, e)
    ensures Settled(t, Apply(t, ix, op), e)
  {
  }

  predicate IsStatusEvent(e: Event) {
    e.LoanRepaid? || e.AssetLiquidated?
  }

  /** A settled status event stays settled unless an older creation of its loan arrives first. */
  lemma StatusStaysSettled(t: Tables, ix: Index, e: Event, op: Op)
    requires IsStatusEvent(e) && Settled(t, ix, e)
    requires e.loanId in ix.loans || !op.Deliver? || !op.event.LoanCreated? || op.event.loanId != e.loanId
      || e.ledger <= op.event.ledger || Settled(t, ix, op.event)
    ensures Settled(t, Apply(t, ix, op), e)
  {
  }

  lemma {:induction false} DeliveredCreationIsSettled(t: Tables, ix: Index, ops: seq<Op>, e: Event)
    requires e.LoanCreated? && Deliver(e) in ops
    ensures Settled(t, Run(t, ix, ops), e)
  {
    var n := |ops| - 1;
    if ops[n] == Deliver(e) {
      HandlingSettles(t, Run(t, ix, ops[..n]), e);
    } else {
      assert Deliver(e) in ops[..n];
      DeliveredCreationIsSettled(t, ix, ops[..n], e);
      CreationStaysSettled(t, Run(t, ix, ops[..n]), e, ops[n]);
    }
  }

  // ---- Exactly when redelivery is invisible ----------------------------------------------

  /** Every repayment or liquidation that was delivered, of a loan that is in the index, is a replay. */
  ghost predicate Quiet(t: Tables, ix: Index, ops: seq<Op>) {
    forall e :: Deliver(e) in ops && IsStatusEvent(e) && e.loanId in Run(t, ix, ops).loans ==>
      Replayed(Run(t, ix, ops), e.loanId, e.ledger)
  }

  lemma QuietIffSettled(t: Tables, ix: Index, ops: seq<Op>)
    ensures Quiet(t, ix, ops) <==> forall e :: Deliver(e) in ops ==> Settled(t, Run(t, ix, ops), e)
  {
    if Quiet(t, ix, ops) {
      forall e | Deliver(e) in ops ensures Settled(t, Run(t, ix, ops), e) {
        if e.LoanCreated? { DeliveredCreationIsSettled(t, ix, ops, e); }
      }
    }
  }

  function Deliveries(events: seq<Event>): seq<Op> {
    seq(|events|, i requires 0 <= i < |events| => Deliver(events[i]))
  }

  /** Delivering any of the events of ops again, in any order and number, changes nothing. */
  ghost predicate RedeliveryInvisible(t: Tables, ix: Index, ops: seq<Op>) {
    forall again :: (forall e :: e in again ==> Deliver(e) in ops) ==>
      Run(t, Run(t, ix, ops), Deliveries(again)) == Run(t, ix, ops)
  }

  lemma {:induction false} SettledRunIsFixed(t: Tables, ix: Index, again: seq<Event>)
    requires forall e :: e in again ==> Settled(t, ix, e)
    ensures Run(t, ix, Deliveries(again)) == ix
  {
    if again != [] {
      var n := |again| - 1;
      SettledRunIsFixed(t, ix, again[..n]);
      assert Deliveries(again)[..n] == Deliveries(again[..n]);
      SettledIffFixed(t, ix, again[n]);
    }
  }

  /** Whatever was delivered, in whatever order: redelivery is invisible exactly when each delivered
      status event of an indexed loan is a replay there. Creations never matter. */
  lemma RedeliveryInvisibleIff(t: Tables, ix: Index, ops: seq<Op>)
    ensures RedeliveryInvisible(t, ix, ops) <==> Quiet(t, ix, ops)
  {
    var after := Run(t, ix, ops);
    QuietIffSettled(t, ix, ops);
    if Quiet(t, ix, ops) {
      forall again | forall e :: e in again ==> Deliver(e) in ops
        ensures Run(t, after, Deliveries(again)) == after
      {
        SettledRunIsFixed(t, after, again);
      }
    }
    if RedeliveryInvisible(t, ix, ops) {
      forall e | Deliver(e) in ops ensures Settled(t, after, e) {
        assert Run(t, after, Deliveries([e])) == after;
        assert Deliveries([e])[..0] == [];
        SettledIffFixed(t, after, e);
      }
    }
  }

  // ---- At-least-once against exactly-once --------------------------------------------------

  /** ops without the deliveries that repeat an earlier one. */
  function FirstDeliveries(ops: seq<Op>): seq<Op> {
    if ops == [] then []
    else
      var rest, op := ops[..|ops| - 1], ops[|ops| - 1];
      if op.Deliver? && op in rest then FirstDeliveries(rest) else FirstDeliveries(rest) + [op]
  }

  lemma {:induction false} FirstDeliveriesElements(ops: seq<Op>, op: Op)
    ensures op in FirstDeliveries(ops) <==> op in ops
  {
    if ops != [] {
      FirstDeliveriesElements(ops[..|ops| - 1], op);
      assert op in ops <==> op in ops[..|ops| - 1] || op == ops[|ops| - 1];
    }
  }

  /** Redelivery is invisible at every moment of the history. */
  ghost predicate AlwaysQuiet(t: Tables, ix: Index, ops: seq<Op>) {
    forall n :: 0 <= n <= |ops| ==> Quiet(t, ix, ops[..n])
  }

  /** Every history whose first deliveries are once ends in the index that once leads to. */
  ghost predicate RepetitionHarmless(t: Tables, ix: Index, once: seq<Op>) {
    forall ops :: FirstDeliveries(ops) == once ==> Run(t, ix, ops) == Run(t, ix, once)
  }

  ghost predicate AlwaysHarmless(t: Tables, ix: Index, once: seq<Op>) {
    forall n :: 0 <= n <= |once| ==> RepetitionHarmless(t, ix, once[..n])
  }

  lemma QuietPrefix(t: Tables, ix: Index, ops: seq<Op>, n: nat)
    requires AlwaysQuiet(t, ix, ops) && n <= |ops|
    ensures AlwaysQuiet(t, ix, ops[..n])
  {
    forall m | 0 <= m <= n ensures Quiet(t, ix, ops[..n][..m]) {
      assert ops[..n][..m] == ops[..m];
    }
  }

  /** In a quiet history, repetitions inserted anywhere leave the index alone. */
  lemma {:induction false} QuietRepetition(t: Tables, ix: Index, ops: seq<Op>)
    requires AlwaysQuiet(t, ix, FirstDeliveries(ops))
    ensures Run(t, ix, ops) == Run(t, ix, FirstDeliveries(ops))
  {
    if ops != [] {
      var rest, op := ops[..|ops| - 1], ops[|ops| - 1];
      var once := FirstDeliveries(rest);
      if op.Deliver? && op in rest {
        QuietRepetition(t, ix, rest);
        FirstDeliveriesElements(rest, op);
        assert once[..|once|] == once;
        QuietIffSettled(t, ix, once);
        SettledIffFixed(t, Run(t, ix, once), op.event);
      } else {
        assert (once + [op])[..|once|] == once;
        QuietPrefix(t, ix, once + [op], |once|);
        QuietRepetition(t, ix, rest);
        RunAppend(t, ix, once, op);
      }
    }
  }

  lemma {:induction false} FirstDeliveriesPrefix(once: seq<Op>, n: nat)
    requires FirstDeliveries(once) == once && n <= |once|
    ensures FirstDeliveries(once[..n]) == once[..n]
  {
    if n == |once| {
      assert once[..n] == once;
    } else {
      var m := |once| - 1;
      FirstDeliveriesLength(once[..m]);
      assert once == once[..m] + [once[m]];
      FirstDeliveriesPrefix(once[..m], n);
      assert once[..m][..n] == once[..n];
    }
  }

  lemma {:induction false} FirstDeliveriesLength(ops: seq<Op>)
    ensures |FirstDeliveries(ops)| <= |ops|
  {
    if ops != [] { FirstDeliveriesLength(ops[..|ops| - 1]); }
  }

  lemma HarmlessIsQuiet(t: Tables, ix: Index, once: seq<Op>)
    requires FirstDeliveries(once) == once && RepetitionHarmless(t, ix, once)
    ensures Quiet(t, ix, once)
  {
    forall e | Deliver(e) in once ensures Settled(t, Run(t, ix, once), e) {
      var ops := once + [Deliver(e)];
      assert ops[..|once|] == once;
      assert FirstDeliveries(ops) == once;
      RunAppend(t, ix, once, Deliver(e));
      SettledIffFixed(t, Run(t, ix, once), e);
    }
    QuietIffSettled(t, ix, once);
  }

  /** For a history without repetitions: delivering its events any further number of times is at every
      moment the same as delivering each once, exactly when the history is quiet at every moment. */
  lemma ExactlyOnceIff(t: Tables, ix: Index, once: seq<Op>)
    requires FirstDeliveries(once) == once
    ensures AlwaysHarmless(t, ix, once) <==> AlwaysQuiet(t, ix, once)
  {
    if AlwaysQuiet(t, ix, once) {
      forall n | 0 <= n <= |once| ensures RepetitionHarmless(t, ix, once[..n]) {
        QuietPrefix(t, ix, once, n);
        forall ops | FirstDeliveries(ops) == once[..n] ensures Run(t, ix, ops) == Run(t, ix, once[..n]) {
          QuietRepetition(t, ix, ops);
        }
      }
    }
    if AlwaysHarmless(t, ix, once) {
      forall n | 0 <= n <= |once| ensures Quiet(t, ix, once[..n]) {
        FirstDeliveriesPrefix(once, n);
        HarmlessIsQuiet(t, ix, once[..n]);
      }
    }
  }

  // ---- Histories that are quiet ------------------------------------------------------------

  /** Delivery i is a status event of a loan not yet indexed, and delivery j is the first one of an
      older creation of that loan. */
  ghost predicate Overtakes(t: Tables, ix: Index, ops: seq<Op>, i: nat, j: nat)
    requires i < j < |ops|
  {
    && ops[i].Deliver? && IsStatusEvent(ops[i].event) && ops[i].event.loanId !in Run(t, ix, ops[..i]).loans
    && ops[j].Deliver? && ops[j].event.LoanCreated? && ops[j] !in ops[..j]
    && ops[j].event.loanId == ops[i].event.loanId && ops[j].event.ledger < ops[i].event.ledger
  }

  /** No repayment or liquidation overtakes the creation of its own loan. Other deliveries, of the same
      loan or of others, may come in any order. */
  ghost predicate NoOvertaking(t: Tables, ix: Index, ops: seq<Op>) {
    forall i, j :: 0 <= i < j < |ops| ==> !Overtakes(t, ix, ops, i, j)
  }

  lemma NoOvertakingPrefix(t: Tables, ix: Index, ops: seq<Op>, n: nat)
    requires NoOvertaking(t, ix, ops) && n <= |ops|
    ensures NoOvertaking(t, ix, ops[..n])
  {
    var prior := ops[..n];
    forall i, j | 0 <= i < j < n ensures !Overtakes(t, ix, prior, i, j) {
      assert prior[..i] == ops[..i] && prior[..j] == ops[..j];
      assert !Overtakes(t, ix, ops, i, j);
    }
  }

  lemma {:induction false} RowsStay(t: Tables, ix: Index, ops: seq<Op>, i: nat, id: string)
    requires i <= |ops| && id in Run(t, ix, ops[..i]).loans
    ensures id in Run(t, ix, ops).loans
  {
    if i == |ops| {
      assert ops[..i] == ops;
    } else {
      var n := |ops| - 1;
      assert ops[..n][..i] == ops[..i];
      RowsStay(t, ix, ops[..n], i, id);
    }
  }

  lemma {:induction false} DeliveredAreSettled(t: Tables, ix: Index, ops: seq<Op>, e: Event)
    requires NoOvertaking(t, ix, ops) && Deliver(e) in ops
    ensures Settled(t, Run(t, ix, ops), e)
  {
    var n := |ops| - 1;
    var rest, op := ops[..n], ops[n];
    var before := Run(t, ix, rest);
    if e.LoanCreated? {
      DeliveredCreationIsSettled(t, ix, ops, e);
    } else if op == Deliver(e) {
      HandlingSettles(t, before, e);
    } else if IsStatusEvent(e) {
      var i :| 0 <= i < n && ops[i] == Deliver(e);
      assert rest[i] == Deliver(e) && rest[..i] == ops[..i];
      NoOvertakingPrefix(t, ix, ops, n);
      DeliveredAreSettled(t, ix, rest, e);
      if op.Deliver? && op.event.LoanCreated? && op in rest {
        DeliveredCreationIsSettled(t, ix, rest, op.event);
      }
      if e.loanId !in before.loans && e.loanId in Run(t, ix, ops[..i]).loans {
        RowsStay(t, ix, rest, i, e.loanId);
      }
      assert !Overtakes(t, ix, ops, i, n);
      StatusStaysSettled(t, before, e, op);
    }
  }

  lemma NoOvertakingIsQuiet(t: Tables, ix: Index, ops: seq<Op>)
    requires NoOvertaking(t, ix, ops)
    ensures Quiet(t, ix, ops) && RedeliveryInvisible(t, ix, ops)
  {
    forall e | Deliver(e) in ops ensures Settled(t, Run(t, ix, ops), e) {
      DeliveredAreSettled(t, ix, ops, e);
    }
    QuietIffSettled(t, ix, ops);
    RedeliveryInvisibleIff(t, ix, ops);
  }

  /** At-least-once delivery, in any interleaving with retirements, leaves exactly the index that
      delivering each event once would have left, as long as no creation is overtaken. */
  lemma {:induction false} AtLeastOnceIsExactlyOnce(t: Tables, ix: Index, ops: seq<Op>)
    requires NoOvertaking(t, ix, ops)
    ensures Run(t, ix, ops) == Run(t, ix, FirstDeliveries(ops))
  {
    if ops != [] {
      var rest, op := ops[..|ops| - 1], ops[|ops| - 1];
      NoOvertakingPrefix(t, ix, ops, |rest|);
      AtLeastOnceIsExactlyOnce(t, ix, rest);
      if op.Deliver? && op in rest {
        DeliveredAreSettled(t, ix, rest, op.event);
        SettledIffFixed(t, Run(t, ix, rest), op.event);
      } else {
        RunAppend(t, ix, FirstDeliveries(rest), op);
      }
    }
  }

  /** Each delivery repeats an earlier one or is no older than all earlier ones. Interleaved polls,
      retries and restarts from the first ledger all produce such sequences. */
  ghost predicate InLedgerOrder(ops: seq<Op>) {
    forall i :: 0 <= i < |ops| && ops[i].Deliver? && ops[i] !in ops[..i] ==>
      forall j :: 0 <= j < i && ops[j].Deliver? ==> ops[j].event.ledger <= ops[i].event.ledger
  }

  /** Each status event finds its loan indexed when it is first delivered. */
  ghost predicate LoansComeFirst(t: Tables, ix: Index, ops: seq<Op>) {
    forall i :: 0 <= i < |ops| && ops[i].Deliver? && IsStatusEvent(ops[i].event) && ops[i] !in ops[..i] ==>
      ops[i].event.loanId in Run(t, ix, ops[..i]).loans
  }

  lemma LedgerOrderSuffices(t: Tables, ix: Index, ops: seq<Op>)
    requires InLedgerOrder(ops)
    ensures NoOvertaking(t, ix, ops)
  {
    forall i, j | 0 <= i < j < |ops| ensures !Overtakes(t, ix, ops, i, j) {
      assert ops[j].Deliver? && ops[j] !in ops[..j] && ops[i].Deliver? ==> ops[i].event.ledger <= ops[j].event.ledger;
    }
  }

  /** The first position at which op occurs. */
  lemma {:induction false} FirstOccurrence(ops: seq<Op>, op: Op) returns (k: nat)
    requires op in ops
    ensures k < |ops| && ops[k] == op && op !in ops[..k]
  {
    k := |ops| - 1;
    if op in ops[..k] {
      var prior := ops[..k];
      k := FirstOccurrence(prior, op);
      assert prior[..k] == ops[..k];
    }
  }

  lemma LoansFirstSuffices(t: Tables, ix: Index, ops: seq<Op>)
    requires LoansComeFirst(t, ix, ops)
    ensures NoOvertaking(t, ix, ops)
  {
    forall i, j | 0 <= i < j < |ops| ensures !Overtakes(t, ix, ops, i, j) {
      if Overtakes(t, ix, ops, i, j) {
        var upTo := ops[..i + 1];
        assert upTo[i] == ops[i];
        var k := FirstOccurrence(upTo, ops[i]);
        assert upTo[..k] == ops[..k] && ops[k] == ops[i];
        assert ops[..i][..k] == ops[..k];
        RowsStay(t, ix, ops[..i], k, ops[i].event.loanId);
      }
    }
  }

  /** A status event that comes before the creation of its loan is lost, and its redelivery is invisible
      exactly when it was not younger than the creation. */
  lemma OvertakingVisibleIff(t: Tables, ix: Index, e: Event, c: Event)
    requires IsStatusEvent(e) && e.loanId !in ix.loans
    requires c.LoanCreated? && c.loanId == e.loanId && c.borrowerKey in t.users && c.animalId in t.animals
    ensures Handle(t, ix, e) == ix
    ensures var after := Handle(t, Handle(t, ix, e), c);
      && after.loans[e.loanId].status == Active
      && (Handle(t, after, e) == after <==> e.ledger <= c.ledger)
  {
    SettledIffFixed(t, Handle(t, ix, c), e);
  }

  /** The order matters: a repayment that overtakes the creation is dropped, and its redelivery
      is not invisible. */
  lemma OvertakingRepaymentReapplies(t: Tables, id: string, user: string, animal: string)
    requires user in t.users && animal in t.animals
    ensures var created := Deliver(LoanCreated(1, id, user, 0, 0, 0, animal));
      var repaid := Deliver(LoanRepaid(2, id));
      var once := Run(t, Index(map[], map[]), [repaid, created]);
      var twice := Run(t, Index(map[], map[]), [repaid, created, repaid]);
      && !InLedgerOrder([repaid, created])
      && id in once.loans && once.loans[id].status == Active
      && id in twice.loans && twice.loans[id].status == Repaid
  {
    var created := Deliver(LoanCreated(1, id, user, 0, 0, 0, animal));
    var repaid := Deliver(LoanRepaid(2, id));
    var ix := Index(map[], map[]);
    assert [repaid, created][..1] == [repaid] && [repaid][..0] == [];
    assert [repaid, created, repaid][..2] == [repaid, created];
    assert Run(t, ix, [repaid]) == ix;
    assert [repaid, created][1] == created && created !in [repaid];
    assert [repaid, created][0] == repaid;
  }

  /** Two events of one loan in one ledger: the guard drops the second, whatever it is. */
  lemma SameLedgerSecondEventDropped(t: Tables, ix: Index, first: Event, second: Event)
    requires !first.Unknown? && !second.Unknown?
    requires first.loanId == second.loanId && first.ledger == second.ledger
    requires Handle(t, ix, first) != ix
    ensures Handle(t, Handle(t, ix, first), second) == Handle(t, ix, first)
  {
    AppliedEventRaisesLedger(t, ix, first);
    assert Replayed(Handle(t, ix, first), second.loanId, second.ledger);
  }

  // ---- Terminal states absorb -------------------------------------------------------------

  /** No operation reopens a closed loan or forgets a row, and ledgers never go back. */
  ghost predicate Advanced(before: Index, after: Index) {
    forall id :: id in before.loans ==>
      && id in after.loans
      && (Terminal(before.loans[id].status) ==> Terminal(after.loans[id].status))
      && (before.loans[id].lastEventLedger.Some? ==>
            after.loans[id].lastEventLedger.Some?
            && before.loans[id].lastEventLedger.value <= after.loans[id].lastEventLedger.value)
  }

  lemma StepAdvances(t: Tables, ix: Index, op: Op)
    ensures Advanced(ix, Apply(t, ix, op))
  {
  }

  /** Operations in any order and with any repetition: REPAID, LIQUIDATED and DEFAULTED loans never
      become ACTIVE again. */
  lemma {:induction false} TerminalAbsorbs(t: Tables, ix: Index, ops: seq<Op>)
    ensures Advanced(ix, Run(t, ix, ops))
  {
    if ops != [] {
      TerminalAbsorbs(t, ix, ops[..|ops| - 1]);
      StepAdvances(t, Run(t, ix, ops[..|ops| - 1]), ops[|ops| - 1]);
    }
  }

  /** A loan that is not ACTIVE, whatever its status, never becomes ACTIVE again. */
  lemma {:induction false} NeverReactivated(t: Tables, ix: Index, ops: seq<Op>, id: string)
    requires id in ix.loans && ix.loans[id].status != Active
    ensures id in Run(t, ix, ops).loans && Run(t, ix, ops).loans[id].status != Active
  {
    if ops != [] {
      NeverReactivated(t, ix, ops[..|ops| - 1], id);
      assert Run(t, ix, ops) == Apply(t, Run(t, ix, ops[..|ops| - 1]), ops[|ops| - 1]);
    }
  }

  /** A committed retirement sets exactly the listed rows to REPAID and nothing else. */
  lemma RetiringSets(t: Tables, ix: Index, ids: set<string>)
    ensures var after := Apply(t, ix, Retire(ids));
      && after.livestock == ix.livestock && after.loans.Keys == ix.loans.Keys
      && forall id :: id in ix.loans ==>
           after.loans[id] == if id in ids then ix.loans[id].(status := Repaid) else ix.loans[id]
  {
  }

  /** An event that changes a row stamps it with its own, strictly newer ledger, and touches no
      other loan. */
  lemma AppliedEventRaisesLedger(t: Tables, ix: Index, e: Event)
    requires Handle(t, ix, e) != ix
    ensures !e.Unknown? && e.loanId in Handle(t, ix, e).loans
    ensures Handle(t, ix, e).loans[e.loanId].lastEventLedger == Some(e.ledger)
    ensures e.loanId in ix.loans && ix.loans[e.loanId].lastEventLedger.Some? ==>
      ix.loans[e.loanId].lastEventLedger.value < e.ledger
    ensures forall id :: id != e.loanId ==>
      (id in Handle(t, ix, e).loans <==> id in ix.loans)
      && (id in ix.loans ==> Handle(t, ix, e).loans[id] == ix.loans[id])
  {
  }

  /** A status event that is not a replay decides the status of an indexed loan. */
  lemma NewerStatusWins(t: Tables, ix: Index, e: Event)
    requires (e.LoanRepaid? || e.AssetLiquidated?) && e.loanId in ix.loans && !Replayed(ix, e.loanId, e.ledger)
    ensures var row := Handle(t, ix, e).loans[e.loanId];
      && row.status == (if e.LoanRepaid? then Repaid else Liquidated)
      && row.(status := ix.loans[e.loanId].status, lastEventLedger := ix.loans[e.loanId].lastEventLedger) == ix.loans[e.loanId]
    ensures e.AssetLiquidated? && ix.loans[e.loanId].livestockId in ix.livestock ==>
      Handle(t, ix, e).livestock == ix.livestock[ix.loans[e.loanId].livestockId := Verified]
  {
  }

  // ---- What a row says -----------------------------------------------------------------------

  /** The event inserts a row of its own: no row yet, borrower and animal known. */
  ghost predicate Inserts(t: Tables, ix: Index, e: Event) {
    e.LoanCreated? && e.loanId !in ix.loans && e.borrowerKey in t.users && e.animalId in t.animals
  }

  /** The columns that say who borrowed what, on which terms, are those of the creation event. */
  ghost predicate RowOf(t: Tables, row: LoanRow, e: Event)
    requires e.LoanCreated? && e.borrowerKey in t.users && e.animalId in t.animals
  {
    && row.borrowerId == t.users[e.borrowerKey] && row.livestockId == t.animals[e.animalId]
    && row.principalUSDC * 10_000_000.0 == e.principal as real
    && row.interestRateBps == e.interestRateBps && row.durationDays == e.durationDays
  }

  lemma CreationInserts(t: Tables, ix: Index, e: Event)
    requires Inserts(t, ix, e)
    ensures var after := Handle(t, ix, e);
      && after.livestock == ix.livestock && after.loans.Keys == ix.loans.Keys + {e.loanId}
      && RowOf(t, after.loans[e.loanId], e)
      && after.loans[e.loanId].status == Active && after.loans[e.loanId].lastEventLedger == Some(e.ledger)
  {
  }

  /** Apart from status and ledger the two rows agree. */
  ghost predicate SameTerms(before: LoanRow, after: LoanRow) {
    after == before.(status := after.status, lastEventLedger := after.lastEventLedger)
  }

  /** A row appears only by an insertion, and nothing ever rewrites its terms. */
  lemma StepKeepsTerms(t: Tables, ix: Index, op: Op, id: string)
    ensures id in ix.loans ==> id in Apply(t, ix, op).loans && SameTerms(ix.loans[id], Apply(t, ix, op).loans[id])
    ensures id !in ix.loans && id in Apply(t, ix, op).loans ==>
      op.Deliver? && Inserts(t, ix, op.event) && op.event.loanId == id
  {
  }

  lemma {:induction false} TermsKept(t: Tables, ix: Index, ops: seq<Op>, id: string)
    requires id in ix.loans
    ensures id in Run(t, ix, ops).loans && SameTerms(ix.loans[id], Run(t, ix, ops).loans[id])
  {
    if ops != [] {
      TermsKept(t, ix, ops[..|ops| - 1], id);
      StepKeepsTerms(t, Run(t, ix, ops[..|ops| - 1]), ops[|ops| - 1], id);
    }
  }

  /** After any history a row that the run brought in has the terms of the creation that inserted it, and
      no delivery before that one could insert it. */
  lemma {:induction false} RowFromCreation(t: Tables, ix: Index, ops: seq<Op>, id: string) returns (i: nat)
    requires id !in ix.loans && id in Run(t, ix, ops).loans
    ensures i < |ops| && ops[i].Deliver? && ops[i].event.LoanCreated? && ops[i].event.loanId == id
    ensures Inserts(t, Run(t, ix, ops[..i]), ops[i].event) && RowOf(t, Run(t, ix, ops).loans[id], ops[i].event)
  {
    var n := |ops| - 1;
    var before := Run(t, ix, ops[..n]);
    StepKeepsTerms(t, before, ops[n], id);
    if id in before.loans {
      i := RowFromCreation(t, ix, ops[..n], id);
      assert ops[..n][..i] == ops[..i];
    } else {
      i := n;
      CreationInserts(t, before, ops[n].event);
    }
  }

  /** Livestock changes only when a liquidation that is not a replay frees the collateral of an indexed loan. */
  lemma LivestockOnlyFreed(t: Tables, ix: Index, op: Op)
    ensures var after := Apply(t, ix, op);
      if op.Deliver? && op.event.AssetLiquidated? && op.event.loanId in ix.loans
         && !Replayed(ix, op.event.loanId, op.event.ledger) && ix.loans[op.event.loanId].livestockId in ix.livestock
      then after.livestock == ix.livestock[ix.loans[op.event.loanId].livestockId := Verified]
      else after.livestock == ix.livestock
  {
  }

  // ---- The indexer --------------------------------------------------------------------------

  class EventIndexer {
    const tables: Tables
    var loans: map<string, LoanRow>
    var livestock: map<string, VerificationStatus>
    var currentStartLedger: nat

    ghost function View(): Index
      reads this
    {
      Index(loans, livestock)
    }

    constructor (tables: Tables, startLedger: nat)
      ensures this.tables == tables && View() == Index(map[], map[]) && currentStartLedger == startLedger
    {
      this.tables := tables;
      loans, livestock, currentStartLedger := map[], map[], startLedger;
    }

    method HandleLoanCreated(e: Event)
      requires e.LoanCreated?
      modifies this
      ensures View() == Handle(tables, old(View()), e) && currentStartLedger == old(currentStartLedger)
    {
      var id := e.loanId;
      if id in loans {
        var last := loans[id].lastEventLedger;
        if last.Some? && e.ledger <= last.value { return; }
        if loans[id].status in {Repaid, Liquidated, Defaulted} { return; }
      }
      if e.borrowerKey !in tables.users { return; }
      if e.animalId !in tables.animals { return; }
      if id in loans {
        loans := loans[id := loans[id].(status := Active, lastEventLedger := Some(e.ledger))];
      } else {
        loans := loans[id := LoanRow(tables.users[e.borrowerKey], tables.animals[e.animalId],
          e.principal as real / 10000000.0, e.interestRateBps, e.durationDays, Active, Some(e.ledger))];
      }
    }

    method HandleLoanStatusChange(e: Event, status: LoanStatus)
      requires (e.LoanRepaid? && status == Repaid) || (e.AssetLiquidated? && status == Liquidated)
      modifies this
      ensures View() == Handle(tables, old(View()), e) && currentStartLedger == old(currentStartLedger)
    {
      var id := e.loanId;
      if id in loans {
        var last := loans[id].lastEventLedger;
        if last.Some? && e.ledger <= last.value { return; }
      }
      if status == Liquidated && id in loans && loans[id].livestockId in livestock {
        livestock := livestock[loans[id].livestockId := Verified];
      }
      // updating a missing row throws, and the handler swallows the error
      if id !in loans { return; }
      loans := loans[id := loans[id].(status := status, lastEventLedger := Some(e.ledger))];
    }

    method ProcessEvent(e: Event)
      modifies this
      ensures View() == Handle(tables, old(View()), e) && currentStartLedger == old(currentStartLedger)
    {
      match e {
        case LoanCreated(_, _, _, _, _, _, _) => HandleLoanCreated(e);
        case LoanRepaid(_, _) => HandleLoanStatusChange(e, Repaid);
        case AssetLiquidated(_, _) => HandleLoanStatusChange(e, Liquidated);
        case Unknown(_) =>
      }
    }

    /** One poll: process the fetched events in order; the cursor ends just past the newest of
        them, so no later poll asks for any of them again. */
    method PollEvents(events: seq<Event>)
      modifies this
      ensures View() == Run(tables, old(View()), Deliveries(events))
      ensures old(currentStartLedger) <= currentStartLedger
      ensures forall e :: e in events ==> e.ledger < currentStartLedger
      ensures currentStartLedger == old(currentStartLedger)
        || exists e :: e in events && currentStartLedger == e.ledger + 1
    {
      for i := 0 to |events|
        invariant View() == Run(tables, old(View()), Deliveries(events[..i]))
        invariant old(currentStartLedger) <= currentStartLedger
        invariant forall j :: 0 <= j < i ==> events[j].ledger < currentStartLedger
        invariant currentStartLedger == old(currentStartLedger)
          || exists j :: 0 <= j < i && currentStartLedger == events[j].ledger + 1
      {
        var event := events[i];
        assert Deliveries(events[..i + 1])[..i] == Deliveries(events[..i]);
        ProcessEvent(event);
        if event.ledger + 1 > currentStartLedger {
          currentStartLedger := event.ledger + 1;
        }
      }
      assert events[..|events|] == events;
    }
  }
}
