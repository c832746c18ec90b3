/** The timelock on code upgrades, over whole runs. */
module LendingUpgrade {
  import opened Outcomes
  import opened LendingModel
  import opened LendingInvariants

  ghost predicate PendingAfter(s: State, es: seq<Event>, p: Proposal, j: nat) {
    j < |es| && Run(s, es[..j + 1]).upgrade == Some(p)
  }

  /** Event i of the run is the admin's proposal p, and p has been pending ever since. */
  ghost predicate ProposedAt(s: State, es: seq<Event>, p: Proposal, i: nat) {
    && i < |es| && es[i].now == p.time
    && es[i].action == Admin(Run(s, es[..i]).cfg.admin, ProposeUpgrade(p.wasmHash))
    && forall j :: i <= j < |es| ==> PendingAfter(s, es, p, j)
  }

  lemma StepUpgrade(s: State, e: Event)
    ensures Step(s, e).upgrade == s.upgrade || Step(s, e).upgrade.None?
      || (e.action.Admin? && e.action.caller == s.cfg.admin && e.action.op.ProposeUpgrade?
          && Step(s, e).upgrade == Some(Proposal(e.action.op.wasmHash, e.now)))
  {
    match e.action
    case Admin(_, _) =>
    case Execute =>
    case _ => StepFrame(s, e);
  }

  lemma PrefixPending(s: State, es: seq<Event>, p: Proposal, i: nat)
    requires es != [] && Run(s, es).upgrade == Some(p) && ProposedAt(s, es[..|es| - 1], p, i)
    ensures ProposedAt(s, es, p, i)
  {
    var n := |es| - 1;
    var prior := es[..n];
    assert prior[i] == es[i] && prior[..i] == es[..i];
    forall j | i <= j < |es| ensures PendingAfter(s, es, p, j) {
      if j < n {
        assert PendingAfter(s, prior, p, j);
        assert prior[..j + 1] == es[..j + 1];
      } else {
        assert es[..j + 1] == es;
      }
    }
  }

  /** A pending proposal was made by the admin of its time and not cancelled or replaced since. */
  lemma {:induction false} PendingWasProposed(s: State, es: seq<Event>, p: Proposal) returns (i: nat)
    requires s.upgrade.None? && Run(s, es).upgrade == Some(p)
    ensures ProposedAt(s, es, p, i)
  {
    var n := |es| - 1;
    var before, e := Run(s, es[..n]), es[n];
    if before.upgrade == Some(p) {
      i := PendingWasProposed(s, es[..n], p);
      PrefixPending(s, es, p, i);
    } else {
      i := n;
      StepUpgrade(before, e);
      assert es[..n + 1] == es;
      assert PendingAfter(s, es, p, n);
    }
  }

  /** Code is replaced only by a hash that the admin proposed at least 24 hours earlier (or at the
      last representable second) and that stayed pending the whole time. */
  lemma UpgradeWaitsOutTimelock(s: State, es: seq<Event>, now: nat)
    requires s.upgrade.None? && ExecuteUpgrade(Run(s, es), now).Done?
    ensures exists i: nat, p: Proposal ::
      && ProposedAt(s, es, p, i)
      && p.wasmHash == ExecuteUpgrade(Run(s, es), now).value
      && now >= Min(es[i].now + 86_400, U64_MAX)
  {
    var p := Run(s, es).upgrade.value;
    var i := PendingWasProposed(s, es, p);
  }
}
