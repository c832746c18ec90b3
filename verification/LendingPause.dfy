/** How long a pause can last, over whole runs. */
module LendingPause {
  import opened LendingModel
  import opened LendingInvariants

  /** The event is a pause by the present admin that goes through. */
  ghost predicate Declares(s: State, e: Event) {
    e.action == Admin(s.cfg.admin, AdminOp.Pause) && Administer(s, e.now, s.cfg.admin, AdminOp.Pause).Done?
  }

  /** What one event can do to the pause: start one for the duration configured at that moment, or else
      leave it as it is or lift it. The configured duration stays capped. */
  lemma StepPause(s: State, e: Event)
    requires s.cfg.pauseDuration <= MAX_PAUSE_DURATION
    ensures var c, d := s.cfg, Step(s, e).cfg;
      && d.pauseDuration <= MAX_PAUSE_DURATION
      && (Declares(s, e) ==> d.paused && d.pauseExpiry == e.now + c.pauseDuration)
      && (!Declares(s, e) && d.paused ==> c.paused && d.pauseExpiry == c.pauseExpiry)
  {
    match e.action
    case Admin(caller, op) => AdministerPause(s, e.now, caller, op);
    case AcceptAdmin(_) =>
    case _ => StepFrame(s, e);
  }

  lemma AdministerPause(s: State, now: nat, caller: Address, op: AdminOp)
    requires s.cfg.pauseDuration <= MAX_PAUSE_DURATION
    ensures var c, d, tx := s.cfg, Settle(s, Administer(s, now, caller, op)).cfg, Administer(s, now, caller, op);
      && d.pauseDuration <= MAX_PAUSE_DURATION
      && (op == AdminOp.Pause && tx.Done? ==> caller == c.admin && d.paused && d.pauseExpiry == now + c.pauseDuration)
      && (!(op == AdminOp.Pause && tx.Done?) && d.paused ==> c.paused && d.pauseExpiry == c.pauseExpiry)
  {
  }

  /** The pause still stands after event j, which did not renew it. */
  ghost predicate Untouched(s: State, es: seq<Event>, expiry: nat, j: nat) {
    && j < |es| && Run(s, es[..j + 1]).cfg.paused && Run(s, es[..j + 1]).cfg.pauseExpiry == expiry
    && !Declares(Run(s, es[..j]), es[j])
  }

  /** Event i of the run is the admin's latest pause, and has been neither lifted nor renewed since; it
      expires after the duration configured then, at most MAX_PAUSE_DURATION. */
  ghost predicate PausedSince(s: State, es: seq<Event>, expiry: nat, i: nat) {
    && i < |es| && Declares(Run(s, es[..i]), es[i])
    && expiry == es[i].now + Run(s, es[..i]).cfg.pauseDuration
    && Run(s, es[..i]).cfg.pauseDuration <= MAX_PAUSE_DURATION
    && forall j :: i < j < |es| ==> Untouched(s, es, expiry, j)
  }

  lemma PrefixPaused(s: State, es: seq<Event>, expiry: nat, i: nat)
    requires es != [] && PausedSince(s, es[..|es| - 1], expiry, i)
    requires Untouched(s, es, expiry, |es| - 1)
    ensures PausedSince(s, es, expiry, i)
  {
    var n := |es| - 1;
    var prior := es[..n];
    assert prior[i] == es[i] && prior[..i] == es[..i];
    forall j | i < j < |es| ensures Untouched(s, es, expiry, j) {
      if j < n {
        assert Untouched(s, prior, expiry, j);
        assert prior[..j + 1] == es[..j + 1] && prior[..j] == es[..j];
      }
    }
  }

  lemma {:induction false} DurationCapped(s: State, es: seq<Event>)
    requires s.cfg.pauseDuration <= MAX_PAUSE_DURATION
    ensures Run(s, es).cfg.pauseDuration <= MAX_PAUSE_DURATION
  {
    if es != [] {
      DurationCapped(s, es[..|es| - 1]);
      StepPause(Run(s, es[..|es| - 1]), es[|es| - 1]);
    }
  }

  /** A set pause flag traces back to the admin's latest pause. */
  lemma {:induction false} PauseWasDeclared(s: State, es: seq<Event>) returns (i: nat)
    requires !s.cfg.paused && s.cfg.pauseDuration <= MAX_PAUSE_DURATION && Run(s, es).cfg.paused
    ensures PausedSince(s, es, Run(s, es).cfg.pauseExpiry, i)
  {
    var n := |es| - 1;
    var before, after := Run(s, es[..n]), Run(s, es);
    DurationCapped(s, es[..n]);
    StepPause(before, es[n]);
    assert es[..n + 1] == es;
    if Declares(before, es[n]) {
      i := n;
    } else {
      i := PauseWasDeclared(s, es[..n]);
      PrefixPaused(s, es, after.cfg.pauseExpiry, i);
    }
  }

  /** A pause lasts from the admin's call for the duration configured then, and is endless exactly when
      it was declared at time 0 for duration 0. */
  lemma PauseExpires(s: State, es: seq<Event>, now: nat) returns (i: nat)
    requires !s.cfg.paused && s.cfg.pauseDuration <= MAX_PAUSE_DURATION && Run(s, es).cfg.paused
    ensures PausedSince(s, es, Run(s, es).cfg.pauseExpiry, i)
    ensures var duration := Run(s, es[..i]).cfg.pauseDuration;
      && duration <= 518_400
      && (IsPaused(Run(s, es).cfg, now) <==> now < es[i].now + duration || (es[i].now == 0 && duration == 0))
      && ((forall t: nat :: IsPaused(Run(s, es).cfg, t)) <==> es[i].now == 0 && duration == 0)
  {
    i := PauseWasDeclared(s, es);
    EndlessIff(Run(s, es).cfg);
  }

  /** A set pause flag never expires exactly when no expiry is stored. */
  lemma EndlessIff(c: Config)
    requires c.paused
    ensures (forall t: nat :: IsPaused(c, t)) <==> c.pauseExpiry == 0
  {
    if c.pauseExpiry > 0 { assert !IsPaused(c, c.pauseExpiry); }
  }

  /** So the pool can be emptied only by the admin and only within 518 400 seconds of a pause, unless
      that pause was declared at time 0 for duration 0. */
  lemma WithdrawalNeedsRecentPause(s: State, es: seq<Event>, now: nat, caller: Address, to: Address) returns (i: nat)
    requires !s.cfg.paused && s.cfg.pauseDuration <= MAX_PAUSE_DURATION
    requires EmergencyWithdraw(Run(s, es), now, caller, to).Done?
    ensures caller == Run(s, es).cfg.admin && PausedSince(s, es, Run(s, es).cfg.pauseExpiry, i)
    ensures now < es[i].now + 518_400 || (es[i].now == 0 && Run(s, es[..i]).cfg.pauseDuration == 0)
  {
    i := PauseExpires(s, es, now);
  }

  /** The admin sets the pause duration to 0 and pauses, both at time 0. */
  function PauseAtZero(admin: Address): seq<Event> {
    [Event(0, Admin(admin, SetPauseDuration(0))), Event(0, Admin(admin, AdminOp.Pause))]
  }

  /** The endless pause is reachable from every unpaused state, a fresh contract among them. */
  lemma EndlessPauseReachable(s: State, now: nat)
    requires s.cfg.admin != Contract && !s.cfg.paused
    ensures IsPaused(Run(s, PauseAtZero(s.cfg.admin)).cfg, now)
  {
    var es := PauseAtZero(s.cfg.admin);
    var first := Event(0, Admin(s.cfg.admin, SetPauseDuration(0)));
    assert es[..1] == [first] && [first][..0] == [];
    assert Run(s, []) == s;
    assert Run(s, [first]) == s.(cfg := s.cfg.(pauseDuration := 0));
  }
}
