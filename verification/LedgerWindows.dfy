/** The usage-period rows of a user with fixed anchors: one row per window, and the windows never overlap. */
module LedgerWindows {
  import opened Prelude
  import opened Calendar
  import opened Periods
  import opened Ledger
  import opened LedgerInvariants
  import opened LedgerTheorems

  /** The window is the period of each of its instants. */
  ghost predicate IsPeriod(mode: Mode, w: Window) {
    forall t: Instant | t.Valid() && w.Holds(t) :: PeriodOf(mode, t) == w
  }

  /** Every row is for a period of its user's mode. */
  ghost predicate Anchored(db: Db, modes: nat -> Mode) {
    forall p | 0 <= p < |db.periods| :: IsPeriod(modes(db.periods[p].user), db.periods[p].window)
  }

  /** The user whose current period a step looks up, if it does. */
  function Opens(step: Step): Option<nat> {
    match step
    case DoReserve(r) => Some(r.user)
    case DoRecalculate(user) => Some(user)
    case _ => None
  }

  /** The window a step looks up is the period of its instant. */
  predicate OnTime(modes: nat -> Mode, db: Db, step: Step) {
    Opens(step).Some? ==> db.accounts(Opens(step).value).window == PeriodOf(modes(Opens(step).value), db.now)
  }

  /** Rows keep their user and window; a further row is for this user's current window. */
  ghost predicate RowsFrom(db: Db, after: Db, user: Option<nat>) {
    forall p | 0 <= p < |after.periods| ::
      if p < |db.periods|
      then after.periods[p].user == db.periods[p].user && after.periods[p].window == db.periods[p].window
      else user == Some(after.periods[p].user) && after.periods[p].window == db.accounts(user.value).window
  }

  lemma RecalculateRows(db: Db, user: nat)
    requires Inv(db)
    ensures db.Linked() && RowsFrom(db, Recalculate(db, user).0, Some(user))
  {
    hide Total, Flow, ExpireStale;
    ExpireKeeps(db, Some(user));
    var expired := ExpireStale(db, Some(user));
    assert RowsFrom(expired, OpenPeriod(expired, user).0, Some(user));
  }

  lemma ReserveRows(db: Db, r: Request)
    requires Inv(db)
    ensures db.Linked() && RowsFrom(db, Reserve(db, r).0, Some(r.user))
  {
    hide Total, Flow, ExpireStale, Recalculate, CapRefusal, RequestSplit, ChargedTokens;
    ExpireKeeps(db, Some(r.user));
    if FindEvent(ExpireStale(db, Some(r.user)).events, r.user, r.requestId).None? {
      var expired := ExpireStale(db, Some(r.user));
      RecalculateRows(expired, r.user);
      var (current, period) := Recalculate(expired, r.user);
      assert RowsFrom(current, ReserveIn(current, r, period).0, None);
    }
  }

  lemma SettleRows(db: Db, id: nat, prompt: int, completion: int)
    requires Inv(db) && id < |db.events|
    ensures db.Linked() && RowsFrom(db, Settle(db, id, prompt, completion).0, None)
  {
    hide Total, Flow, ExpireStale, ChargedTokens;
    LinkedWhenSound(db);
    ExpireKeeps(db, Some(db.events[id].user));
  }

  lemma ReleaseRows(db: Db, id: nat)
    requires Inv(db) && id < |db.events|
    ensures db.Linked() && RowsFrom(db, Release(db, id), None)
  {
    hide Total, Flow, ExpireStale;
    LinkedWhenSound(db);
    ExpireKeeps(db, Some(db.events[id].user));
  }

  lemma StepRows(db: Db, step: Step)
    requires Inv(db)
    ensures db.Linked() && RowsFrom(db, Apply(db, step), Opens(step))
  {
    hide Inv, Reserve, Settle, Release, Recalculate, ExpireStale;
    StepLinked(db);
    match step
    case DoReserve(r) => ReserveRows(db, r);
    case DoSettle(id, prompt, completion) => if id < |db.events| { SettleRows(db, id, prompt, completion); }
    case DoRelease(id) => if id < |db.events| { ReleaseRows(db, id); }
    case DoExpire(user) => ExpireKeeps(db, user);
    case DoRecalculate(user) => RecalculateRows(db, user);
    case _ =>
  }

  lemma StepKeepsAnchored(db: Db, step: Step, modes: nat -> Mode)
    requires Inv(db) && Anchored(db, modes) && OnTime(modes, db, step) && forall user: nat :: modes(user).Valid()
    ensures db.Linked() && Anchored(Apply(db, step), modes)
  {
    hide Apply, PeriodOf, IsPeriod;
    StepRows(db, step);
    if Opens(step).Some? {
      PeriodIsPeriod(modes(Opens(step).value), db.now);
    }
  }

  lemma PeriodIsPeriod(mode: Mode, now: Instant)
    requires mode.Valid() && now.Valid()
    ensures IsPeriod(mode, PeriodOf(mode, now))
  {
    PeriodsTileTime(mode, now);
  }

  lemma {:induction false} RunKeepsAnchored(db: Db, steps: seq<Step>, modes: nat -> Mode)
    requires Inv(db) && Anchored(db, modes) && forall user: nat :: modes(user).Valid()
    requires db.Linked() && Along(db, steps, (d, step) => OnTime(modes, d, step))
    ensures Anchored(Run(db, steps), modes)
    decreases |steps|
  {
    hide Inv, Apply, Anchored, OnTime;
    if steps != [] {
      StepKeeps(db, steps[0]);
      StepKeepsAnchored(db, steps[0], modes);
      RunKeepsAnchored(Apply(db, steps[0]), steps[1..], modes);
    }
  }

  /**
   With fixed anchors, along every run that looks windows up at their time, two period rows of a
   user never hold the same instant: there is one row per window, and none for overlapping ones.
   */
  lemma PeriodRowsNeverOverlap(db: Db, steps: seq<Step>, modes: nat -> Mode, p: nat, q: nat, t: Instant)
    requires Inv(db) && Anchored(db, modes) && forall user: nat :: modes(user).Valid()
    requires db.Linked() && Along(db, steps, (d, step) => OnTime(modes, d, step))
    requires p < q < |Run(db, steps).periods| && Run(db, steps).periods[p].user == Run(db, steps).periods[q].user
    requires t.Valid()
    ensures !(Run(db, steps).periods[p].window.Holds(t) && Run(db, steps).periods[q].window.Holds(t))
  {
    hide PeriodOf, Run;
    RunKeepsAnchored(db, steps, modes);
    RunKeeps(db, steps);
    var after := Run(db, steps);
    assert IsPeriod(modes(after.periods[p].user), after.periods[p].window);
    assert IsPeriod(modes(after.periods[q].user), after.periods[q].window);
  }
}
