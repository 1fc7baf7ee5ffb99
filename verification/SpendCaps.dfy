/** The credit and dollar caps of an API key, over single reservations and over whole runs. */
module SpendCaps {
  import opened Prelude
  import opened Calendar
  import opened Periods
  import opened Ledger
  import opened LedgerInvariants
  import opened LedgerTheorems

  /** The key's spend in its current window is within both of its caps. */
  predicate WithinCaps(db: Db, key: nat) {
    var limits := db.limits(key);
    && (limits.credits.Some? ==> CreditsUsed(db, key) <= limits.credits.value)
    && (limits.usdCents.Some? ==> WithinUsd(db, WalletUsed(db, key), limits.usdCents.value))
  }

  /** A settlement of no more raw tokens than were reserved. */
  predicate Inside(db: Db, step: Step) {
    step.DoSettle? && step.id < |db.events| && db.events[step.id].Live(db.now)
    ==> step.prompt + step.completion <= db.events[step.id].rawTotal
  }

  predicate KeepsLimits(db: Db, step: Step, key: nat) {
    step.SetLimits? ==> step.limits(key) == db.limits(key)
  }

  lemma {:induction false} TotalPointwise(m: Measure, s: seq<Event>, n: Measure, t: seq<Event>)
    requires |s| == |t| && forall i | 0 <= i < |s| :: Weight(m, s[i]) <= Weight(n, t[i])
    ensures Total(m, s) <= Total(n, t)
  {
    if s != [] {
      var last := |s| - 1;
      TotalPointwise(m, s[..last], n, t[..last]);
    }
  }

  /** Open events have no negative size, and a credit cap, if there is one, is not negative. */
  ghost predicate Capped(db: Db, key: nat) {
    && (forall i | 0 <= i < |db.events| :: db.events[i].status == Reserved ==> 0 <= db.events[i].reserved)
    && (db.limits(key).credits.Some? ==> 0 <= db.limits(key).credits.value)
  }

  /** Reservations are made for counts that are not negative; what a settlement reports is free. */
  predicate SaneCall(step: Step) {
    step.DoReserve? ==> Sane(step.request)
  }

  /** Later in its life and at a later instant, an event weighs no more on its key. */
  predicate Shrinks(e: Event, f: Event, now: Instant) {
    && Successor(e, f)
    && (e.status == Reserved && f.status == Settled ==> e.Live(now) && f.charged <= e.reserved && f.wallet <= e.wallet)
  }

  lemma WindowStartMoves(limits: Limits, now: Instant, later: Instant)
    requires now.Valid() && later.Valid() && now.AtOrBefore(later)
    ensures limits.period != Never ==> WindowStart(limits, now).value.AtOrBefore(now)
    // a window that is not the old one starts after every instant up to now
    ensures WindowStart(limits, later) != WindowStart(limits, now) ==>
              WindowStart(limits, later).Some? && now.Before(WindowStart(limits, later).value)
  {
    if limits.period != Never {
      var window := LimitWindow(limits.period, now);
      LimitWindowsTile(limits.period, now, later);
      if window.end.AtOrBefore(later) {
        LimitWindowsTile(limits.period, window.end, later);
      }
    }
  }

  /**
   No spend appears but by a reservation: expiry, release and settlement inside only lower it,
   and a roll-over of the window clears it.
   */
  lemma SpendShrinks(db: Db, after: Db, key: nat)
    requires Inv(db) && Capped(db, key)
    requires after.now.Valid() && db.now.AtOrBefore(after.now) && after.limits(key) == db.limits(key)
    requires |after.events| == |db.events|
    requires forall i | 0 <= i < |db.events| :: Shrinks(db.events[i], after.events[i], db.now)
    ensures CreditsUsed(after, key) <= Max(0, CreditsUsed(db, key)) && WalletUsed(after, key) <= WalletUsed(db, key)
    ensures WindowStart(after.limits(key), after.now) == WindowStart(db.limits(key), db.now) ==>
              CreditsUsed(after, key) <= CreditsUsed(db, key)
  {
    hide Flow, LimitWindow;
    var limits := db.limits(key);
    var since, later := WindowStart(limits, db.now), WindowStart(limits, after.now);
    WindowStartMoves(limits, db.now, after.now);
    hide WindowStart;
    if since == later {
      forall i | 0 <= i < |db.events|
        ensures Weight(KeyCredits(key, since, after.now), after.events[i])
                  <= Weight(KeyCredits(key, since, db.now), db.events[i])
        ensures Weight(KeyWallet(key, since, after.now), after.events[i])
                  <= Weight(KeyWallet(key, since, db.now), db.events[i])
      {
        assert EventSound(db, db.events[i]) && Shrinks(db.events[i], after.events[i], db.now);
      }
      TotalPointwise(KeyCredits(key, since, after.now), after.events, KeyCredits(key, since, db.now), db.events);
      TotalPointwise(KeyWallet(key, since, after.now), after.events, KeyWallet(key, since, db.now), db.events);
    } else {
      forall e | e in after.events
        ensures Weight(KeyCredits(key, later, after.now), e) == 0 && Weight(KeyWallet(key, later, after.now), e) == 0
      {
        var i :| 0 <= i < |after.events| && after.events[i] == e;
        assert EventSound(db, db.events[i]) && Shrinks(db.events[i], after.events[i], db.now);
      }
      TotalZero(KeyCredits(key, later, after.now), after.events);
      TotalZero(KeyWallet(key, later, after.now), after.events);
      SpentWalletNonnegative(db, key);
    }
  }

  lemma SpentWalletNonnegative(db: Db, key: nat)
    requires Inv(db)
    ensures 0 <= WalletUsed(db, key)
  {
    hide Flow, WindowStart;
    var m := KeyWallet(key, WindowStart(db.limits(key), db.now), db.now);
    forall e | e in db.events
      ensures 0 <= Weight(m, e)
    {
      assert EventSound(db, e);
    }
    TotalNonnegative(m, db.events);
  }

  lemma CapsShrink(db: Db, after: Db, key: nat)
    requires WithinCaps(db, key) && after.limits(key) == db.limits(key) && after.centsPerMillion == db.centsPerMillion
    requires after.limits(key).credits.Some? ==> 0 <= after.limits(key).credits.value
    requires CreditsUsed(after, key) <= Max(0, CreditsUsed(db, key)) && WalletUsed(after, key) <= WalletUsed(db, key)
    ensures WithinCaps(after, key)
  {
    assert WalletUsed(after, key) * db.centsPerMillion <= WalletUsed(db, key) * db.centsPerMillion;
  }

  lemma ExpireShrinks(db: Db, user: Option<nat>, key: nat)
    requires Inv(db) && Capped(db, key)
    ensures db.Linked() && Capped(ExpireStale(db, user), key)
    ensures CreditsUsed(ExpireStale(db, user), key) <= CreditsUsed(db, key)
    ensures WalletUsed(ExpireStale(db, user), key) <= WalletUsed(db, key)
  {
    ExpireKeeps(db, user);
    SpendShrinks(db, ExpireStale(db, user), key);
  }

  /** What a granted reservation adds to the spend of the key it is made with, and to no other. */
  lemma ReserveInSpend(db: Db, r: Request, period: nat, key: nat)
    requires Inv(db) && period < |db.periods| && db.periods[period].user == r.user
    requires forall e | e in db.events :: e.user == r.user ==> e.requestId != r.requestId
    requires db.Linked() && ReserveIn(db, r, period).1.Granted?
    ensures var (after, outcome) := ReserveIn(db, r, period);
            var e := after.events[outcome.id];
            var adds := key == r.key && db.now.Before(r.expiresAt);
            && 0 <= e.wallet
            && CreditsUsed(after, key) == CreditsUsed(db, key) + (if adds then e.reserved else 0)
            && WalletUsed(after, key) == WalletUsed(db, key) + (if adds then e.wallet else 0)
  {
    hide Flow, LimitWindow;
    var (after, outcome) := ReserveIn(db, r, period);
    ReserveInKeeps(db, r, period);
    var e := after.events[outcome.id];
    assert EventSound(after, e);
    var since := WindowStart(db.limits(key), db.now);
    WindowStartMoves(db.limits(key), db.now, db.now);
    TotalAppend(KeyCredits(key, since, db.now), db.events, e);
    TotalAppend(KeyWallet(key, since, db.now), db.events, e);
  }

  /** The check in front of a grant, seen from the state in which the reservation is priced. */
  lemma GrantedWithinCaps(db: Db, r: Request, period: nat)
    requires Inv(db) && period < |db.periods|
    requires db.Linked() && ReserveIn(db, r, period).1.Granted?
    ensures var limits := db.limits(r.key);
            && (limits.credits.Some? ==> CreditsUsed(db, r.key) + RequestCharge(db, r) <= limits.credits.value)
            && (limits.usdCents.Some? && RequestSplit(db, r, period).wallet > 0 ==>
                  WithinUsd(db, WalletUsed(db, r.key) + RequestSplit(db, r, period).wallet, limits.usdCents.value))
  {
  }

  lemma ReserveInKeepsCaps(db: Db, r: Request, period: nat, key: nat)
    requires Inv(db) && period < |db.periods| && db.periods[period].user == r.user
    requires forall e | e in db.events :: e.user == r.user ==> e.requestId != r.requestId
    requires db.Linked() && ReserveIn(db, r, period).1.Granted? && WithinCaps(db, key)
    ensures WithinCaps(ReserveIn(db, r, period).0, key)
  {
    hide Total, Flow, LimitWindow;
    ReserveInKeeps(db, r, period);
    ReserveInSpend(db, r, period, key);
    GrantedWithinCaps(db, r, period);
  }

  /** The credits of the key after a grant, and its wallet dollars after a grant that draws on the wallet. */
  predicate Respected(after: Db, id: nat)
    requires id < |after.events|
  {
    var e := after.events[id];
    var limits := after.limits(e.key);
    && (limits.credits.Some? ==> CreditsUsed(after, e.key) <= limits.credits.value)
    && (limits.usdCents.Some? && e.wallet > 0 ==> WithinUsd(after, WalletUsed(after, e.key), limits.usdCents.value))
  }

  lemma ReserveInRespectsCaps(db: Db, r: Request, period: nat)
    requires Inv(db) && Sane(r) && period < |db.periods| && db.periods[period].user == r.user
    requires forall e | e in db.events :: e.user == r.user ==> e.requestId != r.requestId
    requires db.Linked() && ReserveIn(db, r, period).1.Granted?
    ensures Respected(ReserveIn(db, r, period).0, ReserveIn(db, r, period).1.id)
  {
    hide Total, Flow, LimitWindow;
    ReserveInKeeps(db, r, period);
    ReserveInSpend(db, r, period, r.key);
    GrantedWithinCaps(db, r, period);
    RequestSplitSound(db, r, period);
    var after := ReserveIn(db, r, period).0;
    var wallet := RequestSplit(db, r, period).wallet;
    assert WalletUsed(after, r.key) * db.centsPerMillion <= (WalletUsed(db, r.key) + wallet) * db.centsPerMillion;
  }

  /**
   Each granted reservation leaves its key's credits within the credit cap and, when it draws
   on the wallet, the wallet dollars within the dollar cap, whatever happened before.
   */
  lemma ReserveRespectsCaps(db: Db, r: Request)
    requires Inv(db) && Sane(r) && db.Linked() && Reserve(db, r).1.Granted?
    ensures Respected(Reserve(db, r).0, Reserve(db, r).1.id)
    ensures Reserve(db, r).0.events[Reserve(db, r).1.id].key == r.key
  {
    var current, period := ReserveUnfolds(db, r);
    ReserveInKeeps(current, r, period);
    ReserveInRespectsCaps(current, r, period);
  }

  lemma ReserveKeepsCaps(db: Db, r: Request, key: nat)
    requires Inv(db) && Capped(db, key) && Sane(r) && WithinCaps(db, key)
    ensures db.Linked() && WithinCaps(Reserve(db, r).0, key)
  {
    ExpireShrinks(db, Some(r.user), key);
    ExpireKeeps(db, Some(r.user));
    var expired := ExpireStale(db, Some(r.user));
    CapsShrink(db, expired, key);
    if FindEvent(expired.events, r.user, r.requestId).None? {
      var current, period := ReserveUnfolds(db, r);
      CapsShrink(db, current, key);
      ReserveInKeeps(current, r, period);
      if Reserve(db, r).1.Granted? {
        ReserveInKeepsCaps(current, r, period, key);
      } else {
        CapsShrink(current, Reserve(db, r).0, key);
      }
    }
  }

  lemma SettleShrinks(db: Db, id: nat, prompt: int, completion: int, key: nat)
    requires Inv(db) && Capped(db, key) && id < |db.events|
    requires Inside(db, DoSettle(id, prompt, completion))
    ensures db.Linked()
    ensures CreditsUsed(Settle(db, id, prompt, completion).0, key) <= CreditsUsed(db, key)
    ensures WalletUsed(Settle(db, id, prompt, completion).0, key) <= WalletUsed(db, key)
  {
    hide SettleLive, ExpireStale, Total, Flow;
    SettleEvolves(db, id, prompt, completion);
    var after := Settle(db, id, prompt, completion).0;
    if db.events[id].Live(db.now) {
      SettleInsideReservation(db, id, prompt, completion);
      SettleElsewhere(db, id, prompt, completion);
      SpendShrinks(db, after, key);
    } else {
      ExpireShrinks(db, Some(db.events[id].user), key);
    }
  }

  lemma SettleElsewhere(db: Db, id: nat, prompt: int, completion: int)
    requires db.Linked() && id < |db.events| && db.events[id].Live(db.now)
    ensures |Settle(db, id, prompt, completion).0.events| == |db.events|
    ensures forall i | 0 <= i < |db.events| && i != id :: Settle(db, id, prompt, completion).0.events[i] == db.events[i]
  {
    hide ChargedTokens;
  }

  /** What a settlement adds to the spend of its key: the overrun, if the event counts in the key's window. */
  function Overrun(db: Db, id: nat, prompt: int, completion: int): (credits: int)
    requires id < |db.events|
  {
    var e := db.events[id];
    if Counted(e, WindowStart(db.limits(e.key), db.now)) then FinalCharge(db, id, prompt, completion) - e.reserved
    else 0
  }

  function WalletOverrun(db: Db, id: nat, prompt: int, completion: int): (tokens: int)
    requires db.Linked() && id < |db.events|
  {
    var e := db.events[id];
    if Counted(e, WindowStart(db.limits(e.key), db.now)) then FinalSplit(db, id, prompt, completion).wallet - e.wallet
    else 0
  }

  /** Beyond its reservation a settlement moves the spend by exactly the overrun, and no cap is consulted. */
  lemma SettleSpendExact(db: Db, id: nat, prompt: int, completion: int)
    requires Inv(db) && id < |db.events| && db.events[id].Live(db.now)
    requires db.Linked() && Settle(db, id, prompt, completion).1 == Closed
    ensures var key := db.events[id].key;
            var after := Settle(db, id, prompt, completion).0;
            && CreditsUsed(after, key) == CreditsUsed(db, key) + Overrun(db, id, prompt, completion)
            && WalletUsed(after, key) == WalletUsed(db, key) + WalletOverrun(db, id, prompt, completion)
            && SameSettings(db, after)
  {
    hide Total, Flow, WindowStart, Inv, ChargedTokens;
    var e := db.events[id];
    var after := SettleLive(db, id, prompt, completion).0;
    var since := WindowStart(db.limits(e.key), db.now);
    TotalUpdate(KeyCredits(e.key, since, db.now), db.events, id, after.events[id]);
    TotalUpdate(KeyWallet(e.key, since, db.now), db.events, id, after.events[id]);
  }

  /** Exactly when a settlement leaves its key within the caps: spend and overrun together must be within both. */
  lemma SettleCapsExact(db: Db, id: nat, prompt: int, completion: int)
    requires Inv(db) && id < |db.events| && db.events[id].Live(db.now)
    requires db.Linked() && Settle(db, id, prompt, completion).1 == Closed
    ensures var key := db.events[id].key;
            var limits := db.limits(key);
            WithinCaps(Settle(db, id, prompt, completion).0, key) <==>
              && (limits.credits.Some? ==>
                    CreditsUsed(db, key) + Overrun(db, id, prompt, completion) <= limits.credits.value)
              && (limits.usdCents.Some? ==>
                    WithinUsd(db, WalletUsed(db, key) + WalletOverrun(db, id, prompt, completion),
                        limits.usdCents.value))
  {
    hide Settle, CreditsUsed, WalletUsed, Overrun, WalletOverrun, Inv;
    SettleSpendExact(db, id, prompt, completion);
  }

  lemma StepKeepsCapped(db: Db, step: Step, key: nat)
    requires Inv(db) && Capped(db, key) && SaneCall(step) && KeepsLimits(db, step, key)
    ensures db.Linked() && Capped(Apply(db, step), key)
  {
    hide Total, Flow, Reserve, Settle, Release, Recalculate, ExpireStale;
    StepKeeps(db, step);
    StepEvents(db, step);
    LimitsStay(db, step, key);
    var after := Apply(db, step);
    forall i | 0 <= i < |after.events| && after.events[i].status == Reserved
      ensures 0 <= after.events[i].reserved
    {
      if i < |db.events| {
        assert Successor(db.events[i], after.events[i]);
      } else {
        NewEventIsSized(db, step, i);
      }
    }
  }

  lemma NewEventIsSized(db: Db, step: Step, i: nat)
    requires Inv(db) && SaneCall(step) && db.Linked() && |db.events| <= i < |Apply(db, step).events|
    ensures 0 <= Apply(db, step).events[i].reserved
  {
    hide Total, Flow, Settle, Release, Recalculate, ExpireStale, Reserve, Inv;
    match step
    case DoReserve(r) => ReservedIsSized(db, r);
    case DoSettle(id, prompt, completion) => if id < |db.events| { SettleEvolves(db, id, prompt, completion); }
    case DoRelease(id) => if id < |db.events| { ReleaseEvolves(db, id); }
    case DoExpire(user) => ExpireEvolves(db, user);
    case DoRecalculate(user) => RecalculateEvolves(db, user);
    case _ =>
  }

  lemma ReservedIsSized(db: Db, r: Request)
    requires Inv(db) && Sane(r)
    ensures db.Linked()
    ensures forall i | |db.events| <= i < |Reserve(db, r).0.events| :: 0 <= Reserve(db, r).0.events[i].reserved
  {
    hide Total, Flow, Recalculate, ExpireStale, ReserveIn, RequestSplit, ChargedTokens, Inv;
    ReserveEvents(db, r);
    if Reserve(db, r).1.Granted? {
      var current, period := ReserveUnfolds(db, r);
      ReserveInAppends(current, r, period);
      ChargeIsMonotone(r.prompt + r.maxCompletion, r.prompt + r.maxCompletion, current.prices(r.model));
    }
  }

  lemma LimitsStay(db: Db, step: Step, key: nat)
    requires Inv(db) && KeepsLimits(db, step, key)
    ensures db.Linked() && Apply(db, step).limits(key) == db.limits(key)
    ensures Apply(db, step).centsPerMillion == db.centsPerMillion
  {
    hide Total, Flow, Reserve, Settle, Release, Recalculate, ExpireStale;
    LinkedWhenSound(db);
    match step
    case DoReserve(r) => ReserveEvents(db, r);
    case DoSettle(id, prompt, completion) => if id < |db.events| { SettleEvolves(db, id, prompt, completion); }
    case DoRelease(id) => if id < |db.events| { ReleaseEvolves(db, id); }
    case DoExpire(user) => ExpireKeeps(db, user);
    case DoRecalculate(user) => RecalculateEvolves(db, user);
    case _ =>
  }

  lemma StepKeepsCaps(db: Db, step: Step, key: nat)
    requires Inv(db) && Capped(db, key) && WithinCaps(db, key)
    requires SaneCall(step) && Inside(db, step) && KeepsLimits(db, step, key)
    ensures db.Linked() && WithinCaps(Apply(db, step), key)
  {
    hide Total, Flow, Reserve, Settle, LimitWindow, CreditsUsed, WalletUsed, Shrinks, Release, Recalculate, ExpireStale;
    LinkedWhenSound(db);
    LimitsStay(db, step, key);
    var after := Apply(db, step);
    match step
    case DoReserve(r) => ReserveKeepsCaps(db, r, key);
    case DoSettle(id, prompt, completion) =>
      if id < |db.events| {
        SettleShrinks(db, id, prompt, completion, key);
        CapsShrink(db, after, key);
      }
    case DoRelease(id) =>
      if id < |db.events| {
        ReleaseShrinks(db, id, key);
        CapsShrink(db, after, key);
      }
    case DoExpire(user) =>
      ExpireShrinks(db, user, key);
      CapsShrink(db, after, key);
    case DoRecalculate(user) =>
      RecalculateShrinks(db, user, key);
      CapsShrink(db, after, key);
    case _ =>
      QuietShrinks(db, after, key);
      CapsShrink(db, after, key);
  }

  lemma ReleaseShrinks(db: Db, id: nat, key: nat)
    requires Inv(db) && Capped(db, key) && id < |db.events|
    ensures db.Linked()
    ensures CreditsUsed(Release(db, id), key) <= CreditsUsed(db, key)
    ensures WalletUsed(Release(db, id), key) <= WalletUsed(db, key)
  {
    hide Total, Flow, ExpireStale;
    ReleaseEvolves(db, id);
    ReleaseNeverSettles(db, id);
    SpendShrinks(db, Release(db, id), key);
  }

  lemma RecalculateShrinks(db: Db, user: nat, key: nat)
    requires Inv(db) && Capped(db, key)
    ensures db.Linked()
    ensures CreditsUsed(Recalculate(db, user).0, key) <= CreditsUsed(db, key)
    ensures WalletUsed(Recalculate(db, user).0, key) <= WalletUsed(db, key)
  {
    hide Total, Flow, Recalculate, ExpireStale;
    ExpireShrinks(db, Some(user), key);
    ExpireKeeps(db, Some(user));
    RecalculateKeeps(db, user);
  }

  lemma QuietShrinks(db: Db, after: Db, key: nat)
    requires Inv(db) && Capped(db, key) && after.events == db.events
    requires after.now.Valid() && db.now.AtOrBefore(after.now) && after.limits(key) == db.limits(key)
    ensures CreditsUsed(after, key) <= Max(0, CreditsUsed(db, key)) && WalletUsed(after, key) <= WalletUsed(db, key)
  {
    hide Total, Flow;
    SpendShrinks(db, after, key);
  }

  lemma ReleaseNeverSettles(db: Db, id: nat)
    requires Inv(db) && id < |db.events|
    ensures db.Linked() && |Release(db, id).events| == |db.events|
    ensures forall i | 0 <= i < |db.events| ::
              db.events[i].status == Reserved ==> Release(db, id).events[i].status != Settled
  {
    LinkedWhenSound(db);
    ExpireKeeps(db, Some(db.events[id].user));
  }

  ghost predicate InsideWithFixedLimits(key: nat, db: Db, step: Step) {
    SaneCall(step) && Inside(db, step) && KeepsLimits(db, step, key)
  }

  lemma {:induction false} RunKeepsCaps(db: Db, steps: seq<Step>, key: nat)
    requires Inv(db) && Capped(db, key) && WithinCaps(db, key)
    requires db.Linked() && Along(db, steps, (d, step) => InsideWithFixedLimits(key, d, step))
    ensures WithinCaps(Run(db, steps), key)
    decreases |steps|
  {
    hide Apply, WithinCaps, Capped, Inv;
    if steps != [] {
      StepKeeps(db, steps[0]);
      StepKeepsCapped(db, steps[0], key);
      StepKeepsCaps(db, steps[0], key);
      RunKeepsCaps(Apply(db, steps[0]), steps[1..], key);
    }
  }

  lemma {:induction false} AlongPrefix(db: Db, steps: seq<Step>, ok: (Db, Step) -> bool, k: nat)
    requires db.Linked() && Along(db, steps, ok) && k <= |steps|
    ensures Along(db, steps[..k], ok)
    decreases k
  {
    if k > 0 {
      AlongPrefix(Apply(db, steps[0]), steps[1..], ok, k - 1);
      assert steps[..k][1..] == steps[1..][..k - 1];
    }
  }

  /**
   Caps hold over whole runs: while the key's limits stay fixed and settlements stay inside
   their reservations, the key is within both caps at every point of the run, across
   expiry and across the roll-over of its window.
   */
  lemma CapsHoldThroughout(db: Db, steps: seq<Step>, key: nat, k: nat)
    requires Inv(db) && Capped(db, key) && WithinCaps(db, key)
    requires db.Linked() && Along(db, steps, (d, step) => InsideWithFixedLimits(key, d, step)) && k <= |steps|
    ensures WithinCaps(Run(db, steps[..k]), key)
  {
    hide WithinCaps, Capped, Inv;
    AlongPrefix(db, steps, (d, step) => InsideWithFixedLimits(key, d, step), k);
    RunKeepsCaps(db, steps[..k], key);
  }
}
