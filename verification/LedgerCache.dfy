/**
 The cached counters of the usage periods against the event ledger. Every counter update clamps at
 zero; this module says, for any counts, exactly when a step leaves the counters equal to the ledger.
 */
module LedgerCache {
  import opened Prelude
  import opened Calendar
  import opened Periods
  import opened Ledger
  import opened LedgerInvariants

  /** How far a period's counter is above what the ledger says. */
  function Drift(db: Db, p: nat): int
    requires p < |db.periods|
  {
    db.periods[p].used - Total(PeriodShare(p), db.events)
  }

  /** The allowance slice an open event holds. */
  function Share(e: Event): int {
    e.reserved - e.wallet
  }

  // ---- one event changes ----

  lemma ReplaceDrift(db: Db, after: Db, id: nat, f: Event, used: int, p: nat)
    requires db.Linked() && id < |db.events| && SameIdentity(db.events[id], f) && p < |db.periods|
    requires after.events == db.events[id := f]
    requires after.periods == db.periods[f.period := SetUsed(db.periods[f.period], used)]
    ensures Drift(after, p) == Drift(db, p)
         + if p != f.period then 0
           else used - db.periods[p].used + Weight(PeriodShare(p), db.events[id]) - Weight(PeriodShare(p), f)
  {
    TotalUpdate(PeriodShare(p), db.events, id, f);
  }

  /** Giving a reservation back never lowers the drift, and raises it by what the clamp cuts off. */
  lemma CloseDrift(db: Db, id: nat, status: Status, p: nat)
    requires db.Linked() && id < |db.events| && db.events[id].status == Reserved && p < |db.periods|
    requires status == Released || status == Expired
    ensures |CloseReservation(db, id, status).periods| == |db.periods|
    ensures Drift(CloseReservation(db, id, status), p) == Drift(db, p)
         + if p == db.events[id].period then Max(0, Share(db.events[id]) - db.periods[p].used) else 0
  {
    hide Total;
    var e := db.events[id];
    var used := Max(0, db.periods[e.period].used - Share(e));
    ReplaceDrift(db, CloseReservation(db, id, status), id, e.(status := status), used, p);
  }

  // ---- expiry ----

  /** What the overdue reservations among the first `n` events give back to a period. */
  function Returned(db: Db, user: Option<nat>, p: nat, n: nat): int
    requires n <= |db.events|
  {
    if n == 0 then 0
    else
      Returned(db, user, p, n - 1)
      + if Overdue(db, user, n - 1) && db.events[n - 1].period == p then Share(db.events[n - 1]) else 0
  }

  /** At each overdue reservation of the period, what has been given back by then is no more than the counter. */
  ghost predicate Fits(db: Db, user: Option<nat>, p: nat, n: nat)
    requires p < |db.periods| && n <= |db.events|
  {
    forall i: nat | i < n && Overdue(db, user, i) && db.events[i].period == p ::
      Returned(db, user, p, i + 1) <= db.periods[p].used
  }

  ghost predicate AllFit(db: Db, user: Option<nat>) {
    forall p: nat | p < |db.periods| :: Fits(db, user, p, |db.events|)
  }

  /** Expiry never lowers the drift of a period, and keeps it exactly when everything given back fits. */
  lemma {:induction false} ExpireDrift(db: Db, user: Option<nat>, p: nat, n: nat)
    requires db.Linked() && p < |db.periods| && n <= |db.events|
    ensures |ExpireUpTo(db, user, n).periods| == |db.periods|
    ensures Drift(db, p) <= Drift(ExpireUpTo(db, user, n), p)
    ensures Drift(db, p) == Drift(ExpireUpTo(db, user, n), p) <==> Fits(db, user, p, n)
    ensures Fits(db, user, p, n) ==>
              ExpireUpTo(db, user, n).periods[p].used == db.periods[p].used - Returned(db, user, p, n)
  {
    hide Total, CloseReservation, Drift;
    if n > 0 {
      ExpireUpToEffect(db, user, n - 1);
      ExpireDrift(db, user, p, n - 1);
      FitsExtends(db, user, p, n);
      var before := ExpireUpTo(db, user, n - 1);
      if Overdue(before, user, n - 1) {
        hide ExpireUpTo, Fits;
        CloseDrift(before, n - 1, Expired, p);
        CloseUsed(before, n - 1, Expired, p);
      }
    }
  }

  lemma FitsExtends(db: Db, user: Option<nat>, p: nat, n: nat)
    requires p < |db.periods| && 0 < n <= |db.events|
    ensures Fits(db, user, p, n) <==>
            && Fits(db, user, p, n - 1)
            && (Overdue(db, user, n - 1) && db.events[n - 1].period == p ==>
                  Returned(db, user, p, n) <= db.periods[p].used)
  {
  }

  lemma CloseUsed(db: Db, id: nat, status: Status, p: nat)
    requires db.Linked() && id < |db.events| && p < |db.periods|
    ensures CloseReservation(db, id, status).periods[p].used
         == if p == db.events[id].period then Max(0, db.periods[p].used - Share(db.events[id])) else db.periods[p].used
  {
  }

  lemma ExpireCacheExact(db: Db, user: Option<nat>)
    requires Inv(db) && Cached(db)
    ensures db.Linked() && (Cached(ExpireStale(db, user)) <==> AllFit(db, user))
  {
    LinkedWhenSound(db);
    forall p: nat | p < |db.periods|
      ensures |ExpireStale(db, user).periods| == |db.periods|
      ensures CachedAt(ExpireStale(db, user), p) <==> Fits(db, user, p, |db.events|)
    {
      ExpireDrift(db, user, p, |db.events|);
      assert CachedAt(db, p);
    }
    ExpireUpToEffect(db, user, |db.events|);
  }

  // ---- recalculation ----

  /** The period a recalculation for this user recounts. */
  predicate IsCurrent(db: Db, user: nat, p: nat)
    requires p < |db.periods|
  {
    db.periods[p].user == user && db.periods[p].window == db.accounts(user).window
  }

  ghost predicate OthersFit(db: Db, user: nat) {
    forall p: nat | p < |db.periods| && !IsCurrent(db, user, p) :: Fits(db, Some(user), p, |db.events|)
  }

  lemma OpenDrift(db: Db, user: nat, p: nat)
    requires db.Linked() && p < |OpenPeriod(db, user).0.periods|
    ensures |db.periods| <= |OpenPeriod(db, user).0.periods|
    ensures Drift(OpenPeriod(db, user).0, p) == if p < |db.periods| then Drift(db, p) else 0
  {
    if p >= |db.periods| {
      TotalZero(PeriodShare(p), db.events);
    }
  }

  /** The recount makes the current period exact, whatever its counter was; the others must survive the expiry. */
  lemma RecalculateCacheExact(db: Db, user: nat)
    requires Inv(db) && Cached(db)
    ensures db.Linked() && (Cached(Recalculate(db, user).0) <==> OthersFit(db, user))
  {
    hide Total, Flow, Fits;
    RecalculateKeeps(db, user);
    ExpireKeeps(db, Some(user));
    var expired := ExpireStale(db, Some(user));
    OpenKeeps(expired, user);
    var (current, id) := OpenPeriod(expired, user);
    RefreshKeeps(current, id);
    var after := Recalculate(db, user).0;
    forall p: nat | p < |after.periods|
      ensures CachedAt(after, p) <==>
                p < |db.periods| && !IsCurrent(db, user, p) ==> Fits(db, Some(user), p, |db.events|)
    {
      OpenDrift(expired, user, p);
      if p < |db.periods| {
        ExpireDrift(db, Some(user), p, |db.events|);
        assert CachedAt(db, p);
        assert IsCurrent(db, user, p) <==> p == id;
      }
    }
  }

  // ---- reserve ----

  /** A grant raises the counter of its period by exactly the event's share. */
  lemma ReserveInDrift(db: Db, r: Request, period: nat, p: nat)
    requires db.Linked() && period < |db.periods| && p < |db.periods|
    ensures |ReserveIn(db, r, period).0.periods| == |db.periods|
    ensures Drift(ReserveIn(db, r, period).0, p) == Drift(db, p)
  {
    hide Total, Flow, ChargedTokens, CapRefusal;
    if ReserveIn(db, r, period).1.Granted? {
      ReserveInAppends(db, r, period);
      TotalAppend(PeriodShare(p), db.events,
                  NewEvent(db, r, period, RequestCharge(db, r), RequestSplit(db, r, period).wallet));
    }
  }

  lemma ReserveInKeepsCached(db: Db, r: Request, period: nat)
    requires db.Linked() && period < |db.periods|
    ensures Cached(ReserveIn(db, r, period).0) <==> Cached(db)
  {
    forall p: nat | p < |db.periods|
      ensures |ReserveIn(db, r, period).0.periods| == |db.periods|
      ensures CachedAt(ReserveIn(db, r, period).0, p) <==> CachedAt(db, p)
    {
      ReserveInDrift(db, r, period, p);
    }
  }

  /** The user has used this request id before. */
  predicate Known(db: Db, r: Request) {
    exists i :: 0 <= i < |db.events| && db.events[i].user == r.user && db.events[i].requestId == r.requestId
  }

  lemma KnownIsFound(db: Db, r: Request)
    requires Inv(db)
    ensures db.Linked()
              && (FindEvent(ExpireStale(db, Some(r.user)).events, r.user, r.requestId).Some? <==> Known(db, r))
  {
    hide Total, Flow;
    ExpireKeeps(db, Some(r.user));
    var expired := ExpireStale(db, Some(r.user));
    forall i | 0 <= i < |db.events|
      ensures SameIdentity(db.events[i], expired.events[i]) && expired.events[i] in expired.events
    {
    }
  }

  lemma ReserveCacheExact(db: Db, r: Request)
    requires Inv(db) && Cached(db)
    ensures db.Linked()
    ensures Cached(Reserve(db, r).0) <==> if Known(db, r) then AllFit(db, Some(r.user)) else OthersFit(db, r.user)
  {
    hide Total, Flow, ReserveIn, Recalculate, Fits;
    KnownIsFound(db, r);
    ExpireCacheExact(db, Some(r.user));
    if !Known(db, r) {
      var current, period := ReserveUnfolds(db, r);
      ReserveInKeepsCached(current, r, period);
      RecalculateAgain(db, r.user);
      RecalculateCacheExact(db, r.user);
    }
  }

  /** After an expiry, recalculation finds nothing more to expire. */
  lemma RecalculateAgain(db: Db, user: nat)
    requires Inv(db)
    ensures db.Linked() && ExpireStale(db, Some(user)).Linked()
    ensures Recalculate(ExpireStale(db, Some(user)), user) == Recalculate(db, user)
  {
    ExpireKeeps(db, Some(user));
    ExpireIsIdempotent(ExpireStale(db, Some(user)), Some(user));
  }

  // ---- settle and release ----

  /** A metered user cannot pay the final charge, even with what the event itself holds. */
  predicate Unaffordable(db: Db, id: nat, prompt: int, completion: int)
    requires db.Linked() && id < |db.events|
  {
    var e := db.events[id];
    && !db.accounts(e.user).unlimited
    && FinalCharge(db, id, prompt, completion) > db.periods[e.period].remaining + db.Balance(e.user) + e.reserved
  }

  /** When the counter follows the settlement of a live event. */
  predicate SettleFits(db: Db, id: nat, prompt: int, completion: int)
    requires db.Linked() && id < |db.events|
  {
    var e := db.events[id];
    var used := db.periods[e.period].used;
    if FailsAssertion(db, id) then Max(0, used - Share(e) + FinalCharge(db, id, prompt, completion)) == used
    else Unaffordable(db, id, prompt, completion) || Share(e) - FinalSplit(db, id, prompt, completion).allowance <= used
  }

  /** The refusal for funds, for any counts. */
  lemma SettleRefusedExact(db: Db, id: nat, prompt: int, completion: int)
    requires Inv(db) && id < |db.events| && db.events[id].Live(db.now)
    ensures db.Linked()
    ensures SettleLive(db, id, prompt, completion).1
         == if FailsAssertion(db, id) then AssertionFailed
            else if Unaffordable(db, id, prompt, completion) then Refused(InsufficientBalance)
            else Closed
  {
    hide Total, Flow, ChargedTokens;
    LinkedWhenSound(db);
    FinalSplitSound(db, id, prompt, completion);
    SettleLiveKeeps(db, id, prompt, completion);
    assert EventSound(db, db.events[id]);
    assert 0 <= db.Balance(db.events[id].user);
  }

  /** What a settlement does to the drift of its period: only a clamp or the failed assertion moves it. */
  lemma SettleLiveDrift(db: Db, id: nat, prompt: int, completion: int, p: nat)
    requires Inv(db) && id < |db.events| && db.events[id].Live(db.now) && p < |db.periods|
    ensures db.Linked() && |SettleLive(db, id, prompt, completion).0.periods| == |db.periods|
    ensures var e := db.events[id];
            var after := SettleLive(db, id, prompt, completion).0;
            var left := db.periods[e.period].used - Share(e) + FinalSplit(db, id, prompt, completion).allowance;
            Drift(after, p) == Drift(db, p)
            + if p != e.period || Unaffordable(db, id, prompt, completion) then 0
              else if FailsAssertion(db, id) then Max(0, left) - db.periods[p].used
              else Max(0, -left)
  {
    hide Total, Inv, ChargedTokens, FinalSplit;
    SettleRefusedExact(db, id, prompt, completion);
    FinalSplitSound(db, id, prompt, completion);
    var e := db.events[id];
    var after := SettleLive(db, id, prompt, completion).0;
    if !SettleLive(db, id, prompt, completion).1.Refused? {
      var left := db.periods[e.period].used - Share(e) + FinalSplit(db, id, prompt, completion).allowance;
      assert after.events == db.events[id := after.events[id]];
      ReplaceDrift(db, after, id, after.events[id], Max(0, left), p);
    }
  }

  lemma SettleLiveCacheExact(db: Db, id: nat, prompt: int, completion: int)
    requires Inv(db) && Cached(db) && id < |db.events| && db.events[id].Live(db.now)
    ensures db.Linked()
              && (Cached(SettleLive(db, id, prompt, completion).0) <==> SettleFits(db, id, prompt, completion))
  {
    hide Total, Flow, ChargedTokens;
    LinkedWhenSound(db);
    var e := db.events[id];
    var after := SettleLive(db, id, prompt, completion).0;
    SettleLiveDrift(db, id, prompt, completion, e.period);
    assert CachedAt(db, e.period);
    assert CachedAt(after, e.period) <==> SettleFits(db, id, prompt, completion);
    hide SettleLive, FinalSplit, FailsAssertion, Unaffordable, SettleFits;
    forall p: nat | p < |db.periods| && p != e.period
      ensures CachedAt(after, p)
    {
      SettleLiveDrift(db, id, prompt, completion, p);
      assert CachedAt(db, p);
    }
  }

  lemma CloseCacheExact(db: Db, id: nat, status: Status)
    requires Inv(db) && Cached(db) && id < |db.events| && db.events[id].status == Reserved
    requires status == Released || status == Expired
    ensures db.Linked()
    ensures Cached(CloseReservation(db, id, status)) <==> Share(db.events[id]) <= db.periods[db.events[id].period].used
  {
    LinkedWhenSound(db);
    var e := db.events[id];
    forall p: nat | p < |db.periods|
      ensures |CloseReservation(db, id, status).periods| == |db.periods|
      ensures CachedAt(CloseReservation(db, id, status), p) <==> p == e.period ==> Share(e) <= db.periods[p].used
    {
      CloseDrift(db, id, status, p);
      assert CachedAt(db, p);
    }
  }

  // ---- steps and runs, with any counts ----

  /** The counters follow the step: no clamp bites, and no settlement fails its assertion at another charge. */
  ghost predicate CounterFollows(db: Db, step: Step) {
    db.Linked() &&
    match step
    case DoReserve(r) => if Known(db, r) then AllFit(db, Some(r.user)) else OthersFit(db, r.user)
    case DoSettle(id, prompt, completion) =>
      id < |db.events| ==>
        && (db.events[id].Stale(db.now) ==> AllFit(db, Some(db.events[id].user)))
        && (db.events[id].Live(db.now) ==> SettleFits(db, id, prompt, completion))
    case DoRelease(id) =>
      id < |db.events| ==>
        && (db.events[id].Stale(db.now) ==> AllFit(db, Some(db.events[id].user)))
        && (db.events[id].Live(db.now) ==> Share(db.events[id]) <= db.periods[db.events[id].period].used)
    case DoExpire(user) => AllFit(db, user)
    case DoRecalculate(user) => OthersFit(db, user)
    case _ => true
  }

  /** The counters equal the ledger after a step exactly when they follow it. */
  lemma StepCacheExact(db: Db, step: Step)
    requires Inv(db) && Cached(db)
    ensures db.Linked() && (Cached(Apply(db, step)) <==> CounterFollows(db, step))
  {
    hide Total, Flow, Reserve, SettleLive, Recalculate, ExpireStale, CloseReservation, AllFit, OthersFit, SettleFits;
    LinkedWhenSound(db);
    match step
    case DoReserve(r) => ReserveCacheExact(db, r);
    case DoSettle(id, prompt, completion) =>
      if id < |db.events| {
        if db.events[id].Live(db.now) {
          SettleLiveCacheExact(db, id, prompt, completion);
        } else {
          ExpireCacheExact(db, Some(db.events[id].user));
        }
      }
    case DoRelease(id) =>
      if id < |db.events| {
        if db.events[id].Live(db.now) {
          CloseCacheExact(db, id, Released);
        } else {
          ExpireCacheExact(db, Some(db.events[id].user));
        }
      }
    case DoExpire(user) => ExpireCacheExact(db, user);
    case DoRecalculate(user) => RecalculateCacheExact(db, user);
    case _ => SameRowsSameCache(db, Apply(db, step));
  }

  lemma SameRowsSameCache(db: Db, after: Db)
    requires after.events == db.events && after.periods == db.periods
    ensures Cached(db) ==> Cached(after)
  {
    if Cached(db) {
      forall p: nat | p < |after.periods|
        ensures CachedAt(after, p)
      {
        assert CachedAt(db, p);
      }
    }
  }

  // ---- counts that are not negative ----

  /** While no event draws a negative share, what expires never exceeds what the period holds. */
  lemma {:induction false} ReturnedWithin(db: Db, user: Option<nat>, p: nat, n: nat)
    requires Covered(db) && n <= |db.events|
    ensures Returned(db, user, p, n) <= Total(PeriodShare(p), db.events[..n])
  {
    if n > 0 {
      ReturnedWithin(db, user, p, n - 1);
      assert db.events[..n][..n - 1] == db.events[..n - 1];
      assert EventCovered(db.events[n - 1]);
    }
  }

  lemma {:induction false} PrefixWithin(db: Db, p: nat, n: nat)
    requires Covered(db) && n <= |db.events|
    ensures Total(PeriodShare(p), db.events[..n]) <= Total(PeriodShare(p), db.events)
    decreases |db.events| - n
  {
    if n < |db.events| {
      PrefixWithin(db, p, n + 1);
      assert db.events[..n + 1][..n] == db.events[..n];
      assert EventCovered(db.events[n]);
    } else {
      assert db.events[..n] == db.events;
    }
  }

  lemma CoveredFits(db: Db, user: Option<nat>)
    requires Covered(db) && Cached(db)
    ensures AllFit(db, user)
  {
    forall p: nat | p < |db.periods|
      ensures Fits(db, user, p, |db.events|)
    {
      assert CachedAt(db, p);
      forall i: nat | i < |db.events| && Overdue(db, user, i)
        ensures Returned(db, user, p, i + 1) <= db.periods[p].used
      {
        ReturnedWithin(db, user, p, i + 1);
        PrefixWithin(db, p, i + 1);
      }
    }
  }

  /** An event's share never exceeds its period's counter. */
  lemma ShareWithin(db: Db, id: nat)
    requires Covered(db) && Cached(db) && db.Linked() && id < |db.events|
    ensures Weight(PeriodShare(db.events[id].period), db.events[id]) <= db.periods[db.events[id].period].used
  {
    var p := db.events[id].period;
    var f := db.events[id].(status := Released);
    assert CachedAt(db, p);
    TotalUpdate(PeriodShare(p), db.events, id, f);
    forall e | e in db.events[id := f]
      ensures 0 <= Weight(PeriodShare(p), e)
    {
      assert EventCovered(e);
    }
    TotalNonnegative(PeriodShare(p), db.events[id := f]);
  }
}
