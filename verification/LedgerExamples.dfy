/** Ledgers, reached from empty tables, on which a promise of the service fails. */
module LedgerExamples {
  import opened Prelude
  import opened Calendar
  import opened Periods
  import opened Ledger
  import opened LedgerInvariants
  import opened LedgerCache
  import opened LedgerTheorems
  import opened SpendCaps
  import opened Router
  import opened Failover

  const DAY_ONE := Instant(1, 0, 0)
  const DAY_TWO := Instant(2, 0, 0)

  function Metered(allowance: int): Account {
    Account(Window(DAY_ONE, DAY_TWO), allowance, 0, 0, 0, 0, false)
  }

  /** Empty tables; every user has the same allowance and a token costs a token. */
  function Empty(allowance: int, limits: Limits): Db {
    Db(DAY_ONE, [], [], map[], [], u => Metered(allowance), k => limits, m => PRICE_SCALE, 1_000)
  }

  const UNCAPPED := Limits(None, None, Never)

  /** A request of the first user and key for `prompt` tokens. */
  function Ask(requestId: string, prompt: int): Request {
    Request(0, 0, None, "model", prompt, 0, requestId, DAY_TWO)
  }

  /** The event that request opens, funded from the wallet with `wallet` tokens. */
  function Opened(requestId: string, prompt: int, wallet: int): Event {
    Event(0, 0, 0, None, requestId, "model", prompt, 0, prompt, PRICE_SCALE, prompt, wallet, 0, Reserved,
          DAY_TWO, DAY_ONE)
  }

  lemma OneToken(raw: int)
    ensures ChargedTokens(raw, PRICE_SCALE) == raw
  {
  }

  /** The only period, at `total` tokens of allowance and `used` of them drawn. */
  function Only(total: int, used: int): Period {
    Period(0, Window(DAY_ONE, DAY_TWO), total, used, Max(0, total - used))
  }

  /** What these examples assume of the settings: a metered user whose window is the first day. */
  predicate Plain(db: Db, prompt: int) {
    && db.now == DAY_ONE && db.prices("model") == PRICE_SCALE
    && !db.accounts(0).unlimited && db.accounts(0).window == Window(DAY_ONE, DAY_TWO)
    && db.limits(0).usdCents.None? && db.limits(0).period == Never
    && (db.limits(0).credits.Some? ==> db.events == [] && prompt <= db.limits(0).credits.value)
  }

  /** The first reservation opens the period and takes the allowance before the wallet. */
  lemma FirstGrant(db: Db, router: Option<nat>, requestId: string, prompt: nat)
    requires Plain(db, prompt) && db.events == [] && db.periods == []
    requires 0 <= db.accounts(0).Allowance() && prompt <= db.accounts(0).Allowance() + db.Balance(0)
    requires db.accounts(0).Allowance() < prompt ==> 0 in db.wallets
    ensures db.Linked()
    ensures var total := db.accounts(0).Allowance();
            var wallet := Max(0, prompt - total);
            var r := Ask(requestId, prompt).(router := router);
            var after := Reserve(db, r).0;
            && Reserve(db, r).1 == Granted(0)
            && after.events == [Opened(requestId, prompt, wallet).(router := router)]
            && after.periods == [Only(total, prompt - wallet)]
            && SameSettings(db, after)
  {
    var r := Ask(requestId, prompt).(router := router);
    OneToken(prompt);
    assert ExpireStale(db, Some(0)) == db;
    var current := Recalculate(db, 0).0;
    assert current == db.(periods := [Only(db.accounts(0).Allowance(), 0)]);
    assert Reserve(db, r) == ReserveIn(current, r, 0);
  }

  /** With one live reservation and an exact counter, neither expiry nor recalculation changes a row. */
  lemma NothingToRefresh(db: Db, first: Event)
    requires db.now == DAY_ONE && db.events == [first]
               && db.periods == [Only(db.accounts(0).Allowance(), first.reserved)]
    requires db.accounts(0).window == Window(DAY_ONE, DAY_TWO)
    requires first == Opened(first.requestId, first.reserved, 0).(router := first.router)
    ensures db.Linked() && ExpireStale(db, Some(0)) == db && Recalculate(db, 0) == (db, 0)
  {
    assert !first.Stale(db.now);
    assert ExpireUpTo(db, Some(0), 0) == db && ExpireStale(db, Some(0)) == db;
    assert FindPeriod(db.periods, 0, Window(DAY_ONE, DAY_TWO)) == Some(0);
    var m := LivePeriodShare(0, db.now);
    assert db.events[..0] == [] && Total(m, db.events) == Total(m, []) + first.reserved;
    assert Total(m, db.events) == first.reserved;
    var p := db.periods[0];
    assert SetUsed(p.(total := db.accounts(0).Allowance()), first.reserved) == p;
    assert db.periods[0 := p] == db.periods;
    assert Refresh(db, 0) == db;
  }

  /** A second reservation in the same period, within what the allowance has left. */
  lemma SecondGrant(db: Db, first: Event, requestId: string, prompt: nat)
    requires Plain(db, prompt) && db.events == [first]
               && db.periods == [Only(db.accounts(0).Allowance(), first.reserved)]
    requires first == Opened(first.requestId, first.reserved, 0) && first.requestId != requestId
    requires db.limits(0).credits.None? && first.reserved + prompt <= db.accounts(0).Allowance()
    ensures db.Linked()
    ensures var after := Reserve(db, Ask(requestId, prompt)).0;
            && after.events == [first, Opened(requestId, prompt, 0)]
            && after.periods == [Only(db.accounts(0).Allowance(), first.reserved + prompt)]
            && SameSettings(db, after)
  {
    var r := Ask(requestId, prompt);
    OneToken(prompt);
    NothingToRefresh(db, first);
    assert FindEvent(db.events, 0, requestId).None? by {
      assert first in db.events;
    }
    assert Reserve(db, r) == ReserveIn(db, r, 0);
  }

  // ---- a failed assertion ----

  const UPGRADE := Reconfigure(u => Metered(10).(unlimited := true), m => PRICE_SCALE)

  /** 100 tokens bought, 15 held, 5 of them from the wallet, and then the plan becomes unlimited. */
  const UPGRADED := [Purchase(0, 100), DoReserve(Ask("id", 15)), UPGRADE]

  lemma UpgradedRun()
    ensures Empty(10, UNCAPPED).Linked()
    ensures Along(Empty(10, UNCAPPED), UPGRADED, Safe)
    ensures var later := Run(Empty(10, UNCAPPED), UPGRADED);
            && later.events == [Opened("id", 15, 5)] && later.periods == [Only(10, 10)]
            && later.now == DAY_ONE && later.accounts(0).unlimited
  {
    hide Total, Flow, Reserve, Settle;
    var db := Empty(10, UNCAPPED);
    var bought := MoveWallet(db, 0, 100, TopUp);
    assert bought == Apply(db, UPGRADED[0]);
    assert bought.Balance(0) == 100 && bought.accounts(0) == Metered(10);
    FirstGrant(bought, None, "id", 15);
    var held := Reserve(bought, Ask("id", 15)).0;
    assert held == Apply(bought, UPGRADED[1]);
    ThreeSteps(db, UPGRADED[0], UPGRADED[1], UPGRADE);
    ThreeStepsAlong(db, UPGRADED[0], UPGRADED[1], UPGRADE, Safe);
  }

  /** The stale counter: that event settled at 12, and also once it is then released, as the callers do and commit. */
  lemma FailedAssertionLeavesStaleCache()
    ensures exists db: Db, steps: seq<Step> ::
              && Initial(db) && (forall step | step in steps :: Clean(step))
              && |Run(db, steps).events| == 1 && Cached(Run(db, steps)) && !Cached(Settle(Run(db, steps), 0, 12, 0).0)
              && |Settle(Run(db, steps), 0, 12, 0).0.events| == 1
              && !Cached(Release(Settle(Run(db, steps), 0, 12, 0).0, 0))
  {
    hide Total, Flow, Apply, Run, Settle, Cached, Inv, Covered, Along;
    var db, steps := Empty(10, UNCAPPED), UPGRADED;
    UpgradedRun();
    InitialKeeps(db);
    RunKeeps(db, steps);
    RunKeepsCache(db, steps);
    OneToken(12);
    SettleCacheExact(Run(db, steps), 0, 12, 0);
    CaughtAssertionCacheExact(Run(db, steps), 0, 12, 0);
  }

  // ---- a negative charge ----

  /** 30 and 50 tokens of an allowance of 100 held, and the first event settled at -30. */
  const REFUNDED := [DoReserve(Ask("a", 30)), DoReserve(Ask("b", 50)), DoSettle(0, -30, 0)]

  lemma RefundedRun()
    ensures Empty(100, UNCAPPED).Linked()
    ensures Along(Empty(100, UNCAPPED), REFUNDED, Safe)
    ensures var later := Run(Empty(100, UNCAPPED), REFUNDED);
            && later.now == DAY_ONE && later.periods == [Only(100, 20)]
            && later.events == [Opened("a", 30, 0).(prompt := -30, rawTotal := -30, charged := -30, status := Settled),
                                Opened("b", 50, 0)]
  {
    hide Total, Flow, Reserve;
    var db := Empty(100, UNCAPPED);
    FirstGrant(db, None, "a", 30);
    var first := Apply(db, REFUNDED[0]);
    SecondGrant(first, Opened("a", 30, 0), "b", 50);
    var second := Apply(first, REFUNDED[1]);
    OneToken(-30);
    assert FinalSplit(second, 0, -30, 0) == Split(-30, 0);
    assert Settle(second, 0, -30, 0) == CommitSplit(second, 0, -30, 0, Split(-30, 0), false);
    ThreeSteps(db, REFUNDED[0], REFUNDED[1], REFUNDED[2]);
    ThreeStepsAlong(db, REFUNDED[0], REFUNDED[1], REFUNDED[2], Safe);
  }

  /**
   A negative charge need not show at once: the counter still is the ledger's after the settlement,
   and the release of the other event takes back more than it holds.
   */
  lemma NegativeChargeLeavesStaleCache()
    ensures exists db: Db, steps: seq<Step> ::
              && Initial(db) && Along(db, steps, Safe) && |Run(db, steps).events| == 2
              && Cached(Run(db, steps)) && !Cached(Release(Run(db, steps), 1))
  {
    hide Flow, Apply, Run, Inv, Covered, Along;
    var db, steps := Empty(100, UNCAPPED), REFUNDED;
    RefundedRun();
    InitialKeeps(db);
    RunKeeps(db, steps);
    var later := Run(db, steps);
    var m := PeriodShare(0);
    assert later.events[..1][..0] == [] && Total(m, []) == 0;
    assert Total(m, later.events[..1]) == -30;
    assert Total(m, later.events) == Total(m, later.events[..1]) + 50;
    assert CachedAt(later, 0);
    CloseCacheExact(later, 1, Released);
  }

  // ---- a settlement beyond its reservation ----

  const TEN_CREDITS := Limits(Some(10), None, Never)

  /** A key with a cap of ten credits reserves ten and is within its cap; settled at 25 it is not. */
  lemma OverrunExceedsCap()
    ensures exists db: Db, r: Request ::
              && Initial(db) && db.Linked() && Sane(r) && Reserve(db, r).1 == Granted(0)
              && WithinCaps(Reserve(db, r).0, 0) && Settle(Reserve(db, r).0, 0, 25, 0).1 == Closed
              && !WithinCaps(Settle(Reserve(db, r).0, 0, 25, 0).0, 0)
  {
    hide Flow, Reserve, Sound, SettleLive, CreditsUsed, WalletUsed, WindowStart;
    var db, r := Empty(100, TEN_CREDITS), Ask("id", 10);
    FirstGrant(db, None, "id", 10);
    InitialKeeps(db);
    ReserveKeeps(db, r);
    var held := Reserve(db, r).0;
    TenHeld(held);
    OneToken(25);
    SettleRefusedExact(held, 0, 25, 0);
    assert 0 <= held.Balance(0) && held.periods[0].remaining == 90;
    assert !FailsAssertion(held, 0) && !Unaffordable(held, 0, 25, 0);
    SettleCapsExact(held, 0, 25, 0);
  }

  lemma TenHeld(held: Db)
    requires held.events == [Opened("id", 10, 0)] && held.now == DAY_ONE && held.limits(0) == TEN_CREDITS
    ensures CreditsUsed(held, 0) == 10 && WindowStart(held.limits(0), held.now) == None
  {
    var m := KeyCredits(0, None, DAY_ONE);
    assert held.events[..0] == [] && Total(m, []) == 0;
    assert Total(m, held.events) == Total(m, []) + Weight(m, held.events[0]);
  }

  // ---- one request id, two calls ----

  /** The id of an open reservation, of whatever router, used again for a product call: it gets the same event. */
  lemma SecondCallGetsTheEvent(db: Db, first: Event, prompt: int)
    requires db.now == DAY_ONE && db.events == [first]
               && db.periods == [Only(db.accounts(0).Allowance(), first.reserved)]
    requires db.accounts(0).window == Window(DAY_ONE, DAY_TWO)
    requires first == Opened(first.requestId, first.reserved, 0).(router := first.router)
    ensures db.Linked() && Reserve(db, Ask(first.requestId, prompt)) == (db, Existing(0))
  {
    NothingToRefresh(db, first);
    assert db.events[0] in db.events;
  }

  /** A first settlement of the only reservation at no more than it reserved. */
  lemma FirstSettles(db: Db, first: Event, prompt: nat)
    requires db.now == DAY_ONE && db.events == [first] && db.periods == [Only(100, first.reserved)]
    requires first == Opened(first.requestId, first.reserved, 0).(router := first.router)
               && prompt <= first.reserved <= 100
    requires !db.accounts(0).unlimited
    ensures db.Linked() && Settle(db, 0, prompt, 0).1 == Closed
    ensures Settle(db, 0, prompt, 0).0.events
              == [first.(prompt := prompt, rawTotal := prompt, charged := prompt, status := Settled)]
  {
    OneToken(prompt);
    assert FinalSplit(db, 0, prompt, 0) == Split(prompt, 0);
  }

  /** The id reserved, reserved again and settled at 5. */
  const SHARED := [DoReserve(Ask("id", 10)), DoReserve(Ask("id", 10)), DoSettle(0, 5, 0)]

  /**
   Another call with the id of a reservation settles it; the reservation's own settlement at 7 is then
   answered as done, with nothing charged, and the event keeps the counts of the other.
   */
  lemma ForeignSettlementStands()
    ensures exists db: Db, steps: seq<Step> ::
              && Initial(db) && |Run(db, steps).events| == 1
              && Settle(Run(db, steps), 0, 7, 0) == (Run(db, steps), Closed)
              && Run(db, steps).events[0].prompt == 5 && !LogsItsEvent(Run(db, steps).events[0], 7, 0)
  {
    hide Total, Flow, Reserve, SettleLive;
    var db := Empty(100, UNCAPPED);
    FirstGrant(db, None, "id", 10);
    var held := Reserve(db, Ask("id", 10)).0;
    SecondCallGetsTheEvent(held, Opened("id", 10, 0), 10);
    FirstSettles(held, Opened("id", 10, 0), 5);
    ThreeSteps(db, SHARED[0], SHARED[1], SHARED[2]);
    assert Run(db, SHARED) == Settle(held, 0, 5, 0).0;
  }

  /** A router's reservation, a product call with its id, and that call's settlement. */
  const TAKEN := [
    Routed(CreateReservation(7, 0, "model", 10, 0, "id", DAY_TWO)),
    Elsewhere(DoReserve(Ask("id", 10))),
    Elsewhere(DoSettle(0, 5, 0))]

  /** The settled reservation of the router then has no usage row. */
  lemma TakenReservationHasNoRow()
    ensures exists s: Plane, steps: seq<PlaneStep> ::
              && Initial(s.db) && s.rows == [] && (forall p | p in steps :: Proper(p))
              && !RowsExact(RunPlane(s, steps).db, RunPlane(s, steps).rows, {})
  {
    hide Total, Flow, Reserve, SettleLive, Recalculate;
    var db := Empty(100, UNCAPPED);
    var s := Plane(db, map[0 := ApiKey(0, {})], []);
    var call := TAKEN[0].call;
    FirstGrant(db, Some(7), "id", 10);
    var r := ReservationRequest(call, 0);
    assert r == Ask("id", 10).(router := Some(7));
    var held := Reserve(db, r).0;
    var first := Opened("id", 10, 0).(router := Some(7));
    NothingToRefresh(held, first);
    assert Create(s, call) == (s.(db := held), Ok(0));
    SecondCallGetsTheEvent(held, first, 10);
    FirstSettles(held, first, 5);
    var after := RunPlane(s, TAKEN);
    ThreePlaneSteps(s, TAKEN[0], TAKEN[1], TAKEN[2]);
    assert ApplyPlane(s, TAKEN[0]) == s.(db := held) == ApplyPlane(s.(db := held), TAKEN[1]);
    assert after == s.(db := Settle(held, 0, 5, 0).0);
    assert Billed(after.db.events[0]);
  }

  // ---- runs of three steps ----

  lemma ThreeSteps(db: Db, a: Step, b: Step, c: Step)
    requires db.Linked()
    ensures Run(db, [a, b, c]) == Apply(Apply(Apply(db, a), b), c)
  {
    assert [a, b, c][1..] == [b, c] && [b, c][1..] == [c] && [c][1..] == [];
    assert Run(Apply(Apply(db, a), b), [c]) == Apply(Apply(Apply(db, a), b), c);
  }

  lemma ThreePlaneSteps(s: Plane, a: PlaneStep, b: PlaneStep, c: PlaneStep)
    requires s.db.Linked()
    ensures RunPlane(s, [a, b, c]) == ApplyPlane(ApplyPlane(ApplyPlane(s, a), b), c)
  {
    hide ApplyPlane;
    assert [a, b, c][1..] == [b, c] && [b, c][1..] == [c] && [c][1..] == [];
    assert RunPlane(ApplyPlane(ApplyPlane(s, a), b), [c]) == ApplyPlane(ApplyPlane(ApplyPlane(s, a), b), c);
  }

  lemma ThreeStepsAlong(db: Db, a: Step, b: Step, c: Step, ok: (Db, Step) -> bool)
    requires db.Linked()
    ensures Along(db, [a, b, c], ok) <==> ok(db, a) && ok(Apply(db, a), b) && ok(Apply(Apply(db, a), b), c)
  {
    hide Apply;
    assert [a, b, c][1..] == [b, c] && [b, c][1..] == [c] && [c][1..] == [];
    assert Along(Apply(Apply(db, a), b), [c], ok) <==> ok(Apply(Apply(db, a), b), c);
  }
}
