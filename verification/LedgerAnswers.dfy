/**
 What the calls of the ledger answer and write, said of the tables before the call in the terms of
 the service's own inputs: accounts, prices, limits and events.
 */
module LedgerAnswers {
  import opened Prelude
  import opened Calendar
  import opened Periods
  import opened Ledger
  import opened LedgerInvariants
  import opened LedgerCache
  import opened LedgerTheorems
  import opened SpendCaps

  // ---- the current period ----

  /** What an event draws on the current allowance of a user, settled or still held. */
  function NowShare(db: Db, user: nat, e: Event): int
    requires e.period < |db.periods|
  {
    var p := db.periods[e.period];
    if p.user != user || p.window != db.accounts(user).window then 0
    else if e.status == Settled then e.charged - e.wallet
    else if e.status == Reserved && db.now.Before(e.expiresAt) then e.reserved - e.wallet
    else 0
  }

  function DrawnNow(db: Db, user: nat, n: nat): int
    requires db.Linked() && n <= |db.events|
  {
    if n == 0 then 0 else DrawnNow(db, user, n - 1) + NowShare(db, user, db.events[n - 1])
  }

  /** The period a recalculation works on is the only one of the user's current window. */
  lemma CurrentIs(db: Db, user: nat, p: nat)
    requires Inv(db) && p < |db.periods|
    ensures db.Linked() && (IsCurrent(db, user, p) <==> p == Recalculate(db, user).1)
  {
    hide Total, Flow;
    ExpireKeeps(db, Some(user));
    var expired := ExpireStale(db, Some(user));
    var (current, id) := OpenPeriod(expired, user);
    OpenKeeps(expired, user);
  }

  lemma NowShareIsWeight(db: Db, user: nat, i: nat)
    requires Inv(db) && db.Linked() && i < |db.events|
    ensures |Recalculate(db, user).0.events| == |db.events|
    ensures Weight(PeriodShare(Recalculate(db, user).1), Recalculate(db, user).0.events[i])
         == NowShare(db, user, db.events[i])
  {
    hide Total, Flow, Recalculate, ExpireStale;
    RecalculateKeeps(db, user);
    ExpireKeeps(db, Some(user));
    assert EventSound(db, db.events[i]);
    CurrentIs(db, user, db.events[i].period);
  }

  lemma {:induction false} DrawnIsTotal(db: Db, user: nat, n: nat)
    requires Inv(db) && db.Linked() && n <= |db.events|
    ensures |Recalculate(db, user).0.events| == |db.events|
    ensures Total(PeriodShare(Recalculate(db, user).1), Recalculate(db, user).0.events[..n]) == DrawnNow(db, user, n)
  {
    hide Inv, Recalculate, NowShare, Weight;
    var (after, id) := Recalculate(db, user);
    if n > 0 {
      DrawnIsTotal(db, user, n - 1);
      NowShareIsWeight(db, user, n - 1);
      assert after.events[..n][..n - 1] == after.events[..n - 1];
    } else {
      RecalculateKeepsLength(db, user);
      assert after.events[..0] == [];
    }
  }

  lemma RecalculateKeepsLength(db: Db, user: nat)
    requires Inv(db) && db.Linked()
    ensures |Recalculate(db, user).0.events| == |db.events|
  {
    hide Total, Flow, Recalculate;
    RecalculateKeeps(db, user);
  }

  /** A recalculation leaves the current period at the sum of the allowances and at what the events draw on it. */
  lemma RecalculateExact(db: Db, user: nat)
    requires Inv(db)
    ensures db.Linked()
    ensures var (after, id) := Recalculate(db, user);
            var account, period := db.accounts(user), after.periods[id];
            && period.user == user && period.window == account.window
            && period.total == account.stripe + account.erc20 + account.native + account.stake + account.manual
            && period.used == DrawnNow(db, user, |db.events|)
            && period.remaining == Max(0, period.total - period.used)
  {
    hide Total, Flow, Recalculate;
    RecalculateKeeps(db, user);
    DrawnIsTotal(db, user, |db.events|);
    var after := Recalculate(db, user).0;
    assert after.events[..|db.events|] == after.events;
  }

  // ---- what a reservation is answered ----

  /** Overdue reservations count no longer, so expiring them moves no spend. */
  lemma ExpiryMovesNoSpend(db: Db, user: Option<nat>, key: nat)
    requires Inv(db)
    ensures db.Linked()
    ensures CreditsUsed(ExpireStale(db, user), key) == CreditsUsed(db, key)
    ensures WalletUsed(ExpireStale(db, user), key) == WalletUsed(db, key)
  {
    hide Total, Flow, WindowStart, ExpireStale;
    ExpireKeeps(db, user);
    var expired := ExpireStale(db, user);
    var since := WindowStart(db.limits(key), db.now);
    SameWeights(KeyCredits(key, since, db.now), db, expired);
    SameWeights(KeyWallet(key, since, db.now), db, expired);
  }

  lemma SameWeights(m: Measure, db: Db, after: Db)
    requires m.KeyCredits? || m.KeyWallet?
    requires m.now == db.now && |db.events| == |after.events|
    requires forall i | 0 <= i < |db.events| ::
               || after.events[i] == db.events[i]
               || (db.events[i].Stale(db.now) && after.events[i] == db.events[i].(status := Expired))
    ensures Total(m, after.events) == Total(m, db.events)
  {
    TotalPointwise(m, db.events, m, after.events);
    TotalPointwise(m, after.events, m, db.events);
  }

  /**
   What a request draws on the wallet: what the refreshed allowance does not cover, and nothing on
   an unlimited plan.
   */
  function WalletNeed(db: Db, r: Request): (tokens: int)
    requires db.Linked()
  {
    var account := db.accounts(r.user);
    var allowance := account.stripe + account.erc20 + account.native + account.stake + account.manual;
    if account.unlimited then 0
    else
      Max(0, ChargedTokens(r.prompt + r.maxCompletion, db.prices(r.model))
             - Max(0, allowance - DrawnNow(db, r.user, |db.events|)))
  }

  /**
   The answer to a request under a new id: it needs the wallet to cover what the allowance does not,
   the credit cap of its key to cover the whole charge, and the dollar cap to cover the wallet's part.
   */
  lemma ReserveAnswers(db: Db, r: Request)
    requires Inv(db) && forall e | e in db.events :: e.user == r.user ==> e.requestId != r.requestId
    ensures db.Linked()
    ensures var charge := ChargedTokens(r.prompt + r.maxCompletion, db.prices(r.model));
            var need := WalletNeed(db, r);
            var limits := db.limits(r.key);
            Reserve(db, r).1
            == if need > ExpireStale(db, Some(r.user)).Balance(r.user) then Refused(InsufficientBalance)
               else if limits.credits.Some? && CreditsUsed(db, r.key) + charge > limits.credits.value
               then Refused(CreditLimitExceeded)
               else if limits.usdCents.Some? && need > 0
                    && (WalletUsed(db, r.key) + need) * db.centsPerMillion > limits.usdCents.value * 1_000_000
               then Refused(UsdLimitExceeded)
               else Granted(|db.events|)
  {
    hide Total, Flow, Recalculate, CreditsUsed, WalletUsed;
    KnownIsFound(db, r);
    assert !Known(db, r);
    var current, period := ReserveUnfolds(db, r);
    RecalculateAgain(db, r.user);
    RecalculateExact(db, r.user);
    SpendAtReserve(db, r, current);
    ReserveInAnswers(current, r, period);
  }

  /** The state in which a request is priced has the spend of the state before, and the balance after expiry. */
  lemma SpendAtReserve(db: Db, r: Request, current: Db)
    requires Inv(db) && db.Linked() && current == Recalculate(db, r.user).0
    ensures CreditsUsed(current, r.key) == CreditsUsed(db, r.key) && WalletUsed(current, r.key) == WalletUsed(db, r.key)
    ensures current.Balance(r.user) == ExpireStale(db, Some(r.user)).Balance(r.user)
    ensures SameSettings(db, current) && |current.events| == |db.events|
  {
    hide Total, Flow;
    ExpiryMovesNoSpend(db, Some(r.user), r.key);
    ExpireKeeps(db, Some(r.user));
    RecalculateKeeps(db, r.user);
  }

  lemma ReserveInAnswers(db: Db, r: Request, period: nat)
    requires Inv(db) && db.Linked() && period < |db.periods|
    ensures var charge := ChargedTokens(r.prompt + r.maxCompletion, db.prices(r.model));
            var need := if db.accounts(r.user).unlimited then 0 else Max(0, charge - db.periods[period].remaining);
            var limits := db.limits(r.key);
            ReserveIn(db, r, period).1
            == if need > db.Balance(r.user) then Refused(InsufficientBalance)
               else if limits.credits.Some? && CreditsUsed(db, r.key) + charge > limits.credits.value
               then Refused(CreditLimitExceeded)
               else if limits.usdCents.Some? && need > 0
                    && (WalletUsed(db, r.key) + need) * db.centsPerMillion > limits.usdCents.value * 1_000_000
               then Refused(UsdLimitExceeded)
               else Granted(|db.events|)
  {
    hide Total, Flow, ChargedTokens, WindowStart;
    assert 0 <= db.Balance(r.user);
  }

  /** The event a granted request opens. */
  lemma ReserveWrites(db: Db, r: Request)
    requires Inv(db) && db.Linked() && Reserve(db, r).1.Granted?
    ensures var (after, outcome) := Reserve(db, r);
            && outcome.id == |db.events| && |after.events| == outcome.id + 1
            && var e := after.events[outcome.id];
               && e.user == r.user && e.key == r.key && e.router == r.router
               && e.requestId == r.requestId && e.model == r.model
               && e.prompt == r.prompt && e.completion == 0 && e.rawTotal == r.prompt + r.maxCompletion
               && e.multiplier == db.prices(r.model)
               && e.reserved == ChargedTokens(r.prompt + r.maxCompletion, db.prices(r.model))
               && e.wallet == WalletNeed(db, r) && e.charged == 0
               && e.status == Reserved && e.expiresAt == r.expiresAt && e.createdAt == db.now
               && after.periods[e.period].user == r.user && after.periods[e.period].window == db.accounts(r.user).window
  {
    hide Total, Flow, Recalculate, ReserveIn, ChargedTokens, ExpireStale;
    KnownIsFound(db, r);
    var current, period := ReserveUnfolds(db, r);
    RecalculateAgain(db, r.user);
    RecalculateExact(db, r.user);
    SpendAtReserve(db, r, current);
    ReserveInWrites(current, r, period);
  }

  lemma ReserveInWrites(db: Db, r: Request, period: nat)
    requires Inv(db) && db.Linked() && period < |db.periods| && ReserveIn(db, r, period).1.Granted?
    ensures var (after, outcome) := ReserveIn(db, r, period);
            && outcome.id == |db.events| && |after.events| == outcome.id + 1
            && var charge := ChargedTokens(r.prompt + r.maxCompletion, db.prices(r.model));
               after.events[outcome.id]
               == Event(period, r.user, r.key, r.router, r.requestId, r.model, r.prompt, 0, r.prompt + r.maxCompletion,
                        db.prices(r.model), charge,
                        if db.accounts(r.user).unlimited then 0 else Max(0, charge - db.periods[period].remaining),
                        0, Reserved, r.expiresAt, db.now)
    ensures var after := ReserveIn(db, r, period).0;
            && |after.periods| == |db.periods|
            && forall p | 0 <= p < |db.periods| ::
                 after.periods[p].user == db.periods[p].user && after.periods[p].window == db.periods[p].window
  {
    hide Total, Flow, ChargedTokens, CapRefusal;
    ReserveInAppends(db, r, period);
  }

  // ---- what a settlement writes ----

  /** A settlement that closes a live event: its counts, its charge and its wallet slice. */
  lemma SettleWrites(db: Db, id: nat, prompt: int, completion: int)
    requires Inv(db) && id < |db.events| && db.events[id].Live(db.now)
    requires db.Linked() && Settle(db, id, prompt, completion).1 == Closed
    ensures var e := db.events[id];
            var charge := ChargedTokens(prompt + completion, e.multiplier);
            var available := db.periods[e.period].remaining + e.reserved - e.wallet;
            Settle(db, id, prompt, completion).0.events
            == db.events[id := e.(prompt := prompt, completion := completion, rawTotal := prompt + completion,
                                  charged := charge, status := Settled,
                                  wallet := if db.accounts(e.user).unlimited then 0 else Max(0, charge - available))]
  {
    hide Total, Flow, ChargedTokens;
  }

  /** What a settlement is answered, in every state of its event. */
  lemma SettleAnswers(db: Db, id: nat, prompt: int, completion: int)
    requires Inv(db) && id < |db.events|
    ensures db.Linked()
    ensures var e := db.events[id];
            var unlimited := db.accounts(e.user).unlimited;
            var charge := ChargedTokens(prompt + completion, e.multiplier);
            Settle(db, id, prompt, completion).1
            == match e.status
               case Settled => Closed
               case Released => Refused(ReservationNotActive)
               case Expired => Refused(ReservationNotActive)
               case Reserved =>
                 if e.expiresAt.AtOrBefore(db.now) then Refused(ReservationExpired)
                 else if unlimited && e.wallet > 0 then AssertionFailed
                 else if !unlimited && charge > db.periods[e.period].remaining + db.Balance(e.user) + e.reserved
                 then Refused(InsufficientBalance)
                 else Closed
  {
    hide Total, Flow, SettleLive, ExpireStale;
    LinkedWhenSound(db);
    if db.events[id].Live(db.now) {
      SettleRefusedExact(db, id, prompt, completion);
    }
  }

  // ---- the spend of a key ----

  /** Releasing a live reservation takes exactly its slices from the spend of its key. */
  lemma ReleaseSpendExact(db: Db, id: nat)
    requires Inv(db) && id < |db.events| && db.events[id].Live(db.now)
    ensures db.Linked()
    ensures var e := db.events[id];
            var since := WindowStart(db.limits(e.key), db.now);
            var counted := since.None? || since.value.AtOrBefore(e.createdAt);
            && CreditsUsed(Release(db, id), e.key) == CreditsUsed(db, e.key) - (if counted then e.reserved else 0)
            && WalletUsed(Release(db, id), e.key) == WalletUsed(db, e.key) - (if counted then e.wallet else 0)
  {
    hide Total, Flow, WindowStart;
    LinkedWhenSound(db);
    var e := db.events[id];
    var since := WindowStart(db.limits(e.key), db.now);
    var f := e.(status := Released);
    TotalUpdate(KeyCredits(e.key, since, db.now), db.events, id, f);
    TotalUpdate(KeyWallet(e.key, since, db.now), db.events, id, f);
  }

  // ---- the transaction log ----

  /** Credits and refunds add to a wallet, and debits take from it. */
  predicate Signed(t: Transaction) {
    match t.kind
    case TopUp => 0 <= t.delta
    case ReferralBonus => 0 <= t.delta
    case Refund => 0 < t.delta
    case Debit => t.delta < 0
  }

  ghost predicate LogSigned(db: Db) {
    forall i | 0 <= i < |db.transactions| :: Signed(db.transactions[i])
  }

  lemma CloseKeepsSigned(db: Db, id: nat, status: Status)
    requires db.Linked() && id < |db.events| && 0 <= db.events[id].wallet && LogSigned(db)
    ensures LogSigned(CloseReservation(db, id, status))
  {
  }

  lemma {:induction false} ExpireUpToKeepsSigned(db: Db, user: Option<nat>, n: nat)
    requires Inv(db) && db.Linked() && n <= |db.events| && LogSigned(db)
    ensures LogSigned(ExpireUpTo(db, user, n))
  {
    hide Total, Flow, CloseReservation;
    if n > 0 {
      ExpireUpToKeepsSigned(db, user, n - 1);
      ExpireUpToKeeps(db, user, n - 1);
      var before := ExpireUpTo(db, user, n - 1);
      assert EventSound(before, before.events[n - 1]);
      CloseKeepsSigned(before, n - 1, Expired);
    }
  }

  lemma ReserveKeepsSigned(db: Db, r: Request)
    requires Inv(db) && LogSigned(db)
    ensures db.Linked() && LogSigned(Reserve(db, r).0)
  {
    hide Total, Flow, ReserveIn, ExpireUpTo;
    ExpireKeeps(db, Some(r.user));
    ExpireUpToKeepsSigned(db, Some(r.user), |db.events|);
    if FindEvent(ExpireStale(db, Some(r.user)).events, r.user, r.requestId).None? {
      var current, period := ReserveUnfolds(db, r);
      RecalculateAgain(db, r.user);
      assert current.transactions == ExpireStale(db, Some(r.user)).transactions;
      ReserveInKeepsSigned(current, r, period);
    }
  }

  lemma ReserveInKeepsSigned(db: Db, r: Request, period: nat)
    requires Inv(db) && db.Linked() && period < |db.periods| && LogSigned(db)
    ensures LogSigned(ReserveIn(db, r, period).0)
  {
    hide Total, Flow, CapRefusal, ChargedTokens, Inv;
  }

  lemma SettleKeepsSigned(db: Db, id: nat, prompt: int, completion: int)
    requires Inv(db) && id < |db.events| && LogSigned(db)
    ensures db.Linked() && LogSigned(Settle(db, id, prompt, completion).0)
  {
    hide Total, Flow, ChargedTokens;
    LinkedWhenSound(db);
    ExpireUpToKeepsSigned(db, Some(db.events[id].user), |db.events|);
    assert EventSound(db, db.events[id]);
  }

  lemma StepKeepsSigned(db: Db, step: Step)
    requires Inv(db) && LogSigned(db)
    ensures db.Linked() && LogSigned(Apply(db, step))
  {
    hide Total, Flow, Reserve, Settle, ExpireUpTo;
    LinkedWhenSound(db);
    match step
    case DoReserve(r) => ReserveKeepsSigned(db, r);
    case DoSettle(id, prompt, completion) => if id < |db.events| { SettleKeepsSigned(db, id, prompt, completion); }
    case DoRelease(id) =>
      if id < |db.events| {
        assert EventSound(db, db.events[id]);
        CloseKeepsSigned(db, id, Released);
        ExpireUpToKeepsSigned(db, Some(db.events[id].user), |db.events|);
      }
    case DoExpire(user) => ExpireUpToKeepsSigned(db, user, |db.events|);
    case DoRecalculate(user) => ExpireUpToKeepsSigned(db, Some(user), |db.events|);
    case _ =>
  }

  /** Along every run from empty tables each transaction has the sign of its kind. */
  lemma {:induction false} LogIsSigned(db: Db, steps: seq<Step>)
    requires Inv(db) && LogSigned(db)
    ensures db.Linked() && LogSigned(Run(db, steps))
    decreases |steps|
  {
    hide Inv, LogSigned, Apply;
    StepLinked(db);
    if steps != [] {
      StepKeeps(db, steps[0]);
      StepKeepsSigned(db, steps[0]);
      LogIsSigned(Apply(db, steps[0]), steps[1..]);
    }
  }
}
