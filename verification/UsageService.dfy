/** `UsageService` over its tables: each method updates rows in place and refines the ledger step of its name. */
module UsageServices {
  import opened Prelude
  import opened Calendar
  import opened Periods
  import opened Ledger

  /** The rows of the service's tables, as a transaction sees them. */
  datatype Tables = Tables(
    events: seq<Event>,
    periods: seq<Period>,
    wallets: map<nat, int>,
    transactions: seq<Transaction>)

  class UsageService {
    // the tables
    var events: seq<Event>
    var periods: seq<Period>
    var wallets: map<nat, int>
    var transactions: seq<Transaction>
    // what the service reads: the clock, subscriptions, key limits, prices
    var now: Instant
    var accounts: nat -> Account
    var limits: nat -> Limits
    var prices: string -> nat
    var centsPerMillion: nat

    ghost function Rows(): Db
      reads this
    {
      Db(now, events, periods, wallets, transactions, accounts, limits, prices, centsPerMillion)
    }

    ghost predicate Valid()
      reads this
    {
      Rows().Linked()
    }

    constructor (db: Db)
      requires db.Linked()
      ensures Valid() && Rows() == db
    {
      events, periods, wallets, transactions := db.events, db.periods, db.wallets, db.transactions;
      now, accounts, limits, prices := db.now, db.accounts, db.limits, db.prices;
      centsPerMillion := db.centsPerMillion;
    }

    /** What a session has read and written so far; a call that raises is rolled back to it. */
    method Begin() returns (tables: Tables)
      ensures tables == Tables(events, periods, wallets, transactions)
    {
      tables := Tables(events, periods, wallets, transactions);
    }

    method Rollback(tables: Tables)
      requires forall i | 0 <= i < |tables.events| :: tables.events[i].period < |tables.periods|
      modifies this`events, this`periods, this`wallets, this`transactions
      ensures Valid()
      ensures tables == Tables(events, periods, wallets, transactions)
    {
      events, periods, wallets, transactions := tables.events, tables.periods, tables.wallets, tables.transactions;
    }

    /** Calls of other requests and steps of the environment, while this one waits for an enclave. */
    method Meanwhile(steps: seq<Step>)
      requires Valid()
      modifies this
      ensures Valid() && Rows() == Run(old(Rows()), steps)
    {
      var db := Run(Db(now, events, periods, wallets, transactions, accounts, limits, prices, centsPerMillion), steps);
      events, periods, wallets, transactions := db.events, db.periods, db.wallets, db.transactions;
      now, accounts, limits, prices := db.now, db.accounts, db.limits, db.prices;
      centsPerMillion := db.centsPerMillion;
    }

    /** `_lock_or_create_wallet`. */
    method LockOrCreateWallet(user: nat) returns (balance: int)
      modifies this`wallets
      ensures Rows() == EnsureWallet(old(Rows()), user)
      ensures user in wallets && balance == wallets[user] == old(Rows()).Balance(user)
    {
      if user !in wallets {
        wallets := wallets[user := 0];
      }
      balance := wallets[user];
    }

    /** Every change of a balance is logged. */
    method AdjustWallet(user: nat, delta: int, kind: TransactionKind)
      requires user in wallets
      modifies this`wallets, this`transactions
      ensures Rows() == MoveWallet(old(Rows()), user, delta, kind)
    {
      wallets := wallets[user := wallets[user] + delta];
      transactions := transactions + [Transaction(user, delta, kind)];
    }

    /** Take a reservation's share back from its period and refund its wallet slice. */
    method GiveBack(id: nat, status: Status)
      requires Valid() && id < |events|
      modifies this`events, this`periods, this`wallets, this`transactions
      ensures Valid() && Rows() == CloseReservation(old(Rows()), id, status)
    {
      var e := events[id];
      var p := periods[e.period];
      var used := Max(0, p.used - (e.reserved - e.wallet));
      periods := periods[e.period := p.(used := used, remaining := Max(0, p.total - used))];
      if e.wallet != 0 {
        var _ := LockOrCreateWallet(e.user);
        AdjustWallet(e.user, e.wallet, Refund);
      }
      events := events[id := e.(status := status)];
    }

    /** `expire_stale_reservations`, of one user or of everyone. */
    method ExpireStaleReservations(user: Option<nat>) returns (expired: nat)
      requires Valid()
      modifies this`events, this`periods, this`wallets, this`transactions
      ensures Valid() && Rows() == ExpireStale(old(Rows()), user)
      ensures expired == OverdueCount(old(Rows()), user, old(|events|))
    {
      ghost var before := Rows();
      expired := 0;
      for id := 0 to |events|
        invariant Valid() && |events| == |before.events|
        invariant Rows() == ExpireUpTo(before, user, id)
        invariant forall j | id <= j < |events| :: events[j] == before.events[j]
        invariant expired == OverdueCount(before, user, id)
        invariant now == before.now
      {
        var e := events[id];
        if e.status == Reserved && e.expiresAt.AtOrBefore(now) && (user.None? || user.value == e.user) {
          GiveBack(id, Expired);
          expired := expired + 1;
        }
      }
    }

    /** `_get_or_create_period` for the user's current window. */
    method GetOrCreatePeriod(user: nat, window: Window) returns (id: nat)
      requires Valid() && window == accounts(user).window
      modifies this`periods
      ensures Valid() && (Rows(), id) == OpenPeriod(old(Rows()), user)
    {
      var found := FindPeriod(periods, user, window);
      if found.Some? {
        return found.value;
      }
      id := |periods|;
      periods := periods + [Period(user, window, 0, 0, 0)];
    }

    /** `recalculate_current_period`. */
    method RecalculateCurrentPeriod(user: nat) returns (id: nat)
      requires Valid()
      modifies this`events, this`periods, this`wallets, this`transactions
      ensures Valid() && (Rows(), id) == Recalculate(old(Rows()), user)
    {
      var _ := ExpireStaleReservations(Some(user));
      id := GetOrCreatePeriod(user, accounts(user).window);
      var used := Total(LivePeriodShare(id, now), events);
      var total := accounts(periods[id].user).Allowance();
      periods := periods[id := periods[id].(total := total, used := used, remaining := Max(0, total - used))];
    }

    /** `reserve_inference_tokens`. */
    method ReserveInferenceTokens(r: Request) returns (outcome: Outcome)
      requires Valid()
      modifies this`events, this`periods, this`wallets, this`transactions
      ensures Valid() && (Rows(), outcome) == Reserve(old(Rows()), r)
    {
      var _ := ExpireStaleReservations(Some(r.user));
      var existing := FindEvent(events, r.user, r.requestId);
      if existing.Some? {
        return Existing(existing.value);
      }
      var period := RecalculateCurrentPeriod(r.user);
      outcome := ReserveInPeriod(r, period);
    }

    /** The part of a reservation that runs with the period row locked. */
    method ReserveInPeriod(r: Request, period: nat) returns (outcome: Outcome)
      requires Valid() && period < |periods|
      modifies this`events, this`periods, this`wallets, this`transactions
      ensures Valid() && (Rows(), outcome) == ReserveIn(old(Rows()), r, period)
    {
      ghost var before := Rows();
      var multiplier := prices(r.model);
      var reserved := ChargedTokens(r.prompt + r.maxCompletion, multiplier);
      var allowance, wallet := reserved, 0;
      if !accounts(r.user).unlimited {
        allowance := Min(reserved, periods[period].remaining);
        wallet := reserved - allowance;
        if wallet > 0 {
          var balance := LockOrCreateWallet(r.user);
          if balance < wallet {
            return Refused(InsufficientBalance);
          }
        }
      }
      var refusal := EnforceSpendLimits(r.key, reserved, wallet);
      if refusal.Some? {
        return Refused(refusal.value);
      }
      var p := periods[period];
      periods := periods[period := p.(used := p.used + allowance, remaining := Max(0, p.total - (p.used + allowance)))];
      if wallet > 0 {
        AdjustWallet(r.user, -wallet, Debit);
      }
      outcome := Granted(|events|);
      events := events + [
        Event(period, r.user, r.key, r.router, r.requestId, r.model, r.prompt, 0, r.prompt + r.maxCompletion,
              multiplier, reserved, wallet, 0, Reserved, r.expiresAt, now)];
    }

    /** `enforce_spend_limits`: whether the key's window leaves room for the reservation. */
    method EnforceSpendLimits(key: nat, credits: int, wallet: int) returns (refusal: Option<Refusal>)
      ensures refusal == CapRefusal(Rows(), key, credits, wallet)
    {
      var caps := limits(key);
      if caps.credits.None? && caps.usdCents.None? {
        return None;
      }
      var since := if caps.period == Never then None else Some(LimitWindow(caps.period, now).start);
      var creditsUsed := Total(KeyCredits(key, since, now), events);
      var walletUsed := Total(KeyWallet(key, since, now), events);
      if caps.credits.Some? && creditsUsed + credits > caps.credits.value {
        return Some(CreditLimitExceeded);
      }
      if caps.usdCents.Some? && wallet > 0
         && (walletUsed + wallet) * centsPerMillion > caps.usdCents.value * 1_000_000 {
        return Some(UsdLimitExceeded);
      }
      return None;
    }

    /** `settle_inference_usage`. */
    method SettleInferenceUsage(id: nat, prompt: int, completion: int) returns (outcome: Outcome)
      requires Valid() && id < |events|
      modifies this`events, this`periods, this`wallets, this`transactions
      ensures Valid() && (Rows(), outcome) == Settle(old(Rows()), id, prompt, completion)
    {
      var e := events[id];
      if e.status == Settled {
        return Closed;
      }
      if e.status == Reserved && e.expiresAt.AtOrBefore(now) {
        var _ := ExpireStaleReservations(Some(e.user));
        return Refused(ReservationExpired);
      }
      if e.status == Expired || e.status == Released {
        return Refused(ReservationNotActive);
      }
      outcome := Resplit(id, prompt, completion);
    }

    /** Split the final charge as if the event's own reservation were undone, and check its funds. */
    method Resplit(id: nat, prompt: int, completion: int) returns (outcome: Outcome)
      requires Valid() && id < |events|
      modifies this`events, this`periods, this`wallets, this`transactions
      ensures Valid() && (Rows(), outcome) == SettleLive(old(Rows()), id, prompt, completion)
    {
      var e := events[id];
      var charged := ChargedTokens(prompt + completion, e.multiplier);
      var newAllowance, newWallet, locked := charged, 0, false;
      if !accounts(e.user).unlimited {
        newAllowance := Min(charged, periods[e.period].remaining + (e.reserved - e.wallet));
        newWallet := charged - newAllowance;
        var balance := 0;
        if newWallet > 0 || e.wallet > 0 {
          balance := LockOrCreateWallet(e.user);
          locked := true;
        }
        if newWallet > balance + e.wallet {
          return Refused(InsufficientBalance);
        }
      }
      outcome := Commit(id, prompt, completion, Split(newAllowance, newWallet), locked);
    }

    method Commit(id: nat, prompt: int, completion: int, split: Split, locked: bool) returns (outcome: Outcome)
      requires Valid() && id < |events| && (locked ==> events[id].user in wallets)
      modifies this`events, this`periods, this`wallets, this`transactions
      ensures Valid() && (Rows(), outcome) == CommitSplit(old(Rows()), id, prompt, completion, split, locked)
    {
      var e := events[id];
      var p := periods[e.period];
      var used := Max(0, p.used - (e.reserved - e.wallet) + split.allowance);
      periods := periods[e.period := p.(used := used, remaining := Max(0, p.total - used))];
      var delta := e.wallet - split.wallet;
      if delta != 0 {
        if !locked {
          return AssertionFailed;
        }
        AdjustWallet(e.user, delta, if delta > 0 then Refund else Debit);
      }
      var charged := ChargedTokens(prompt + completion, e.multiplier);
      events := events[id := e.(prompt := prompt, completion := completion, rawTotal := prompt + completion,
                                charged := charged, wallet := split.wallet, status := Settled)];
      outcome := Closed;
    }

    /** `release_inference_reservation`. */
    method ReleaseInferenceReservation(id: nat)
      requires Valid() && id < |events|
      modifies this`events, this`periods, this`wallets, this`transactions
      ensures Valid() && Rows() == Release(old(Rows()), id)
    {
      var e := events[id];
      if e.status != Reserved {
        return;
      }
      if e.expiresAt.AtOrBefore(now) {
        var _ := ExpireStaleReservations(Some(e.user));
        return;
      }
      GiveBack(id, Released);
    }
  }

  /** How many of the first `n` events are overdue. */
  function OverdueCount(db: Db, user: Option<nat>, n: nat): nat
    requires n <= |db.events|
  {
    if n == 0 then 0 else OverdueCount(db, user, n - 1) + if Overdue(db, user, n - 1) then 1 else 0
  }

  /** The count of an expiry is the number of open reservations whose time has come, of this user or of all. */
  lemma {:induction false} OverdueCountExact(db: Db, user: Option<nat>, n: nat)
    requires n <= |db.events|
    ensures OverdueCount(db, user, n) == |OverdueIds(db, user, n)|
  {
    if n > 0 {
      OverdueCountExact(db, user, n - 1);
      var before, after := OverdueIds(db, user, n - 1), OverdueIds(db, user, n);
      assert after == if Overdue(db, user, n - 1) then before + {n - 1} else before;
    } else {
      assert OverdueIds(db, user, 0) == {};
    }
  }

  function OverdueIds(db: Db, user: Option<nat>, n: nat): set<nat>
    requires n <= |db.events|
  {
    set i: nat | i < n && db.events[i].status == Reserved && db.events[i].expiresAt.AtOrBefore(db.now)
                 && (user.None? || db.events[i].user == user.value)
  }
}
