/** What every step of the billing service keeps, and what therefore holds over whole runs. */
module LedgerInvariants {
  import opened Prelude
  import opened Calendar
  import opened Periods
  import opened Ledger

  // ---- sums ----

  lemma {:induction false} TotalUpdate(m: Measure, events: seq<Event>, i: nat, e: Event)
    requires i < |events|
    ensures Total(m, events[i := e]) == Total(m, events) - Weight(m, events[i]) + Weight(m, e)
  {
    var last := |events| - 1;
    if i < last {
      TotalUpdate(m, events[..last], i, e);
      assert events[i := e][..last] == events[..last][i := e];
    } else {
      assert events[i := e][..last] == events[..last];
    }
  }

  lemma TotalAppend(m: Measure, events: seq<Event>, e: Event)
    ensures Total(m, events + [e]) == Total(m, events) + Weight(m, e)
  {
    assert (events + [e])[..|events|] == events;
  }

  /** A measure that weighs no event more than another has no greater total. */
  lemma {:induction false} TotalMonotone(m: Measure, n: Measure, events: seq<Event>)
    requires forall e | e in events :: Weight(m, e) <= Weight(n, e)
    ensures Total(m, events) <= Total(n, events)
  {
    if events != [] {
      TotalMonotone(m, n, events[..|events| - 1]);
    }
  }

  lemma {:induction false} TotalNonnegative(m: Measure, events: seq<Event>)
    requires forall e | e in events :: 0 <= Weight(m, e)
    ensures 0 <= Total(m, events)
  {
    if events != [] {
      TotalNonnegative(m, events[..|events| - 1]);
    }
  }

  lemma FlowAppend(user: nat, creditsOnly: bool, ts: seq<Transaction>, t: Transaction)
    ensures Flow(user, creditsOnly, ts + [t])
         == Flow(user, creditsOnly, ts) + if t.user == user && (creditsOnly ==> IsCredit(t.kind)) then t.delta else 0
  {
    assert (ts + [t])[..|ts|] == ts;
  }

  /** The charge is the least number of tokens that covers `raw` at the price, so it is monotone. */
  lemma ChargeIsCeiling(raw: int, multiplier: nat)
    ensures var charged := ChargedTokens(raw, multiplier);
            (charged - 1) * PRICE_SCALE < raw * multiplier <= charged * PRICE_SCALE
  {
  }

  lemma ChargeIsMonotone(a: int, b: int, multiplier: nat)
    requires a <= b
    ensures ChargedTokens(a, multiplier) <= ChargedTokens(b, multiplier)
    ensures 0 <= a ==> 0 <= ChargedTokens(a, multiplier)
  {
    assert a * multiplier <= b * multiplier;
    assert 0 <= a ==> 0 <= a * multiplier;
  }

  // ---- invariants ----

  /** The event is in a period of its user, is priced by its counts, and holds no negative wallet slice. */
  predicate EventSound(db: Db, e: Event) {
    && e.period < |db.periods|
    && db.periods[e.period].user == e.user
    && 0 <= e.wallet
    && (e.status == Reserved ==> e.reserved == ChargedTokens(e.rawTotal, e.multiplier))
    && (e.status == Settled ==> e.charged == ChargedTokens(e.rawTotal, e.multiplier))
    && e.createdAt.AtOrBefore(db.now)
  }

  /** Referential and price integrity; one event per (user, request id), one period per (user, window). */
  ghost predicate Sound(db: Db) {
    && db.now.Valid()
    && (forall i | 0 <= i < |db.events| :: EventSound(db, db.events[i]))
    && (forall i, j | 0 <= i < j < |db.events| ::
          db.events[i].user == db.events[j].user ==> db.events[i].requestId != db.events[j].requestId)
    && (forall i, j | 0 <= i < j < |db.periods| ::
          db.periods[i].user == db.periods[j].user ==> db.periods[i].window != db.periods[j].window)
    && (forall i | 0 <= i < |db.periods| :: db.periods[i].remaining == Max(0, db.periods[i].total - db.periods[i].used))
  }

  /** The wallet: never overdrawn, conserved, and equal to the sum of its transaction log. */
  ghost predicate Funded(db: Db) {
    forall user: nat ::
      && 0 <= db.Balance(user)
      && db.Balance(user) + Total(WalletHeld(user), db.events) == Flow(user, true, db.transactions)
      && db.Balance(user) == Flow(user, false, db.transactions)
  }

  /** The cached `used_tokens` of a period is the ledger's. */
  predicate CachedAt(db: Db, p: nat)
    requires p < |db.periods|
  {
    db.periods[p].used == Total(PeriodShare(p), db.events)
  }

  ghost predicate Cached(db: Db) {
    forall p: nat | p < |db.periods| :: CachedAt(db, p)
  }

  /** What every step keeps, whatever counts it is called with. */
  ghost predicate Inv(db: Db) {
    Sound(db) && Funded(db)
  }

  /** The wallet slice of an open or settled event is within its size, so its allowance slice is not negative. */
  predicate EventCovered(e: Event) {
    && (e.status == Reserved ==> e.wallet <= e.reserved)
    && (e.status == Settled ==> e.wallet <= e.charged)
  }

  /** No event draws a negative share on its period: kept as long as no count is negative. */
  ghost predicate Covered(db: Db) {
    forall i | 0 <= i < |db.events| :: EventCovered(db.events[i])
  }

  lemma LinkedWhenSound(db: Db)
    requires Sound(db)
    ensures db.Linked()
  {
  }

  // ---- one event changes ----

  /** Only this user's wallet moved, by `delta`, and the log says so. */
  ghost predicate Moved(db: Db, after: Db, user: nat, delta: int) {
    forall u: nat ::
      && after.Balance(u) == db.Balance(u) + (if u == user then delta else 0)
      && Flow(u, false, after.transactions) == Flow(u, false, db.transactions) + (if u == user then delta else 0)
      && Flow(u, true, after.transactions) == Flow(u, true, db.transactions)
  }

  lemma MoveWalletMoves(db: Db, user: nat, delta: int, kind: TransactionKind)
    requires !IsCredit(kind)
    ensures Moved(db, MoveWallet(db, user, delta, kind), user, delta)
  {
    hide Flow;
    var t := Transaction(user, delta, kind);
    forall u: nat
      ensures Flow(u, false, db.transactions + [t]) == Flow(u, false, db.transactions) + if u == user then delta else 0
      ensures Flow(u, true, db.transactions + [t]) == Flow(u, true, db.transactions)
    {
      FlowAppend(u, false, db.transactions, t);
      FlowAppend(u, true, db.transactions, t);
    }
  }

  function Held(e: Event): int {
    Weight(WalletHeld(e.user), e)
  }

  /** The same event at a later point of its life: what identifies it does not change. */
  predicate SameIdentity(e: Event, f: Event) {
    && e.period == f.period && e.user == f.user && e.key == f.key && e.router == f.router
    && e.requestId == f.requestId && e.model == f.model && e.multiplier == f.multiplier
    && e.reserved == f.reserved && e.expiresAt == f.expiresAt && e.createdAt == f.createdAt
  }

  lemma ReplaceKeepsFunded(db: Db, after: Db, id: nat, f: Event)
    requires Funded(db) && id < |db.events| && SameIdentity(db.events[id], f)
    requires after.events == db.events[id := f]
    requires Moved(db, after, f.user, Held(db.events[id]) - Held(f))
    requires 0 <= after.Balance(f.user)
    ensures Funded(after)
  {
    forall u: nat
      ensures 0 <= after.Balance(u)
      ensures after.Balance(u) + Total(WalletHeld(u), after.events) == Flow(u, true, after.transactions)
      ensures after.Balance(u) == Flow(u, false, after.transactions)
    {
      assert 0 <= db.Balance(u);
      TotalUpdate(WalletHeld(u), db.events, id, f);
    }
  }

  lemma ReplaceKeepsSound(db: Db, after: Db, id: nat, f: Event, used: int)
    requires Sound(db) && id < |db.events| && SameIdentity(db.events[id], f)
    requires after.now == db.now && after.events == db.events[id := f]
    requires after.periods == db.periods[f.period := SetUsed(db.periods[f.period], used)]
    requires EventSound(db, f)
    ensures Sound(after)
  {
    forall i | 0 <= i < |after.events|
      ensures EventSound(after, after.events[i])
    {
      assert EventSound(db, db.events[i]);
    }
  }

  lemma CloseKeeps(db: Db, id: nat, status: Status)
    requires Inv(db) && id < |db.events| && db.events[id].status == Reserved
    requires status == Released || status == Expired
    ensures db.Linked()
    ensures Inv(CloseReservation(db, id, status))
  {
    hide Total, Flow;
    LinkedWhenSound(db);
    var e := db.events[id];
    var f := e.(status := status);
    var p := db.periods[e.period];
    var after := CloseReservation(db, id, status);
    assert EventSound(db, e);
    MoveWalletMoves(db, e.user, e.wallet, Refund);
    assert 0 <= db.Balance(e.user);
    ReplaceKeepsFunded(db, after, id, f);
    ReplaceKeepsSound(db, after, id, f, Max(0, p.used - (e.reserved - e.wallet)));
  }

  // ---- expiry ----

  /** The settings a service call reads but never writes. */
  ghost predicate SameSettings(db: Db, after: Db) {
    && after.now == db.now && after.accounts == db.accounts && after.limits == db.limits
    && after.prices == db.prices && after.centsPerMillion == db.centsPerMillion
  }

  ghost predicate SamePeriodRows(db: Db, after: Db) {
    && |db.periods| <= |after.periods|
    && forall p | 0 <= p < |db.periods| ::
      after.periods[p].user == db.periods[p].user && after.periods[p].window == db.periods[p].window
  }

  lemma CloseEffect(db: Db, id: nat, status: Status)
    requires db.Linked() && id < |db.events|
    ensures var after := CloseReservation(db, id, status);
            && SameSettings(db, after) && SamePeriodRows(db, after) && |after.periods| == |db.periods|
            && after.events == db.events[id := db.events[id].(status := status)]
  {
  }

  /** Every overdue reservation among the first `n` events is expired, and no other event changes. */
  lemma {:induction false} ExpireUpToEffect(db: Db, user: Option<nat>, n: nat)
    requires db.Linked() && n <= |db.events|
    ensures SameSettings(db, ExpireUpTo(db, user, n)) && SamePeriodRows(db, ExpireUpTo(db, user, n))
    ensures |ExpireUpTo(db, user, n).periods| == |db.periods|
    ensures forall i | 0 <= i < |db.events| ::
              ExpireUpTo(db, user, n).events[i]
              == if i < n && Overdue(db, user, i) then db.events[i].(status := Expired) else db.events[i]
  {
    hide CloseReservation;
    if n > 0 {
      ExpireUpToEffect(db, user, n - 1);
      CloseEffect(ExpireUpTo(db, user, n - 1), n - 1, Expired);
    }
  }

  lemma {:induction false} ExpireUpToKeeps(db: Db, user: Option<nat>, n: nat)
    requires Inv(db) && n <= |db.events|
    ensures db.Linked()
    ensures Inv(ExpireUpTo(db, user, n))
  {
    hide Total, Flow, CloseReservation;
    LinkedWhenSound(db);
    if n > 0 {
      ExpireUpToKeeps(db, user, n - 1);
      var before := ExpireUpTo(db, user, n - 1);
      if Overdue(before, user, n - 1) {
        CloseKeeps(before, n - 1, Expired);
      }
    }
  }

  lemma ExpireKeeps(db: Db, user: Option<nat>)
    requires Inv(db)
    ensures db.Linked() && SameSettings(db, ExpireStale(db, user)) && SamePeriodRows(db, ExpireStale(db, user))
    ensures |ExpireStale(db, user).periods| == |db.periods|
    ensures Inv(ExpireStale(db, user)) && (Covered(db) ==> Covered(ExpireStale(db, user)))
    ensures forall i: nat | i < |db.events| :: !Overdue(ExpireStale(db, user), user, i)
    ensures forall i | 0 <= i < |db.events| ::
              ExpireStale(db, user).events[i]
              == if Overdue(db, user, i) then db.events[i].(status := Expired) else db.events[i]
  {
    ExpireUpToKeeps(db, user, |db.events|);
    ExpireUpToEffect(db, user, |db.events|);
  }

  // ---- recalculation ----

  lemma {:induction false} TotalAgrees(m: Measure, n: Measure, events: seq<Event>)
    requires forall e | e in events :: Weight(m, e) == Weight(n, e)
    ensures Total(m, events) == Total(n, events)
  {
    TotalMonotone(m, n, events);
    TotalMonotone(n, m, events);
  }

  lemma {:induction false} TotalZero(m: Measure, events: seq<Event>)
    requires forall e | e in events :: Weight(m, e) == 0
    ensures Total(m, events) == 0
  {
    if events != [] {
      TotalZero(m, events[..|events| - 1]);
    }
  }

  lemma OpenKeeps(db: Db, user: nat)
    requires Inv(db)
    ensures db.Linked() && Inv(OpenPeriod(db, user).0)
    ensures var (after, id) := OpenPeriod(db, user);
            && SameSettings(db, after) && SamePeriodRows(db, after) && after.events == db.events
            && after.periods[id].user == user && after.periods[id].window == db.accounts(user).window
  {
    LinkedWhenSound(db);
    var (after, id) := OpenPeriod(db, user);
    forall i | 0 <= i < |after.events|
      ensures EventSound(after, after.events[i])
    {
      assert EventSound(db, db.events[i]);
    }
    forall u: nat
      ensures 0 <= after.Balance(u)
      ensures after.Balance(u) + Total(WalletHeld(u), after.events) == Flow(u, true, after.transactions)
      ensures after.Balance(u) == Flow(u, false, after.transactions)
    {
      assert 0 <= db.Balance(u);
    }
  }

  /** With nothing of the period overdue, the recount is the ledger's share, whatever the cache said. */
  lemma RefreshKeeps(db: Db, id: nat)
    requires Inv(db) && id < |db.periods|
    requires forall i: nat | i < |db.events| :: !Overdue(db, Some(db.periods[id].user), i)
    ensures db.Linked() && Inv(Refresh(db, id)) && CachedAt(Refresh(db, id), id)
    ensures SameSettings(db, Refresh(db, id)) && SamePeriodRows(db, Refresh(db, id))
    ensures Refresh(db, id).events == db.events
    ensures forall p | 0 <= p < |db.periods| && p != id :: Refresh(db, id).periods[p] == db.periods[p]
  {
    LinkedWhenSound(db);
    var after := Refresh(db, id);
    forall e | e in db.events
      ensures Weight(LivePeriodShare(id, db.now), e) == Weight(PeriodShare(id), e)
    {
      var i :| 0 <= i < |db.events| && db.events[i] == e;
      assert EventSound(db, db.events[i]) && !Overdue(db, Some(db.periods[id].user), i);
    }
    TotalAgrees(LivePeriodShare(id, db.now), PeriodShare(id), db.events);
    forall i | 0 <= i < |after.events|
      ensures EventSound(after, after.events[i])
    {
      assert EventSound(db, db.events[i]);
    }
    forall u: nat
      ensures 0 <= after.Balance(u)
      ensures after.Balance(u) + Total(WalletHeld(u), after.events) == Flow(u, true, after.transactions)
      ensures after.Balance(u) == Flow(u, false, after.transactions)
    {
      assert 0 <= db.Balance(u);
    }
  }

  lemma RecalculateKeeps(db: Db, user: nat)
    requires Inv(db)
    ensures db.Linked() && Inv(Recalculate(db, user).0)
    ensures var (after, id) := Recalculate(db, user);
            && SameSettings(db, after) && SamePeriodRows(db, after)
                  && after.events == ExpireStale(db, Some(user)).events
            && after.periods[id].user == user && after.periods[id].window == db.accounts(user).window
            && after.periods[id].total == db.accounts(user).Allowance()
            && CachedAt(after, id)
    ensures Covered(db) ==> Covered(Recalculate(db, user).0)
  {
    hide Total, Flow;
    ExpireKeeps(db, Some(user));
    var expired := ExpireStale(db, Some(user));
    OpenKeeps(expired, user);
    var (current, id) := OpenPeriod(expired, user);
    RefreshKeeps(current, id);
  }

  // ---- reserve ----

  /** Request counts as the callers validate them; the charge of a request is then not negative. */
  predicate Sane(r: Request) {
    0 <= r.prompt + r.maxCompletion
  }

  /** The log and the balances after a refused or a funded reservation. */
  lemma EnsureWalletKeeps(db: Db, user: nat)
    ensures Moved(db, EnsureWallet(db, user), user, 0)
    ensures Inv(db) ==> Inv(EnsureWallet(db, user))
    ensures EnsureWallet(db, user).events == db.events && EnsureWallet(db, user).periods == db.periods
  {
    var after := EnsureWallet(db, user);
    if Inv(db) {
      forall i | 0 <= i < |after.events|
        ensures EventSound(after, after.events[i])
      {
        assert EventSound(db, db.events[i]);
      }
      forall u: nat
        ensures 0 <= after.Balance(u)
        ensures after.Balance(u) + Total(WalletHeld(u), after.events) == Flow(u, true, after.transactions)
        ensures after.Balance(u) == Flow(u, false, after.transactions)
      {
        assert 0 <= db.Balance(u);
      }
    }
  }

  lemma AppendKeepsSound(db: Db, after: Db, f: Event, used: int)
    requires Sound(db) && f.period < |db.periods|
    requires after.now == db.now && after.events == db.events + [f]
    requires after.periods == db.periods[f.period := SetUsed(db.periods[f.period], used)]
    requires EventSound(db, f)
    requires forall e | e in db.events :: e.user == f.user ==> e.requestId != f.requestId
    ensures Sound(after)
  {
    forall i | 0 <= i < |after.events|
      ensures EventSound(after, after.events[i])
    {
      assert i < |db.events| ==> EventSound(db, db.events[i]);
    }
  }

  lemma AppendKeepsFunded(db: Db, after: Db, f: Event)
    requires Funded(db) && f.status == Reserved
    requires after.events == db.events + [f]
    requires Moved(db, after, f.user, -f.wallet)
    requires 0 <= after.Balance(f.user)
    ensures Funded(after)
  {
    forall u: nat
      ensures 0 <= after.Balance(u)
      ensures after.Balance(u) + Total(WalletHeld(u), after.events) == Flow(u, true, after.transactions)
      ensures after.Balance(u) == Flow(u, false, after.transactions)
    {
      assert 0 <= db.Balance(u);
      TotalAppend(WalletHeld(u), db.events, f);
    }
  }

  lemma ReserveInMoves(db: Db, r: Request, period: nat)
    requires Inv(db) && period < |db.periods|
    requires db.Linked() && ReserveIn(db, r, period).1.Granted?
    ensures var after := ReserveIn(db, r, period).0;
            && Moved(db, after, r.user, -RequestSplit(db, r, period).wallet)
            && 0 <= after.Balance(r.user)
  {
    hide Total, Flow, ChargedTokens;
    var wallet := RequestSplit(db, r, period).wallet;
    EnsureWalletKeeps(db, r.user);
    assert 0 <= db.Balance(r.user);
    MoveWalletMoves(EnsureWallet(db, r.user), r.user, -wallet, Debit);
  }

  /** What a grant appends to the event table. */
  lemma ReserveInAppends(db: Db, r: Request, period: nat)
    requires db.Linked() && period < |db.periods| && ReserveIn(db, r, period).1.Granted?
    ensures ReserveIn(db, r, period).1.id == |db.events|
    ensures ReserveIn(db, r, period).0.events
         == db.events + [NewEvent(db, r, period, RequestCharge(db, r), RequestSplit(db, r, period).wallet)]
  {
  }

  /** A new reservation's slices add up to its size; with counts that are not negative neither is negative. */
  lemma RequestSplitSound(db: Db, r: Request, period: nat)
    requires Inv(db) && period < |db.periods|
    ensures var split := RequestSplit(db, r, period);
            && split.allowance + split.wallet == RequestCharge(db, r) && 0 <= split.wallet
            && (Sane(r) ==> 0 <= split.allowance)
  {
    ChargeIsMonotone(r.prompt + r.maxCompletion, r.prompt + r.maxCompletion, db.prices(r.model));
  }

  lemma ReserveInGrants(db: Db, r: Request, period: nat)
    requires Inv(db) && period < |db.periods| && db.periods[period].user == r.user
    requires forall e | e in db.events :: e.user == r.user ==> e.requestId != r.requestId
    requires db.Linked() && ReserveIn(db, r, period).1.Granted?
    ensures Inv(ReserveIn(db, r, period).0)
    ensures Covered(db) && Sane(r) ==> Covered(ReserveIn(db, r, period).0)
  {
    hide Total, Flow, ChargedTokens;
    var p := db.periods[period];
    var split := RequestSplit(db, r, period);
    var f := NewEvent(db, r, period, RequestCharge(db, r), split.wallet);
    var after := ReserveIn(db, r, period).0;
    RequestSplitSound(db, r, period);
    ReserveInMoves(db, r, period);
    AppendKeepsSound(db, after, f, p.used + split.allowance);
    AppendKeepsFunded(db, after, f);
  }

  lemma ReserveInKeeps(db: Db, r: Request, period: nat)
    requires Inv(db) && period < |db.periods| && db.periods[period].user == r.user
    requires forall e | e in db.events :: e.user == r.user ==> e.requestId != r.requestId
    ensures db.Linked() && Inv(ReserveIn(db, r, period).0)
    ensures SameSettings(db, ReserveIn(db, r, period).0)
    ensures Covered(db) && Sane(r) ==> Covered(ReserveIn(db, r, period).0)
    ensures var (after, outcome) := ReserveIn(db, r, period);
            if outcome.Granted?
            then outcome.id == |db.events| && after.events == db.events + [after.events[|db.events|]]
            else outcome.Refused? && after.events == db.events && after.periods == db.periods
  {
    hide Total, Flow, ChargedTokens;
    LinkedWhenSound(db);
    var (after, outcome) := ReserveIn(db, r, period);
    if outcome.Granted? {
      ReserveInGrants(db, r, period);
    } else {
      EnsureWalletKeeps(db, r.user);
    }
  }

  /** With nothing overdue, expiry changes nothing at all. */
  lemma {:induction false} ExpireUpToNothing(db: Db, user: Option<nat>, n: nat)
    requires db.Linked() && n <= |db.events|
    requires forall i: nat | i < n :: !Overdue(db, user, i)
    ensures ExpireUpTo(db, user, n) == db
  {
    if n > 0 {
      ExpireUpToNothing(db, user, n - 1);
    }
  }

  lemma ExpireIsIdempotent(db: Db, user: Option<nat>)
    requires db.Linked() && forall i: nat | i < |db.events| :: !Overdue(db, user, i)
    ensures ExpireStale(db, user) == db
  {
    ExpireUpToNothing(db, user, |db.events|);
  }

  /** A reservation under a new request id is granted or refused on a freshly recalculated period. */
  lemma ReserveUnfolds(db: Db, r: Request) returns (current: Db, period: nat)
    requires Inv(db) && db.Linked() && FindEvent(ExpireStale(db, Some(r.user)).events, r.user, r.requestId).None?
    ensures Inv(current) && SameSettings(db, current)
    ensures (current, period) == Recalculate(ExpireStale(db, Some(r.user)), r.user)
    ensures current.events == ExpireStale(db, Some(r.user)).events
    ensures period < |current.periods| && current.periods[period].user == r.user
    ensures current.periods[period].total == db.accounts(r.user).Allowance() && CachedAt(current, period)
    ensures forall e | e in current.events :: e.user == r.user ==> e.requestId != r.requestId
    ensures current.Linked() && Reserve(db, r) == ReserveIn(current, r, period)
  {
    ExpireKeeps(db, Some(r.user));
    var expired := ExpireStale(db, Some(r.user));
    RecalculateKeeps(expired, r.user);
    ExpireIsIdempotent(expired, Some(r.user));
    current, period := Recalculate(expired, r.user).0, Recalculate(expired, r.user).1;
    LinkedWhenSound(current);
  }

  lemma ReserveKeeps(db: Db, r: Request)
    requires Inv(db)
    ensures db.Linked() && Inv(Reserve(db, r).0)
    ensures Covered(db) && Sane(r) ==> Covered(Reserve(db, r).0)
  {
    ExpireKeeps(db, Some(r.user));
    if FindEvent(ExpireStale(db, Some(r.user)).events, r.user, r.requestId).None? {
      var current, period := ReserveUnfolds(db, r);
      ReserveInKeeps(current, r, period);
    }
  }

  // ---- settle ----

  /** The state in which `settle` fails its own assertion: an unlimited plan and a wallet slice. */
  predicate FailsAssertion(db: Db, id: nat)
    requires id < |db.events|
  {
    db.events[id].Live(db.now) && db.accounts(db.events[id].user).unlimited && db.events[id].wallet > 0
  }

  /**
   The two slices of a final charge add up to it; the wallet slice is not negative, and with counts
   that are not, neither is the other.
   */
  lemma FinalSplitSound(db: Db, id: nat, prompt: int, completion: int)
    requires Inv(db) && id < |db.events| && db.events[id].Live(db.now)
    ensures db.Linked()
    ensures var split := FinalSplit(db, id, prompt, completion);
            && 0 <= split.wallet && split.allowance + split.wallet == FinalCharge(db, id, prompt, completion)
            && (EventCovered(db.events[id]) && 0 <= prompt + completion ==> 0 <= split.allowance)
  {
    LinkedWhenSound(db);
    assert EventSound(db, db.events[id]);
    ChargeIsMonotone(prompt + completion, prompt + completion, db.events[id].multiplier);
  }

  lemma SettleLiveCloses(db: Db, id: nat, prompt: int, completion: int)
    requires Inv(db) && id < |db.events| && db.events[id].Live(db.now)
    requires db.Linked() && SettleLive(db, id, prompt, completion).1 == Closed
    ensures Inv(SettleLive(db, id, prompt, completion).0)
    ensures Covered(db) && 0 <= prompt + completion ==> Covered(SettleLive(db, id, prompt, completion).0)
  {
    var e := db.events[id];
    var p := db.periods[e.period];
    assert EventSound(db, e);
    FinalSplitSound(db, id, prompt, completion);
    var split := FinalSplit(db, id, prompt, completion);
    var after := SettleLive(db, id, prompt, completion).0;
    var f := after.events[id];
    SettleLiveMoves(db, id, prompt, completion);
    ReplaceKeepsFunded(db, after, id, f);
    ReplaceKeepsSound(db, after, id, f, Max(0, p.used - (e.reserved - e.wallet) + split.allowance));
  }

  lemma SettleLiveMoves(db: Db, id: nat, prompt: int, completion: int)
    requires Inv(db) && id < |db.events| && db.events[id].Live(db.now)
    requires db.Linked() && SettleLive(db, id, prompt, completion).1 == Closed
    ensures var after := SettleLive(db, id, prompt, completion).0;
            && Moved(db, after, db.events[id].user,
                     db.events[id].wallet - FinalSplit(db, id, prompt, completion).wallet)
            && 0 <= after.Balance(db.events[id].user)
  {
    var e := db.events[id];
    assert EventSound(db, e);
    assert 0 <= db.Balance(e.user);
    FinalSplitSound(db, id, prompt, completion);
    var split := FinalSplit(db, id, prompt, completion);
    var locks := !db.accounts(e.user).unlimited && (split.wallet > 0 || e.wallet > 0);
    var locked := if locks then EnsureWallet(db, e.user) else db;
    assert SettleLive(db, id, prompt, completion) == CommitSplit(locked, id, prompt, completion, split, locks);
    CommitMoves(locked, id, prompt, completion, split, locks);
    EnsureWalletKeeps(db, e.user);
  }

  lemma CommitMoves(db: Db, id: nat, prompt: int, completion: int, split: Split, locked: bool)
    requires db.Linked() && id < |db.events| && CommitSplit(db, id, prompt, completion, split, locked).1 == Closed
    ensures Moved(db, CommitSplit(db, id, prompt, completion, split, locked).0,
                  db.events[id].user, db.events[id].wallet - split.wallet)
  {
    var delta := db.events[id].wallet - split.wallet;
    MoveWalletMoves(db, db.events[id].user, delta, if delta > 0 then Refund else Debit);
  }

  /** A failed assertion leaves every row alone but the period's, and the wallet untouched. */
  lemma SettleLiveFails(db: Db, id: nat, prompt: int, completion: int)
    requires Inv(db) && id < |db.events| && db.events[id].Live(db.now)
    requires db.Linked() && SettleLive(db, id, prompt, completion).1 == AssertionFailed
    ensures Inv(SettleLive(db, id, prompt, completion).0)
    ensures SettleLive(db, id, prompt, completion).0.events == db.events
  {
    var e := db.events[id];
    assert EventSound(db, e);
    var after := SettleLive(db, id, prompt, completion).0;
    var split := FinalSplit(db, id, prompt, completion);
    var used := Max(0, db.periods[e.period].used - (e.reserved - e.wallet) + split.allowance);
    assert after.events == db.events[id := e];
    assert Moved(db, after, e.user, 0);
    assert 0 <= db.Balance(e.user);
    ReplaceKeepsFunded(db, after, id, e);
    ReplaceKeepsSound(db, after, id, e, used);
  }

  lemma SettleLiveKeeps(db: Db, id: nat, prompt: int, completion: int)
    requires Inv(db) && id < |db.events| && db.events[id].Live(db.now)
    ensures db.Linked() && Inv(SettleLive(db, id, prompt, completion).0)
    ensures SameSettings(db, SettleLive(db, id, prompt, completion).0)
    ensures SettleLive(db, id, prompt, completion).1.AssertionFailed? <==> FailsAssertion(db, id)
    ensures Covered(db) && 0 <= prompt + completion ==> Covered(SettleLive(db, id, prompt, completion).0)
  {
    hide Total, Flow, ChargedTokens;
    LinkedWhenSound(db);
    FinalSplitSound(db, id, prompt, completion);
    assert EventSound(db, db.events[id]);
    var (after, outcome) := SettleLive(db, id, prompt, completion);
    if outcome == Closed {
      SettleLiveCloses(db, id, prompt, completion);
    } else if outcome == AssertionFailed {
      SettleLiveFails(db, id, prompt, completion);
    } else {
      EnsureWalletKeeps(db, db.events[id].user);
    }
  }

  lemma SettleKeeps(db: Db, id: nat, prompt: int, completion: int)
    requires Inv(db) && id < |db.events|
    ensures db.Linked() && Inv(Settle(db, id, prompt, completion).0)
    ensures SameSettings(db, Settle(db, id, prompt, completion).0)
    ensures Settle(db, id, prompt, completion).1 == AssertionFailed <==> FailsAssertion(db, id)
    ensures Covered(db) && 0 <= prompt + completion ==> Covered(Settle(db, id, prompt, completion).0)
  {
    hide SettleLive, Total, Flow;
    LinkedWhenSound(db);
    if db.events[id].Live(db.now) {
      SettleLiveKeeps(db, id, prompt, completion);
    } else {
      ExpireKeeps(db, Some(db.events[id].user));
    }
  }

  lemma ReleaseKeeps(db: Db, id: nat)
    requires Inv(db) && id < |db.events|
    ensures db.Linked() && Inv(Release(db, id))
    ensures SameSettings(db, Release(db, id))
    ensures Covered(db) ==> Covered(Release(db, id))
  {
    LinkedWhenSound(db);
    if db.events[id].Live(db.now) {
      CloseKeeps(db, id, Released);
    } else {
      ExpireKeeps(db, Some(db.events[id].user));
    }
  }
}
