/**
 The billing tables of the inference API and the steps `UsageService` takes over
 them, as functions from one state of the tables to the next. One step is one
 service call: it runs at one instant and no other call is interleaved with it.
 */
module Ledger {
  import opened Prelude
  import opened Calendar
  import opened Periods

  // ---- rows ----

  datatype Status = Reserved | Settled | Released | Expired

  /** A row of `inference_usage_events`; its id is its position in the table. */
  datatype Event = Event(
    period: nat,
    user: nat,
    key: nat,
    router: Option<nat>,
    requestId: string,
    model: string,
    prompt: int,
    completion: int,
    rawTotal: int,
    multiplier: nat,
    reserved: int,
    wallet: int,
    charged: int,
    status: Status,
    expiresAt: Instant,
    createdAt: Instant)
  {
    predicate Stale(now: Instant) {
      status == Reserved && expiresAt.AtOrBefore(now)
    }

    predicate Live(now: Instant) {
      status == Reserved && now.Before(expiresAt)
    }
  }

  /** A row of `usage_periods`: the cached view of one user's allowance in one window. */
  datatype Period = Period(user: nat, window: Window, total: int, used: int, remaining: int)

  datatype TransactionKind = TopUp | ReferralBonus | Debit | Refund

  /** Bought or earned: what puts tokens into a wallet from outside the ledger. */
  predicate IsCredit(kind: TransactionKind) {
    kind == TopUp || kind == ReferralBonus
  }

  datatype Transaction = Transaction(user: nat, delta: int, kind: TransactionKind)

  /** What the allowance computation reads about a user: subscription, balances and adjustments. */
  datatype Account = Account(
    window: Window,
    stripe: int,
    erc20: int,
    native: int,
    stake: int,
    manual: int,
    unlimited: bool)
  {
    function Allowance(): int {
      stripe + erc20 + native + stake + manual
    }
  }

  /** The optional caps of an API key; the cents are for one million wallet tokens. */
  datatype Limits = Limits(credits: Option<int>, usdCents: Option<int>, period: LimitPeriod)

  datatype Db = Db(
    now: Instant,
    events: seq<Event>,
    periods: seq<Period>,
    wallets: map<nat, int>,
    transactions: seq<Transaction>,
    accounts: nat -> Account,
    limits: nat -> Limits,
    prices: string -> nat,
    centsPerMillion: nat)
  {
    /** The foreign key from events to periods. */
    predicate Linked() {
      forall i | 0 <= i < |events| :: events[i].period < |periods|
    }

    function Balance(user: nat): int {
      if user in wallets then wallets[user] else 0
    }
  }

  // ---- sums over the event table ----

  /** The sums the service takes over events: each measure gives every event a weight. */
  datatype Measure =
    | PeriodShare(period: nat)
    | LivePeriodShare(period: nat, now: Instant)
    | WalletHeld(user: nat)
    | KeyCredits(key: nat, since: Option<Instant>, now: Instant)
    | KeyWallet(key: nat, since: Option<Instant>, now: Instant)

  /** What an event draws on its period's allowance, on the wallet, and on its key's caps. */
  function Weight(m: Measure, e: Event): int {
    match m
    case PeriodShare(period) =>
      if e.period != period then 0
      else if e.status == Settled then e.charged - e.wallet
      else if e.status == Reserved then e.reserved - e.wallet
      else 0
    case LivePeriodShare(period, now) =>
      if e.period != period then 0
      else if e.status == Settled then e.charged - e.wallet
      else if e.Live(now) then e.reserved - e.wallet
      else 0
    case WalletHeld(user) =>
      if e.user == user && (e.status == Settled || e.status == Reserved) then e.wallet else 0
    case KeyCredits(key, since, now) =>
      if e.key != key || !Counted(e, since) then 0
      else if e.status == Settled then e.charged
      else if e.Live(now) then e.reserved
      else 0
    case KeyWallet(key, since, now) =>
      if e.key != key || !Counted(e, since) then 0
      else if e.status == Settled || e.Live(now) then e.wallet
      else 0
  }

  predicate Counted(e: Event, since: Option<Instant>) {
    since.None? || since.value.AtOrBefore(e.createdAt)
  }

  function Total(m: Measure, events: seq<Event>): int {
    if events == [] then 0
    else Total(m, events[..|events| - 1]) + Weight(m, events[|events| - 1])
  }

  /** Sum of a user's wallet transactions, either all of them or only the credits. */
  function Flow(user: nat, creditsOnly: bool, transactions: seq<Transaction>): int {
    if transactions == [] then 0
    else
      var t := transactions[|transactions| - 1];
      Flow(user, creditsOnly, transactions[..|transactions| - 1])
        + if t.user == user && (creditsOnly ==> IsCredit(t.kind)) then t.delta else 0
  }

  // ---- helpers of the service ----

  const PRICE_SCALE := 10_000

  /** `charged_token_count`: the product rounded up; a multiplier has four decimals. */
  function ChargedTokens(raw: int, multiplier: nat): int {
    -(-(raw * multiplier) / PRICE_SCALE)
  }

  function FindEvent(events: seq<Event>, user: nat, requestId: string): (id: Option<nat>)
    ensures id.Some? ==> id.value < |events| && events[id.value].user == user && events[id.value].requestId == requestId
    ensures id.None? ==> forall e | e in events :: e.user == user ==> e.requestId != requestId
  {
    if events == [] then None
    else
      var last := |events| - 1;
      if events[last].user == user && events[last].requestId == requestId then Some(last)
      else FindEvent(events[..last], user, requestId)
  }

  function FindPeriod(periods: seq<Period>, user: nat, window: Window): (id: Option<nat>)
    ensures id.Some? ==> id.value < |periods| && periods[id.value].user == user && periods[id.value].window == window
    ensures id.None? ==> forall p | p in periods :: p.user == user ==> p.window != window
  {
    if periods == [] then None
    else
      var last := |periods| - 1;
      if periods[last].user == user && periods[last].window == window then Some(last)
      else FindPeriod(periods[..last], user, window)
  }

  function SetUsed(period: Period, used: int): Period {
    period.(used := used, remaining := Max(0, period.total - used))
  }

  /** `_lock_or_create_wallet`. */
  function EnsureWallet(db: Db, user: nat): Db {
    if user in db.wallets then db else db.(wallets := db.wallets[user := 0])
  }

  function MoveWallet(db: Db, user: nat, delta: int, kind: TransactionKind): Db {
    db.(wallets := db.wallets[user := db.Balance(user) + delta],
        transactions := db.transactions + [Transaction(user, delta, kind)])
  }

  /** Give back both slices of a reservation and close it: the common part of expiry and release. */
  function CloseReservation(db: Db, id: nat, status: Status): (after: Db)
    requires db.Linked() && id < |db.events|
    ensures after.Linked()
  {
    var e := db.events[id];
    var p := db.periods[e.period];
    var refunded := if e.wallet != 0 then MoveWallet(db, e.user, e.wallet, Refund) else db;
    refunded.(
      periods := db.periods[e.period := SetUsed(p, Max(0, p.used - (e.reserved - e.wallet)))],
      events := db.events[id := e.(status := status)])
  }

  /** The reservations `expire_stale_reservations` selects, of one user or of all. */
  predicate Overdue(db: Db, user: Option<nat>, id: nat)
    requires id < |db.events|
  {
    db.events[id].Stale(db.now) && (user.None? || user.value == db.events[id].user)
  }

  function ExpireUpTo(db: Db, user: Option<nat>, n: nat): (after: Db)
    requires db.Linked() && n <= |db.events|
    ensures after.Linked() && |after.events| == |db.events|
  {
    if n == 0 then db
    else
      var before := ExpireUpTo(db, user, n - 1);
      if Overdue(before, user, n - 1) then CloseReservation(before, n - 1, Expired) else before
  }

  function ExpireStale(db: Db, user: Option<nat>): (after: Db)
    requires db.Linked()
    ensures after.Linked() && |after.events| == |db.events|
  {
    ExpireUpTo(db, user, |db.events|)
  }

  // ---- recalculating the current period ----

  function OpenPeriod(db: Db, user: nat): (r: (Db, nat))
    requires db.Linked()
    ensures r.0.Linked() && r.1 < |r.0.periods|
  {
    var window := db.accounts(user).window;
    match FindPeriod(db.periods, user, window)
    case Some(id) => (db, id)
    case None => (db.(periods := db.periods + [Period(user, window, 0, 0, 0)]), |db.periods|)
  }

  /** `_period_used_tokens` followed by the assignments of `recalculate_current_period`. */
  function Refresh(db: Db, id: nat): (after: Db)
    requires db.Linked() && id < |db.periods|
    ensures after.Linked()
  {
    var p := db.periods[id];
    var total := db.accounts(p.user).Allowance();
    db.(periods := db.periods[id := SetUsed(p.(total := total), Total(LivePeriodShare(id, db.now), db.events))])
  }

  function Recalculate(db: Db, user: nat): (r: (Db, nat))
    requires db.Linked()
    ensures r.0.Linked() && r.1 < |r.0.periods|
  {
    var (current, id) := OpenPeriod(ExpireStale(db, Some(user)), user);
    (Refresh(current, id), id)
  }

  // ---- spend caps of the key ----

  datatype Refusal =
    | InsufficientBalance
    | CreditLimitExceeded
    | UsdLimitExceeded
    | ReservationExpired
    | ReservationNotActive

  /** The start of the key's current window; a lifetime cap counts from the beginning. */
  function WindowStart(limits: Limits, now: Instant): Option<Instant> {
    if limits.period == Never then None else Some(LimitWindow(limits.period, now).start)
  }

  /** `key_spend`. */
  function CreditsUsed(db: Db, key: nat): int {
    Total(KeyCredits(key, WindowStart(db.limits(key), db.now), db.now), db.events)
  }

  function WalletUsed(db: Db, key: nat): int {
    Total(KeyWallet(key, WindowStart(db.limits(key), db.now), db.now), db.events)
  }

  /** `wallet_tokens_to_usd_cents(tokens) <= cents`, without the division. */
  predicate WithinUsd(db: Db, tokens: int, cents: int) {
    tokens * db.centsPerMillion <= cents * 1_000_000
  }

  /** `enforce_spend_limits`. */
  function CapRefusal(db: Db, key: nat, credits: int, wallet: int): Option<Refusal> {
    var limits := db.limits(key);
    if limits.credits.Some? && CreditsUsed(db, key) + credits > limits.credits.value then Some(CreditLimitExceeded)
    else if limits.usdCents.Some? && wallet > 0
         && !WithinUsd(db, WalletUsed(db, key) + wallet, limits.usdCents.value) then Some(UsdLimitExceeded)
    else None
  }

  // ---- reserve ----

  datatype Request = Request(
    user: nat,
    key: nat,
    router: Option<nat>,
    model: string,
    prompt: int,
    maxCompletion: int,
    requestId: string,
    expiresAt: Instant)

  datatype Outcome =
    | Granted(id: nat)
    | Existing(id: nat)
    | Closed
    | Refused(why: Refusal)
    | AssertionFailed

  /** How a new reservation is funded: allowance first, the rest from the wallet. */
  datatype Split = Split(allowance: int, wallet: int)

  function SplitCharge(charge: int, available: int, unlimited: bool): Split {
    var allowance := if unlimited then charge else Min(charge, available);
    Split(allowance, charge - allowance)
  }

  function NewEvent(db: Db, r: Request, period: nat, reserved: int, wallet: int): Event {
    Event(period, r.user, r.key, r.router, r.requestId, r.model, r.prompt, 0, r.prompt + r.maxCompletion,
          db.prices(r.model), reserved, wallet, 0, Reserved, r.expiresAt, db.now)
  }

  function RequestCharge(db: Db, r: Request): int {
    ChargedTokens(r.prompt + r.maxCompletion, db.prices(r.model))
  }

  function RequestSplit(db: Db, r: Request, period: nat): Split
    requires period < |db.periods|
  {
    SplitCharge(RequestCharge(db, r), db.periods[period].remaining, db.accounts(r.user).unlimited)
  }

  /** The last part of a reservation, once the current period is fresh. */
  function ReserveIn(db: Db, r: Request, period: nat): (after: (Db, Outcome))
    requires db.Linked() && period < |db.periods|
    ensures after.0.Linked()
    ensures if after.1.Granted? then after.1.id < |after.0.events| else after.1.Refused?
  {
    var p := db.periods[period];
    var reserved := RequestCharge(db, r);
    var split := RequestSplit(db, r, period);
    var locked := if split.wallet > 0 then EnsureWallet(db, r.user) else db;
    if split.wallet > 0 && locked.Balance(r.user) < split.wallet then (locked, Refused(InsufficientBalance))
    else match CapRefusal(locked, r.key, reserved, split.wallet)
      case Some(why) => (locked, Refused(why))
      case None =>
        var debited := if split.wallet > 0 then MoveWallet(locked, r.user, -split.wallet, Debit) else locked;
        (debited.(
           periods := db.periods[period := SetUsed(p, p.used + split.allowance)],
           events := db.events + [NewEvent(db, r, period, reserved, split.wallet)]),
         Granted(|db.events|))
  }

  /** `reserve_inference_tokens`. */
  function Reserve(db: Db, r: Request): (after: (Db, Outcome))
    requires db.Linked()
    ensures after.0.Linked()
    ensures if after.1.Refused? then true else (after.1.Granted? || after.1.Existing?) && after.1.id < |after.0.events|
  {
    var expired := ExpireStale(db, Some(r.user));
    match FindEvent(expired.events, r.user, r.requestId)
    case Some(id) => (expired, Existing(id))
    case None =>
      var (current, period) := Recalculate(expired, r.user);
      ReserveIn(current, r, period)
  }

  // ---- settle and release ----

  /** The final charge of an event and how it is funded once its own reservation is taken back. */
  function FinalCharge(db: Db, id: nat, prompt: int, completion: int): int
    requires id < |db.events|
  {
    ChargedTokens(prompt + completion, db.events[id].multiplier)
  }

  function FinalSplit(db: Db, id: nat, prompt: int, completion: int): Split
    requires db.Linked() && id < |db.events|
  {
    var e := db.events[id];
    SplitCharge(FinalCharge(db, id, prompt, completion),
                db.periods[e.period].remaining + (e.reserved - e.wallet),
                db.accounts(e.user).unlimited)
  }

  /** The rows a settlement writes once its funds are found, the wallet row locked or not. */
  function CommitSplit(db: Db, id: nat, prompt: int, completion: int, split: Split, locked: bool)
    : (after: (Db, Outcome))
    requires db.Linked() && id < |db.events|
    ensures after.0.Linked()
  {
    var e := db.events[id];
    var p := db.periods[e.period];
    var periods := db.periods[e.period := SetUsed(p, Max(0, p.used - (e.reserved - e.wallet) + split.allowance))];
    var delta := e.wallet - split.wallet;
    // The period is already changed when the assertion on the wallet fails.
    if delta != 0 && !locked then (db.(periods := periods), AssertionFailed)
    else
      var moved := if delta == 0 then db else MoveWallet(db, e.user, delta, if delta > 0 then Refund else Debit);
      (moved.(
         periods := periods,
         events := db.events[id := e.(prompt := prompt, completion := completion, rawTotal := prompt + completion,
                                      charged := FinalCharge(db, id, prompt, completion), wallet := split.wallet,
                                      status := Settled)]),
       Closed)
  }

  /** The re-split of a live reservation at its final charge. */
  function SettleLive(db: Db, id: nat, prompt: int, completion: int): (after: (Db, Outcome))
    requires db.Linked() && id < |db.events|
    ensures after.0.Linked()
  {
    var e := db.events[id];
    var unlimited := db.accounts(e.user).unlimited;
    var split := FinalSplit(db, id, prompt, completion);
    var locks := !unlimited && (split.wallet > 0 || e.wallet > 0);
    var locked := if locks then EnsureWallet(db, e.user) else db;
    if !unlimited && split.wallet > (if locks then locked.Balance(e.user) else 0) + e.wallet
    then (locked, Refused(InsufficientBalance))
    else CommitSplit(locked, id, prompt, completion, split, locks)
  }

  /** `settle_inference_usage`. */
  function Settle(db: Db, id: nat, prompt: int, completion: int): (after: (Db, Outcome))
    requires db.Linked() && id < |db.events|
    ensures after.0.Linked()
  {
    var e := db.events[id];
    if e.status == Settled then (db, Closed)
    else if e.Stale(db.now) then (ExpireStale(db, Some(e.user)), Refused(ReservationExpired))
    else if e.status == Expired || e.status == Released then (db, Refused(ReservationNotActive))
    else SettleLive(db, id, prompt, completion)
  }

  /** `release_inference_reservation`. */
  function Release(db: Db, id: nat): (after: Db)
    requires db.Linked() && id < |db.events|
    ensures after.Linked()
  {
    var e := db.events[id];
    if e.status != Reserved then db
    else if e.Stale(db.now) then ExpireStale(db, Some(e.user))
    else CloseReservation(db, id, Released)
  }

  // ---- runs ----

  /** The calls of the service and, after them, the steps of its environment. */
  datatype Step =
    | DoReserve(request: Request)
    | DoSettle(id: nat, prompt: int, completion: int)
    | DoRelease(id: nat)
    | DoExpire(user: Option<nat>)
    | DoRecalculate(account: nat)
    | Tick(to: Instant)
    | Purchase(buyer: nat, tokens: nat)
    | Earn(referrer: nat, bonus: nat)
    | Reconfigure(accounts: nat -> Account, prices: string -> nat)
    | SetLimits(limits: nat -> Limits)

  function Apply(db: Db, step: Step): (after: Db)
    requires db.Linked()
    ensures after.Linked()
  {
    match step
    case DoReserve(r) => Reserve(db, r).0
    case DoSettle(id, prompt, completion) => if id < |db.events| then Settle(db, id, prompt, completion).0 else db
    case DoRelease(id) => if id < |db.events| then Release(db, id) else db
    case DoExpire(user) => ExpireStale(db, user)
    case DoRecalculate(user) => Recalculate(db, user).0
    case Tick(to) => if to.Valid() && db.now.Before(to) then db.(now := to) else db
    case Purchase(user, tokens) => MoveWallet(db, user, tokens, TopUp)
    case Earn(user, tokens) => MoveWallet(db, user, tokens, ReferralBonus)
    case Reconfigure(accounts, prices) => db.(accounts := accounts, prices := prices)
    case SetLimits(limits) => db.(limits := limits)
  }

  function Run(db: Db, steps: seq<Step>): (after: Db)
    requires db.Linked()
    ensures after.Linked()
    decreases |steps|
  {
    if steps == [] then db else Run(Apply(db, steps[0]), steps[1..])
  }

  /** `ok` holds of every step of a run, in the state the step starts from. */
  ghost predicate Along(db: Db, steps: seq<Step>, ok: (Db, Step) -> bool)
    requires db.Linked()
    decreases |steps|
  {
    steps != [] ==> ok(db, steps[0]) && Along(Apply(db, steps[0]), steps[1..], ok)
  }

  /** Empty tables. */
  predicate Initial(db: Db) {
    db.now.Valid() && db.events == [] && db.periods == [] && db.wallets == map[] && db.transactions == []
  }
}
