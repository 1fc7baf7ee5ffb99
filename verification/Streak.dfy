/** The stake streak of `ht_indexer.py`: one replay of the event log, and the allowance it earns. */
module Streak {
  import opened Prelude
  import opened Calendar

  /** A text as its character codes. */
  type Value = seq<int>

  /** The parsed `event.args`: an array, an object without its null fields, or nothing usable. */
  datatype Args =
    | Unusable
    | Positional(items: seq<Option<Value>>)
    | Named(fields: map<string, Value>)

  /** An indexer event; its timestamp is missing when it does not parse. */
  datatype LogEvent = LogEvent(name: string, args: Args, timestamp: Option<Instant>)

  /** Whose position in which subnet is replayed, and how an amount reads as a number. */
  datatype Position = Position(subnet: Value, address: Value, amount: Value -> int) {
    /** Addresses are compared in lower case. */
    function Account(): Value {
      Lower(address)
    }
  }

  /** `_at`. */
  function At(args: Args, i: nat): Option<Value> {
    if args.Positional? && i < |args.items| then args.items[i] else None
  }

  /** `_named_raw` under either spelling of the field. */
  function Field(args: Args, name: string, alias: string): Option<Value> {
    if !args.Named? then None
    else if name in args.fields then Some(args.fields[name])
    else if alias in args.fields then Some(args.fields[alias])
    else None
  }

  predicate Is(text: Option<Value>, expected: Value) {
    text == Some(expected)
  }

  predicate IsLower(text: Option<Value>, expected: Value) {
    text.Some? && Lower(text.value) == expected
  }

  function AmountOf(text: Option<Value>, p: Position): int {
    if text.Some? then p.amount(text.value) else 0
  }

  /** `_event_delta`: what the event adds to the position, 0 if it does not concern it. */
  function Delta(e: LogEvent, p: Position): int {
    if e.name == "SubnetDelegateStakeAdded" then
      if Is(At(e.args, 0), p.subnet) && IsLower(At(e.args, 1), p.Account()) then AmountOf(At(e.args, 2), p) else 0
    else if e.name == "SubnetDelegateStakeRemoved" then
      if Is(At(e.args, 0), p.subnet) && IsLower(At(e.args, 1), p.Account()) then -AmountOf(At(e.args, 2), p) else 0
    else if e.name == "SubnetDelegateStakeSwapped" then
      if IsLower(At(e.args, 2), p.Account()) then
        (if Is(At(e.args, 1), p.subnet) then AmountOf(At(e.args, 3), p) else 0)
        - (if Is(At(e.args, 0), p.subnet) then AmountOf(At(e.args, 3), p) else 0)
      else 0
    else if e.name == "DelegateNodeToSubnetDelegateStakeSwapped" then
      if IsLower(Field(e.args, "accountId", "account_id"), p.Account())
         && IsLower(Field(e.args, "toSubnetId", "to_subnet_id"), p.subnet)
      then AmountOf(Field(e.args, "amount", "amount"), p) else 0
    else if e.name == "SubnetDelegateToNodeDelegateStakeSwapped" then
      if IsLower(Field(e.args, "accountId", "account_id"), p.Account())
         && IsLower(Field(e.args, "fromSubnetId", "from_subnet_id"), p.subnet)
      then -AmountOf(Field(e.args, "amount", "amount"), p) else 0
    else 0
  }

  // ---- the prefix-sum specification ----

  /** The balance after the first `n` events. */
  function Balance(events: seq<LogEvent>, p: Position, n: nat): int
    requires n <= |events|
  {
    if n == 0 then 0 else Balance(events, p, n - 1) + Delta(events[n - 1], p)
  }

  /** Event `k` lifts the balance above zero, and it never falls back. */
  ghost predicate IsStart(events: seq<LogEvent>, p: Position, k: nat) {
    && k < |events|
    && Balance(events, p, k) <= 0
    && forall n | k < n <= |events| :: 0 < Balance(events, p, n)
  }

  /** The timestamp of the start of the unbroken positive run, if there is one. */
  ghost predicate IsStreakStart(events: seq<LogEvent>, p: Position, start: Option<Instant>) {
    if exists k: nat :: IsStart(events, p, k)
    then exists k: nat :: IsStart(events, p, k) && start == events[k].timestamp
    else start.None?
  }

  /** `compute_streak_start`: one pass with a running balance. */
  method ComputeStreakStart(events: seq<LogEvent>, p: Position) returns (start: Option<Instant>)
    ensures IsStreakStart(events, p, start)
  {
    hide Delta;
    var balance := 0;
    ghost var k: nat := 0;
    start := None;
    for i := 0 to |events|
      invariant balance == Balance(events, p, i)
      invariant balance <= 0 ==> start.None?
      invariant 0 < balance ==>
                  && k < i && start == events[k].timestamp && Balance(events, p, k) <= 0
                  && forall n | k < n <= i :: 0 < Balance(events, p, n)
    {
      var delta := Delta(events[i], p);
      if delta != 0 {
        var previous := balance;
        balance := balance + delta;
        if previous <= 0 < balance {
          start := events[i].timestamp;
          k := i;
        } else if balance <= 0 {
          start := None;
        }
      }
    }
    if 0 < balance {
      assert IsStart(events, p, k);
    }
  }

  /** There is at most one start, and there is one exactly when the final balance is positive. */
  lemma StartExistsExactly(events: seq<LogEvent>, p: Position)
    ensures (exists k: nat :: IsStart(events, p, k)) <==> 0 < Balance(events, p, |events|)
    ensures forall j: nat, k: nat :: IsStart(events, p, j) && IsStart(events, p, k) ==> j == k
  {
    hide Delta;
    if 0 < Balance(events, p, |events|) {
      var k := LastCrossing(events, p, |events|);
      assert IsStart(events, p, k);
    }
  }

  lemma {:induction false} LastCrossing(events: seq<LogEvent>, p: Position, n: nat) returns (k: nat)
    requires n <= |events| && 0 < Balance(events, p, n)
    ensures k < n && Balance(events, p, k) <= 0 && forall m | k < m <= n :: 0 < Balance(events, p, m)
  {
    hide Delta;
    if Balance(events, p, n - 1) <= 0 {
      k := n - 1;
    } else {
      k := LastCrossing(events, p, n - 1);
    }
  }

  /** With timestamps that parse, there is no streak exactly when the replayed balance is not positive. */
  lemma NoStreakExactly(events: seq<LogEvent>, p: Position, start: Option<Instant>)
    requires IsStreakStart(events, p, start) && forall e | e in events :: e.timestamp.Some?
    ensures start.None? <==> Balance(events, p, |events|) <= 0
  {
    hide Delta, Balance;
    StartExistsExactly(events, p);
  }

  // ---- events that do not matter ----

  /** The log with one more event before event `i`. */
  function Inserted(events: seq<LogEvent>, i: nat, e: LogEvent): seq<LogEvent>
    requires i <= |events|
  {
    events[..i] + [e] + events[i..]
  }

  lemma {:induction false} InsertedBalance(events: seq<LogEvent>, i: nat, e: LogEvent, p: Position, n: nat)
    requires i <= |events| && n <= |events| && Delta(e, p) == 0
    ensures n <= i ==> Balance(Inserted(events, i, e), p, n) == Balance(events, p, n)
    ensures i <= n ==> Balance(Inserted(events, i, e), p, n + 1) == Balance(events, p, n)
  {
    hide Delta;
    if n > 0 {
      InsertedBalance(events, i, e, p, n - 1);
    }
    if n == i {
      assert Inserted(events, i, e)[n] == e;
    }
  }

  lemma InsertedStart(events: seq<LogEvent>, i: nat, e: LogEvent, p: Position, k: nat)
    requires i <= |events| && k < |events| && Delta(e, p) == 0 && IsStart(events, p, k)
    ensures IsStart(Inserted(events, i, e), p, if k < i then k else k + 1)
  {
    hide Delta, Balance;
    var longer := Inserted(events, i, e);
    var at := if k < i then k else k + 1;
    InsertedBalance(events, i, e, p, k);
    forall n | at < n <= |longer|
      ensures 0 < Balance(longer, p, n)
    {
      if n <= i {
        InsertedBalance(events, i, e, p, n);
      } else {
        InsertedBalance(events, i, e, p, n - 1);
      }
    }
  }

  /** An event without effect on the position leaves the streak as it is, wherever it stands in the log. */
  lemma IrrelevantEventsDoNotMatter(events: seq<LogEvent>, i: nat, e: LogEvent, p: Position, start: Option<Instant>)
    requires i <= |events| && Delta(e, p) == 0
    requires IsStreakStart(events, p, start)
    ensures IsStreakStart(Inserted(events, i, e), p, start)
  {
    hide Delta, Balance, IsStart;
    var longer := Inserted(events, i, e);
    StartExistsExactly(events, p);
    StartExistsExactly(longer, p);
    InsertedBalance(events, i, e, p, |events|);
    if exists k: nat :: IsStart(events, p, k) {
      forall k: nat | IsStart(events, p, k) {
        StartInRange(events, p, k);
      }
      var k: nat :| IsStart(events, p, k) && start == events[k].timestamp;
      InsertedStart(events, i, e, p, k);
      var at := if k < i then k else k + 1;
      assert longer[at] == events[k];
    }
  }

  lemma StartInRange(events: seq<LogEvent>, p: Position, k: nat)
    requires IsStart(events, p, k)
    ensures k < |events|
  {
  }

  /** Events of other accounts or other subnets, swaps of a subnet with itself and unusable ones have no effect. */
  predicate Irrelevant(e: LogEvent, p: Position) {
    || e.args.Unusable?
    || (e.args.Named? && !IsLower(Field(e.args, "accountId", "account_id"), p.Account()))
    || (e.args.Named? && e.name == "DelegateNodeToSubnetDelegateStakeSwapped"
        && !IsLower(Field(e.args, "toSubnetId", "to_subnet_id"), p.subnet))
    || (e.args.Named? && e.name == "SubnetDelegateToNodeDelegateStakeSwapped"
        && !IsLower(Field(e.args, "fromSubnetId", "from_subnet_id"), p.subnet))
    || (e.args.Positional? && e.name == "SubnetDelegateStakeSwapped"
        && (!IsLower(At(e.args, 2), p.Account()) || At(e.args, 0) == At(e.args, 1)
            || (!Is(At(e.args, 0), p.subnet) && !Is(At(e.args, 1), p.subnet))))
    || (e.args.Positional? && e.name in {"SubnetDelegateStakeAdded", "SubnetDelegateStakeRemoved"}
        && (!IsLower(At(e.args, 1), p.Account()) || !Is(At(e.args, 0), p.subnet)))
  }

  lemma IrrelevantHasNoDelta(e: LogEvent, p: Position)
    requires Irrelevant(e, p)
    ensures Delta(e, p) == 0
  {
  }

  // ---- what each kind of event does ----

  /** How appending an event moves the final balance. */
  function Move(events: seq<LogEvent>, e: LogEvent, p: Position): int {
    Balance(events + [e], p, |events| + 1) - Balance(events, p, |events|)
  }

  lemma {:induction false} AppendKeepsBalance(events: seq<LogEvent>, e: LogEvent, p: Position, n: nat)
    requires n <= |events|
    ensures Balance(events + [e], p, n) == Balance(events, p, n)
  {
    hide Delta;
    if n > 0 {
      AppendKeepsBalance(events, e, p, n - 1);
    }
  }

  /** Stake added to a subnet counts up for its account and subnet, in any spelling of the address. */
  lemma AdditionRaises(events: seq<LogEvent>, p: Position, account: Value, amount: Value, at: Option<Instant>)
    requires Lower(account) == Lower(p.address)
    ensures Move(events, LogEvent("SubnetDelegateStakeAdded",
                                  Positional([Some(p.subnet), Some(account), Some(amount)]), at), p)
         == p.amount(amount)
  {
    AppendKeepsBalance(events, LogEvent("SubnetDelegateStakeAdded",
                                        Positional([Some(p.subnet), Some(account), Some(amount)]), at), p, |events|);
  }

  /** Stake removed from a subnet counts down. */
  lemma RemovalLowers(events: seq<LogEvent>, p: Position, account: Value, amount: Value, at: Option<Instant>)
    requires Lower(account) == Lower(p.address)
    ensures Move(events, LogEvent("SubnetDelegateStakeRemoved",
                                  Positional([Some(p.subnet), Some(account), Some(amount)]), at), p)
         == -p.amount(amount)
  {
    AppendKeepsBalance(events, LogEvent("SubnetDelegateStakeRemoved",
                                        Positional([Some(p.subnet), Some(account), Some(amount)]), at), p, |events|);
  }

  /** A swap between two subnets moves its amount out of the first and into the second, and nothing elsewhere. */
  lemma SwapMovesBoth(events: seq<LogEvent>, from: Value, to: Value, address: Value, amount: Value -> int,
                      text: Value, at: Option<Instant>)
    requires from != to
    ensures var swap := LogEvent("SubnetDelegateStakeSwapped",
                                 Positional([Some(from), Some(to), Some(address), Some(text)]), at);
            && Move(events, swap, Position(from, address, amount)) == -amount(text)
            && Move(events, swap, Position(to, address, amount)) == amount(text)
            && forall other | other != from && other != to :: Move(events, swap, Position(other, address, amount)) == 0
  {
    var swap := LogEvent("SubnetDelegateStakeSwapped",
                         Positional([Some(from), Some(to), Some(address), Some(text)]), at);
    forall subnet
      ensures Balance(events + [swap], Position(subnet, address, amount), |events|)
           == Balance(events, Position(subnet, address, amount), |events|)
    {
      AppendKeepsBalance(events, swap, Position(subnet, address, amount), |events|);
    }
  }

  /** A swap from a node into the subnet counts up, with its fields in either spelling. */
  lemma NodeSwapInRaises(events: seq<LogEvent>, p: Position, account: Value, subnet: Value, amount: Value,
                         snake: bool, at: Option<Instant>)
    requires Lower(account) == Lower(p.address) && Lower(subnet) == p.subnet
    ensures Move(events, LogEvent("DelegateNodeToSubnetDelegateStakeSwapped",
                                  Named(if snake
                                        then map["account_id" := account, "to_subnet_id" := subnet, "amount" := amount]
                                        else map["accountId" := account, "toSubnetId" := subnet, "amount" := amount]),
                                  at), p)
         == p.amount(amount)
  {
    AppendKeepsBalance(events,
                       LogEvent("DelegateNodeToSubnetDelegateStakeSwapped",
                                Named(if snake
                                      then map["account_id" := account, "to_subnet_id" := subnet, "amount" := amount]
                                      else map["accountId" := account, "toSubnetId" := subnet, "amount" := amount]),
                                at), p, |events|);
  }

  /** A swap from the subnet to a node counts down, with its fields in either spelling. */
  lemma NodeSwapOutLowers(events: seq<LogEvent>, p: Position, account: Value, subnet: Value, amount: Value,
                          snake: bool, at: Option<Instant>)
    requires Lower(account) == Lower(p.address) && Lower(subnet) == p.subnet
    ensures Move(events, LogEvent("SubnetDelegateToNodeDelegateStakeSwapped",
                                  Named(if snake
                                        then map["account_id" := account, "from_subnet_id" := subnet,
                                            "amount" := amount]
                                        else map["accountId" := account, "fromSubnetId" := subnet, "amount" := amount]),
                                  at), p)
         == -p.amount(amount)
  {
    AppendKeepsBalance(events,
                       LogEvent("SubnetDelegateToNodeDelegateStakeSwapped",
                                Named(if snake
                                      then map["account_id" := account, "from_subnet_id" := subnet, "amount" := amount]
                                      else map["accountId" := account, "fromSubnetId" := subnet, "amount" := amount]),
                                at), p, |events|);
  }

  /** After a withdrawal of the whole balance there is no streak, whatever was before. */
  lemma WithdrawalEndsStreak(events: seq<LogEvent>, p: Position, account: Value, amount: Value, at: Option<Instant>,
                             start: Option<Instant>)
    requires Lower(account) == Lower(p.address) && p.amount(amount) >= Balance(events, p, |events|)
    requires IsStreakStart(events + [LogEvent("SubnetDelegateStakeRemoved",
                                              Positional([Some(p.subnet), Some(account), Some(amount)]), at)], p, start)
    ensures start.None?
  {
    hide Delta;
    var e := LogEvent("SubnetDelegateStakeRemoved", Positional([Some(p.subnet), Some(account), Some(amount)]), at);
    RemovalLowers(events, p, account, amount, at);
    StartExistsExactly(events + [e], p);
  }

  /** Any other event moves nothing. */
  lemma OtherKindsDoNothing(events: seq<LogEvent>, e: LogEvent, p: Position)
    requires e.name !in {"SubnetDelegateStakeAdded", "SubnetDelegateStakeRemoved", "SubnetDelegateStakeSwapped",
                         "DelegateNodeToSubnetDelegateStakeSwapped", "SubnetDelegateToNodeDelegateStakeSwapped"}
    ensures Move(events, e, p) == 0
  {
    AppendKeepsBalance(events, e, p, |events|);
  }

  // ---- the allowance ----

  /** `StakeQuotaPolicy`; the unit is at least 1. */
  datatype Policy = Policy(minDays: int, minAmount: int, decimals: nat, unit: nat, perUnit: int, cap: int)

  function TenTo(n: nat): (power: nat)
    ensures 1 <= power
  {
    if n == 0 then 1 else 10 * TenTo(n - 1)
  }

  predicate Eligible(raw: int, start: Option<Instant>, policy: Policy, now: Instant) {
    && 0 < raw
    && policy.minAmount * TenTo(policy.decimals) <= raw
    && start.Some?
    && Instant(start.value.day + policy.minDays, start.value.second, start.value.micro).AtOrBefore(now)
  }

  /** `subnet_stake_allowance`: whole units of stake, capped. */
  function Allowance(raw: int, start: Option<Instant>, policy: Policy, now: Instant): (tokens: nat)
    requires 1 <= policy.unit
    ensures 0 < policy.cap ==> tokens <= policy.cap
    ensures !Eligible(raw, start, policy, now) ==> tokens == 0
  {
    if !Eligible(raw, start, policy, now) then 0
    else
      var allowance := raw / (TenTo(policy.decimals) * policy.unit) * policy.perUnit;
      Max(0, if policy.cap > 0 then Min(allowance, policy.cap) else allowance)
  }

  lemma ProductIsMonotone(x: int, y: int, d: int)
    requires x <= y && 0 <= d
    ensures x * d <= y * d
  {
    assert y * d - x * d == (y - x) * d;
  }

  lemma Division(a: int, d: int)
    requires 0 < d
    ensures a / d * d <= a < (a / d + 1) * d
  {
    assert a == a / d * d + a % d;
    assert (a / d + 1) * d == a / d * d + d;
  }

  lemma QuotientIsMonotone(a: int, b: int, d: int)
    requires 0 <= a <= b && 0 < d
    ensures a / d <= b / d
  {
    Division(a, d);
    Division(b, d);
    if b / d + 1 <= a / d {
      ProductIsMonotone(b / d + 1, a / d, d);
      assert false;
    }
  }

  /** More stake never earns less: below the minimum nothing, then whole units up to the cap. */
  lemma AllowanceIsMonotone(raw: int, more: int, start: Option<Instant>, policy: Policy, now: Instant)
    requires 1 <= policy.unit && raw <= more
    ensures Allowance(raw, start, policy, now) <= Allowance(more, start, policy, now)
  {
    if Eligible(raw, start, policy, now) {
      var d := TenTo(policy.decimals) * policy.unit;
      assert TenTo(policy.decimals) * policy.unit >= 1;
      QuotientIsMonotone(raw, more, d);
      var x, y := raw / d, more / d;
      if 0 <= policy.perUnit {
        ProductIsMonotone(x, y, policy.perUnit);
      } else {
        QuotientIsMonotone(0, raw, d);
        ProductIsMonotone(0, x, -policy.perUnit);
        assert x * policy.perUnit == -(x * -policy.perUnit);
      }
    }
  }

  /**
   The allowance, exactly: nothing without a stake, below the minimum or before the streak is old
   enough, and else so much for each whole unit of stake, up to the cap if there is one.
   */
  lemma AllowanceExact(raw: int, start: Option<Instant>, policy: Policy, now: Instant, units: int)
    requires 1 <= policy.unit
    requires units * (policy.unit * TenTo(policy.decimals))
               <= raw < (units + 1) * (policy.unit * TenTo(policy.decimals))
    ensures var earned := units * policy.perUnit;
            Allowance(raw, start, policy, now)
            == if || raw <= 0 || raw < policy.minAmount * TenTo(policy.decimals) || start.None?
                  || now.Before(Instant(start.value.day + policy.minDays, start.value.second, start.value.micro))
               then 0
               else if policy.cap > 0 then Max(0, Min(earned, policy.cap))
               else Max(0, earned)
  {
    var d := TenTo(policy.decimals) * policy.unit;
    assert d == policy.unit * TenTo(policy.decimals) && 1 <= d;
    Division(raw, d);
    if units < raw / d {
      ProductIsMonotone(units + 1, raw / d, d);
    } else if raw / d < units {
      ProductIsMonotone(raw / d + 1, units, d);
    }
  }

  lemma TenToExact(n: nat)
    ensures TenTo(0) == 1 && TenTo(n + 1) == 10 * TenTo(n)
  {
  }
}
