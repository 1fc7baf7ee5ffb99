/** The promises of the billing ledger, over single calls and over whole runs. */
module LedgerTheorems {
  import opened Prelude
  import opened Calendar
  import opened Periods
  import opened Ledger
  import opened LedgerInvariants
  import opened LedgerCache

  // ---- runs ----

  lemma CreditKeeps(db: Db, user: nat, tokens: nat, kind: TransactionKind)
    requires Inv(db) && IsCredit(kind)
    ensures db.Linked() && Inv(MoveWallet(db, user, tokens, kind))
  {
    LinkedWhenSound(db);
    var after := MoveWallet(db, user, tokens, kind);
    forall i | 0 <= i < |after.events|
      ensures EventSound(after, after.events[i])
    {
      assert EventSound(db, db.events[i]);
    }
    forall u: nat
      ensures 0 <= after.Balance(u)
      ensures after.Balance(u) + Total(WalletHeld(u), after.events) == Flow(u, true, after.transactions)
      ensures after.Balance(u) == Flow(u, false, after.transactions)
    {
      assert 0 <= db.Balance(u);
      FlowAppend(u, false, db.transactions, Transaction(user, tokens, kind));
      FlowAppend(u, true, db.transactions, Transaction(user, tokens, kind));
    }
  }

  /** Steps of the environment other than credits touch no row. */
  lemma SettingsKeep(db: Db, after: Db)
    requires Inv(db)
    requires after.events == db.events && after.periods == db.periods
    requires after.wallets == db.wallets && after.transactions == db.transactions
    requires after.now.Valid() && db.now.AtOrBefore(after.now)
    ensures Inv(after)
  {
    forall i | 0 <= i < |after.events|
      ensures EventSound(after, after.events[i])
    {
      assert EventSound(db, db.events[i]);
    }
    forall u: nat
      ensures 0 <= after.Balance(u)
      ensures after.Balance(u) + Total(WalletHeld(u), after.events) == Flow(u, true, after.transactions)
      ensures after.Balance(u) == Flow(u, false, after.transactions)
    {
      assert 0 <= db.Balance(u);
    }
  }

  lemma StepKeeps(db: Db, step: Step)
    requires Inv(db)
    ensures db.Linked() && Inv(Apply(db, step))
    ensures Covered(db) && Clean(step) ==> Covered(Apply(db, step))
  {
    hide Total, Flow, Reserve, Settle, Release, Recalculate, ExpireStale;
    LinkedWhenSound(db);
    match step
    case DoReserve(r) => ReserveKeeps(db, r);
    case DoSettle(id, prompt, completion) => if id < |db.events| { SettleKeeps(db, id, prompt, completion); }
    case DoRelease(id) => if id < |db.events| { ReleaseKeeps(db, id); }
    case DoExpire(user) => ExpireKeeps(db, user);
    case DoRecalculate(user) => RecalculateKeeps(db, user);
    case Purchase(user, tokens) => CreditKeeps(db, user, tokens, TopUp);
    case Earn(user, tokens) => CreditKeeps(db, user, tokens, ReferralBonus);
    case _ => SettingsKeep(db, Apply(db, step));
  }

  lemma InitialKeeps(db: Db)
    requires Initial(db)
    ensures Inv(db) && Covered(db) && Cached(db)
  {
  }

  /** Every interleaving of calls, with any counts, keeps the rows sound and the wallet conserved. */
  lemma {:induction false} RunKeeps(db: Db, steps: seq<Step>)
    requires Inv(db)
    ensures db.Linked() && Inv(Run(db, steps))
    ensures Covered(db) && (forall step | step in steps :: Clean(step)) ==> Covered(Run(db, steps))
    decreases |steps|
  {
    hide Inv, Covered, Apply;
    StepLinked(db);
    if steps != [] {
      StepKeeps(db, steps[0]);
      RunKeeps(Apply(db, steps[0]), steps[1..]);
    }
  }

  lemma StepLinked(db: Db)
    requires Inv(db)
    ensures db.Linked()
  {
    LinkedWhenSound(db);
  }

  /**
   Conservation of the wallet over every run from empty tables, whatever counts the calls
   carry: the balance is never negative, balance and wallet slices of open and settled events
   add up to the credits bought and earned, and the balance is the sum of the transaction log.
   */
  lemma WalletIsConserved(db: Db, steps: seq<Step>, user: nat)
    requires Initial(db)
    ensures db.Linked()
    ensures var after := Run(db, steps);
            && 0 <= after.Balance(user)
            && after.Balance(user) + Total(WalletHeld(user), after.events) == Flow(user, true, after.transactions)
            && after.Balance(user) == Flow(user, false, after.transactions)
  {
    InitialKeeps(db);
    RunKeeps(db, steps);
    assert 0 <= Run(db, steps).Balance(user);
  }

  /** A run of some steps and then others. */
  lemma {:induction false} RunConcat(db: Db, first: seq<Step>, second: seq<Step>)
    requires db.Linked()
    ensures Run(db, first + second) == Run(Run(db, first), second)
    decreases |first|
  {
    hide Apply;
    if first == [] {
      assert first + second == second;
    } else {
      RunConcat(Apply(db, first[0]), first[1..], second);
      assert (first + second)[1..] == first[1..] + second;
    }
  }

  lemma RunOne(db: Db, step: Step)
    requires db.Linked()
    ensures Run(db, [step]) == Apply(db, step)
  {
    hide Apply;
    assert Run(Apply(db, step), [step][1..]) == Apply(db, step);
  }

  lemma RunMore(db: Db, steps: seq<Step>, step: Step)
    requires db.Linked()
    ensures Run(db, steps + [step]) == Apply(Run(db, steps), step)
  {
    hide Run, Apply;
    RunConcat(db, steps, [step]);
    RunOne(Run(db, steps), step);
  }

  // ---- the cached counters over runs ----

  lemma RunSplits(db: Db, steps: seq<Step>, k: nat)
    requires db.Linked() && steps != [] && 0 < k <= |steps|
    ensures Run(db, steps[..k]) == Run(Apply(db, steps[0]), steps[1..][..k - 1])
  {
    assert steps[..k][1..] == steps[1..][..k - 1];
  }

  /**
   For any counts, the counters equal the ledger at every point of a run exactly when they
   follow each of its steps.
   */
  lemma {:induction false} RunCacheExact(db: Db, steps: seq<Step>)
    requires Inv(db) && Cached(db)
    ensures db.Linked()
    ensures Along(db, steps, CounterFollows) <==> forall k: nat | k <= |steps| :: Cached(Run(db, steps[..k]))
    decreases |steps|
  {
    hide Inv, Cached, CounterFollows, Apply;
    StepLinked(db);
    assert Run(db, steps[..0]) == db;
    if steps != [] {
      var next := Apply(db, steps[0]);
      StepKeeps(db, steps[0]);
      StepCacheExact(db, steps[0]);
      forall k: nat | 0 < k <= |steps|
        ensures Run(db, steps[..k]) == Run(next, steps[1..][..k - 1])
      {
        RunSplits(db, steps, k);
      }
      assert Run(next, steps[1..][..0]) == next;
      if Cached(next) {
        RunCacheExact(next, steps[1..]);
        RunShifts(db, steps);
      } else {
        assert Run(db, steps[..1]) == next;
      }
    }
  }

  /** What holds at every point of a run holds at its start and at every point of the rest. */
  lemma RunShifts(db: Db, steps: seq<Step>)
    requires db.Linked() && steps != [] && Cached(db)
    ensures (forall k: nat | k <= |steps| :: Cached(Run(db, steps[..k]))) <==>
            (forall k: nat | k <= |steps[1..]| :: Cached(Run(Apply(db, steps[0]), steps[1..][..k])))
  {
    hide Cached, Apply;
    var next := Apply(db, steps[0]);
    assert Run(db, steps[..0]) == db;
    forall k: nat | k < |steps|
      ensures Run(db, steps[..k + 1]) == Run(next, steps[1..][..k])
    {
      RunSplits(db, steps, k + 1);
    }
    if forall k: nat | k <= |steps| :: Cached(Run(db, steps[..k])) {
      forall k: nat | k <= |steps[1..]|
        ensures Cached(Run(next, steps[1..][..k]))
      {
        assert Cached(Run(db, steps[..k + 1]));
      }
    }
    if forall k: nat | k <= |steps[1..]| :: Cached(Run(next, steps[1..][..k])) {
      forall k: nat | k <= |steps|
        ensures Cached(Run(db, steps[..k]))
      {
        if k > 0 {
          assert Cached(Run(next, steps[1..][..k - 1]));
        }
      }
    }
  }

  /** A call with the token counts its callers promise: their sums are not negative. */
  predicate Clean(step: Step) {
    && (step.DoReserve? ==> Sane(step.request))
    && (step.DoSettle? ==> 0 <= step.prompt + step.completion)
  }

  /** The step is not a settlement that fails its own assertion. */
  predicate Safe(db: Db, step: Step) {
    step.DoSettle? && step.id < |db.events| ==> !FailsAssertion(db, step.id)
  }

  /** With counts that are not negative only a failed assertion can leave a counter behind. */
  lemma CleanStepsFollow(db: Db, step: Step)
    requires Inv(db) && Covered(db) && Cached(db) && Clean(step) && Safe(db, step)
    ensures CounterFollows(db, step)
  {
    hide Total, Flow, AllFit;
    LinkedWhenSound(db);
    forall user: Option<nat>
      ensures AllFit(db, user)
    {
      CoveredFits(db, user);
    }
    forall user: nat
      ensures OthersFit(db, user)
    {
      assert AllFit(db, Some(user));
      FitsAllFitsOthers(db, user);
    }
    match step
    case DoSettle(id, prompt, completion) =>
      if id < |db.events| && db.events[id].Live(db.now) {
        assert EventCovered(db.events[id]);
        FinalSplitSound(db, id, prompt, completion);
        ShareWithin(db, id);
      }
    case DoRelease(id) =>
      if id < |db.events| && db.events[id].Live(db.now) {
        ShareWithin(db, id);
      }
    case _ =>
  }

  lemma FitsAllFitsOthers(db: Db, user: nat)
    requires AllFit(db, Some(user))
    ensures OthersFit(db, user)
  {
  }

  /**
   Along every run with counts that are not negative and without a failed assertion the cached
   counters refine the event ledger: used is what the period's events draw, remaining the rest.
   */
  lemma {:induction false} RunKeepsCache(db: Db, steps: seq<Step>)
    requires Inv(db) && Covered(db) && Cached(db) && forall step | step in steps :: Clean(step)
    requires db.Linked() && Along(db, steps, Safe)
    ensures Along(db, steps, CounterFollows) && Cached(Run(db, steps))
    ensures forall p: nat | p < |Run(db, steps).periods| ::
              var period := Run(db, steps).periods[p];
              && period.used == Total(PeriodShare(p), Run(db, steps).events)
              && period.remaining == Max(0, period.total - period.used)
    decreases |steps|
  {
    if steps != [] {
      StepKeeps(db, steps[0]);
      CleanStepsFollow(db, steps[0]);
      StepCacheExact(db, steps[0]);
      RunKeepsCache(Apply(db, steps[0]), steps[1..]);
    } else {
      forall p: nat | p < |db.periods|
        ensures db.periods[p].used == Total(PeriodShare(p), db.events)
        ensures db.periods[p].remaining == Max(0, db.periods[p].total - db.periods[p].used)
      {
        assert CachedAt(db, p);
      }
    }
  }

  // ---- the life of an event ----

  /** An open event stays as it is or is closed once; a closed event never changes. */
  predicate Successor(e: Event, f: Event) {
    && SameIdentity(e, f)
    && (e.status != Reserved || f.status == Reserved ==> f == e)
    && (f.status == Released || f.status == Expired ==> f == e.(status := f.status))
  }

  ghost predicate Evolved(db: Db, after: Db) {
    && |db.events| <= |after.events|
    && forall i | 0 <= i < |db.events| :: Successor(db.events[i], after.events[i])
  }

  lemma EvolvedTransitive(a: Db, b: Db, c: Db)
    requires Evolved(a, b) && Evolved(b, c)
    ensures Evolved(a, c)
  {
    forall i | 0 <= i < |a.events|
      ensures Successor(a.events[i], c.events[i])
    {
      assert Successor(a.events[i], b.events[i]) && Successor(b.events[i], c.events[i]);
    }
  }

  lemma ExpireEvolves(db: Db, user: Option<nat>)
    requires Inv(db)
    ensures db.Linked() && Evolved(db, ExpireStale(db, user)) && |ExpireStale(db, user).events| == |db.events|
  {
    ExpireKeeps(db, user);
  }

  /** A reservation opens one event, on the plan of the moment, or none. */
  lemma ReserveEvents(db: Db, r: Request)
    requires Inv(db)
    ensures db.Linked() && SameSettings(db, Reserve(db, r).0) && Evolved(db, Reserve(db, r).0)
    ensures var (after, outcome) := Reserve(db, r);
            if outcome.Granted?
            then
              && outcome.id == |db.events| && |after.events| == outcome.id + 1
              && after.events[outcome.id].status == Reserved && after.events[outcome.id].user == r.user
              && (db.accounts(r.user).unlimited ==> after.events[outcome.id].wallet == 0)
            else |after.events| == |db.events|
  {
    hide Total, Flow, ReserveIn;
    ExpireEvolves(db, Some(r.user));
    ExpireKeeps(db, Some(r.user));
    if FindEvent(ExpireStale(db, Some(r.user)).events, r.user, r.requestId).None? {
      var current, period := ReserveUnfolds(db, r);
      ReserveInKeeps(current, r, period);
      if Reserve(db, r).1.Granted? {
        ReserveInAppends(current, r, period);
      }
      assert Evolved(db, current) && Evolved(current, Reserve(db, r).0);
      EvolvedTransitive(db, current, Reserve(db, r).0);
    }
  }

  lemma SettleLiveEvolves(db: Db, id: nat, prompt: int, completion: int)
    requires db.Linked() && id < |db.events| && db.events[id].status == Reserved
    ensures Evolved(db, SettleLive(db, id, prompt, completion).0)
    ensures |SettleLive(db, id, prompt, completion).0.events| == |db.events|
    ensures SameSettings(db, SettleLive(db, id, prompt, completion).0)
  {
    hide ChargedTokens;
  }

  lemma SettleEvolves(db: Db, id: nat, prompt: int, completion: int)
    requires Inv(db) && id < |db.events|
    ensures db.Linked() && Evolved(db, Settle(db, id, prompt, completion).0)
    ensures |Settle(db, id, prompt, completion).0.events| == |db.events|
    ensures SameSettings(db, Settle(db, id, prompt, completion).0)
  {
    hide SettleLive;
    LinkedWhenSound(db);
    if db.events[id].Live(db.now) {
      SettleLiveEvolves(db, id, prompt, completion);
    } else {
      ExpireEvolves(db, Some(db.events[id].user));
      ExpireKeeps(db, Some(db.events[id].user));
    }
  }

  lemma ReleaseEvolves(db: Db, id: nat)
    requires Inv(db) && id < |db.events|
    ensures db.Linked() && Evolved(db, Release(db, id)) && |Release(db, id).events| == |db.events|
    ensures SameSettings(db, Release(db, id))
  {
    LinkedWhenSound(db);
    ExpireEvolves(db, Some(db.events[id].user));
    ExpireKeeps(db, Some(db.events[id].user));
  }

  lemma RecalculateEvolves(db: Db, user: nat)
    requires Inv(db)
    ensures db.Linked() && Evolved(db, Recalculate(db, user).0) && |Recalculate(db, user).0.events| == |db.events|
    ensures SameSettings(db, Recalculate(db, user).0)
  {
    ExpireEvolves(db, Some(user));
    RecalculateKeeps(db, user);
  }

  /** The event a step opens is open and, on an unlimited plan, without a wallet slice. */
  ghost predicate OpensAsPlanned(db: Db, after: Db) {
    forall i | |db.events| <= i < |after.events| ::
      && after.events[i].status == Reserved
      && (db.accounts(after.events[i].user).unlimited ==> after.events[i].wallet == 0)
  }

  lemma StepEvents(db: Db, step: Step)
    requires Inv(db)
    ensures db.Linked() && Evolved(db, Apply(db, step)) && OpensAsPlanned(db, Apply(db, step))
    ensures step.Reconfigure? || Apply(db, step).accounts == db.accounts
  {
    hide Total, Flow, Reserve, Settle, Release;
    LinkedWhenSound(db);
    match step
    case DoReserve(r) => ReserveEvents(db, r);
    case DoSettle(id, prompt, completion) => if id < |db.events| { SettleEvolves(db, id, prompt, completion); }
    case DoRelease(id) => if id < |db.events| { ReleaseEvolves(db, id); }
    case DoExpire(user) => ExpireEvolves(db, user); ExpireKeeps(db, user);
    case DoRecalculate(user) => RecalculateEvolves(db, user);
    case _ =>
  }

  /** Over a whole run every event keeps its identity, closes at most once and then never changes. */
  lemma {:induction false} RunEvents(db: Db, steps: seq<Step>)
    requires Inv(db)
    ensures db.Linked() && Evolved(db, Run(db, steps))
    decreases |steps|
  {
    hide Apply, Inv;
    StepLinked(db);
    if steps != [] {
      StepEvents(db, steps[0]);
      StepKeeps(db, steps[0]);
      RunEvents(Apply(db, steps[0]), steps[1..]);
      EvolvedTransitive(db, Apply(db, steps[0]), Run(db, steps));
    }
  }

  // ---- the assertion in settle ----

  /** Users on an unlimited plan hold no reservation funded from the wallet. */
  ghost predicate UnlimitedUnfunded(db: Db) {
    forall i | 0 <= i < |db.events| ::
      db.events[i].status == Reserved && db.accounts(db.events[i].user).unlimited ==> db.events[i].wallet == 0
  }

  /** No user's plan changes between metered and unlimited. */
  ghost predicate KeepsPlans(db: Db, step: Step) {
    step.Reconfigure? ==> forall user: nat :: step.accounts(user).unlimited == db.accounts(user).unlimited
  }

  lemma StepKeepsUnfunded(db: Db, step: Step)
    requires Inv(db) && UnlimitedUnfunded(db) && KeepsPlans(db, step)
    ensures db.Linked() && UnlimitedUnfunded(Apply(db, step))
  {
    hide Apply;
    StepEvents(db, step);
    PlansStay(db, step);
    var after := Apply(db, step);
    forall i | 0 <= i < |after.events| && after.events[i].status == Reserved
        && after.accounts(after.events[i].user).unlimited
      ensures after.events[i].wallet == 0
    {
      assert i < |db.events| ==> Successor(db.events[i], after.events[i]);
    }
  }

  lemma PlansStay(db: Db, step: Step)
    requires Inv(db) && KeepsPlans(db, step)
    ensures db.Linked()
    ensures forall user: nat :: Apply(db, step).accounts(user).unlimited == db.accounts(user).unlimited
  {
    hide Reserve, Settle, Release, Recalculate, ExpireStale;
    StepEvents(db, step);
  }

  /**
   While no plan changes between metered and unlimited, no settlement of a run fails its
   assertion, whatever its counts; with counts that are not negative the cache stays exact.
   */
  lemma {:induction false} FixedPlansKeepCache(db: Db, steps: seq<Step>)
    requires Inv(db) && UnlimitedUnfunded(db)
    requires db.Linked() && Along(db, steps, KeepsPlans)
    ensures Along(db, steps, Safe)
    ensures Covered(db) && Cached(db) && (forall step | step in steps :: Clean(step)) ==> Cached(Run(db, steps))
    decreases |steps|
  {
    if steps != [] {
      StepKeeps(db, steps[0]);
      StepKeepsUnfunded(db, steps[0]);
      FixedPlansKeepCache(Apply(db, steps[0]), steps[1..]);
    }
    if Covered(db) && Cached(db) && forall step | step in steps :: Clean(step) {
      RunKeepsCache(db, steps);
    }
  }

  /**
   When exactly a settlement with counts that are not negative leaves the cached counter wrong:
   the user moved to an unlimited plan while the event held wallet tokens, and the charge differs
   from the allowance slice of the reservation. The counter is moved before the assertion fails.
   */
  lemma SettleCacheExact(db: Db, id: nat, prompt: int, completion: int)
    requires Inv(db) && Covered(db) && Cached(db) && id < |db.events| && 0 <= prompt + completion
    ensures db.Linked()
    ensures Cached(Settle(db, id, prompt, completion).0) <==>
            !(FailsAssertion(db, id)
              && FinalCharge(db, id, prompt, completion) != db.events[id].reserved - db.events[id].wallet)
  {
    hide Total, Flow;
    LinkedWhenSound(db);
    StepCacheExact(db, DoSettle(id, prompt, completion));
    if FailsAssertion(db, id) {
      assert EventCovered(db.events[id]);
      ShareWithin(db, id);
      ChargeIsMonotone(prompt + completion, prompt + completion, db.events[id].multiplier);
    } else {
      CleanStepsFollow(db, DoSettle(id, prompt, completion));
    }
  }

  /**
   Enclave-reported counts are not checked for sign on the plaintext path. A negative sum is
   a credit, and the clamp of the period counter swallows what exceeds the other events' share.
   What a later release or expiry then takes back is `RunCacheExact`'s business.
   */
  lemma NegativeChargeCacheExact(db: Db, id: nat, prompt: int, completion: int)
    requires Inv(db) && Cached(db) && id < |db.events| && db.events[id].Live(db.now) && EventCovered(db.events[id])
    requires prompt + completion < 0 && !FailsAssertion(db, id)
    ensures db.Linked()
    ensures var e := db.events[id];
            Cached(Settle(db, id, prompt, completion).0) <==>
            -FinalCharge(db, id, prompt, completion) <= db.periods[e.period].used - (e.reserved - e.wallet)
  {
    hide Total, Flow;
    LinkedWhenSound(db);
    ChargeIsMonotone(prompt + completion, 0, db.events[id].multiplier);
    SettleLiveCacheExact(db, id, prompt, completion);
    assert EventSound(db, db.events[id]);
    assert 0 <= db.Balance(db.events[id].user);
  }

  /**
   The callers catch a failed assertion, release the event and commit. The counter then is the
   ledger's exactly if it would have been the largest of zero, the re-split counter and the share.
   */
  lemma CaughtAssertionCacheExact(db: Db, id: nat, prompt: int, completion: int)
    requires Inv(db) && Cached(db) && id < |db.events| && FailsAssertion(db, id)
    ensures db.Linked() && |Settle(db, id, prompt, completion).0.events| == |db.events|
    ensures var e := db.events[id];
            var used := db.periods[e.period].used;
            Cached(Release(Settle(db, id, prompt, completion).0, id)) <==>
            used == Max(Share(e), Max(0, used - Share(e) + FinalCharge(db, id, prompt, completion)))
  {
    hide Total, Flow, ChargedTokens;
    LinkedWhenSound(db);
    var e := db.events[id];
    SettleLiveKeeps(db, id, prompt, completion);
    SettleLiveFails(db, id, prompt, completion);
    var failed := SettleLive(db, id, prompt, completion).0;
    var after := Release(failed, id);
    assert after == CloseReservation(failed, id, Released);
    assert failed.periods[e.period].used
           == Max(0, db.periods[e.period].used - Share(e) + FinalCharge(db, id, prompt, completion));
    forall p: nat | p < |db.periods|
      ensures |after.periods| == |db.periods|
      ensures Drift(after, p)
           == if p != e.period then 0
              else Max(Share(e), failed.periods[p].used) - db.periods[p].used
    {
      SettleLiveDrift(db, id, prompt, completion, p);
      CloseDrift(failed, id, Released, p);
      assert CachedAt(db, p);
    }
    assert Cached(after) ==> CachedAt(after, e.period);
  }

  // ---- cached counters against the recount ----

  /** Once a user's overdue reservations are expired, the recount of a period is the cached counter. */
  lemma RecountIsCache(db: Db, user: nat, p: nat)
    requires Inv(db) && Covered(db) && Cached(db) && p < |db.periods| && db.periods[p].user == user
    ensures db.Linked()
    ensures var expired := ExpireStale(db, Some(user));
            && |expired.periods| == |db.periods|
            && Total(LivePeriodShare(p, db.now), expired.events) == expired.periods[p].used
  {
    CoveredFits(db, Some(user));
    ExpireCacheExact(db, Some(user));
    ExpireKeeps(db, Some(user));
    var expired := ExpireStale(db, Some(user));
    RefreshKeeps(expired, p);
    assert CachedAt(expired, p);
    assert CachedAt(Refresh(expired, p), p);
  }

  /** No clamp bites: releasing or expiring a reservation takes exactly its allowance share back. */
  lemma CloseIsExact(db: Db, id: nat, status: Status)
    requires Inv(db) && Covered(db) && Cached(db) && id < |db.events| && db.events[id].status == Reserved
    ensures db.Linked()
    ensures var e := db.events[id];
            var after := CloseReservation(db, id, status);
            && after.periods[e.period].used == db.periods[e.period].used - (e.reserved - e.wallet)
            && after.Balance(e.user) == db.Balance(e.user) + e.wallet
  {
    LinkedWhenSound(db);
    ShareWithin(db, id);
    assert EventSound(db, db.events[id]);
  }

  // ---- allowance first, and no overdraft ----

  /** A funded reservation of a metered user: allowance first, the wallet only once it is used up. */
  lemma ReserveDrawsAllowanceFirst(db: Db, r: Request, period: nat)
    requires Inv(db) && Sane(r) && period < |db.periods|
    requires db.Linked() && ReserveIn(db, r, period).1.Granted? && !db.accounts(r.user).unlimited
    ensures var (after, outcome) := ReserveIn(db, r, period);
            var e := after.events[outcome.id];
            var before, now := db.periods[period], after.periods[period];
            && now.used == before.used + (e.reserved - e.wallet) <= Max(before.total, before.used)
            && after.Balance(r.user) == db.Balance(r.user) - e.wallet
            && 0 <= e.wallet <= e.reserved
            && (e.wallet > 0 ==> now.remaining == 0)
  {
    ReserveInMoves(db, r, period);
    RequestSplitSound(db, r, period);
  }

  /** A settlement of a metered user re-splits the charge the same way. */
  lemma SettleDrawsAllowanceFirst(db: Db, id: nat, prompt: int, completion: int)
    requires Inv(db) && Covered(db) && Cached(db)
    requires id < |db.events| && db.events[id].Live(db.now) && 0 <= prompt + completion
    requires db.Linked() && SettleLive(db, id, prompt, completion).1 == Closed
    requires !db.accounts(db.events[id].user).unlimited
    ensures var after := SettleLive(db, id, prompt, completion).0;
            var e, f := db.events[id], after.events[id];
            var before, now := db.periods[e.period], after.periods[e.period];
            && f.charged == FinalCharge(db, id, prompt, completion)
            && now.used == before.used - (e.reserved - e.wallet) + (f.charged - f.wallet)
            && now.used <= Max(before.total, before.used)
            && after.Balance(e.user) == db.Balance(e.user) + e.wallet - f.wallet
            && 0 <= f.wallet <= f.charged
            && (f.wallet > 0 ==> now.remaining == 0)
  {
    FinalSplitSound(db, id, prompt, completion);
    SettleLiveMoves(db, id, prompt, completion);
    ShareWithin(db, id);
    assert EventSound(db, db.events[id]) && EventCovered(db.events[id]);
  }

  // ---- settlement inside the reservation ----

  /**
   A live reservation settled at no more raw tokens than it reserved never fails for funds,
   whatever else happened to the period and the wallet: it closes, unless it runs into the
   assertion, and its wallet slice does not grow.
   */
  lemma SettleInsideReservation(db: Db, id: nat, prompt: int, completion: int)
    requires Inv(db) && id < |db.events| && db.events[id].Live(db.now)
    requires prompt + completion <= db.events[id].rawTotal
    ensures db.Linked()
    ensures Settle(db, id, prompt, completion).1 == if FailsAssertion(db, id) then AssertionFailed else Closed
    ensures var e, f := db.events[id], Settle(db, id, prompt, completion).0.events[id];
            if FailsAssertion(db, id) then f == e
            else f.status == Settled && f.charged <= e.reserved && f.wallet <= e.wallet
  {
    LinkedWhenSound(db);
    var e := db.events[id];
    assert EventSound(db, e);
    ChargeIsMonotone(prompt + completion, e.rawTotal, e.multiplier);
    FinalSplitSound(db, id, prompt, completion);
    assert 0 <= db.Balance(e.user);
  }

  /** When a settlement is refused for funds: the charge exceeds allowance, wallet and the event's own hold. */
  lemma SettleFundsExact(db: Db, id: nat, prompt: int, completion: int)
    requires Inv(db) && id < |db.events| && db.events[id].Live(db.now)
    ensures db.Linked()
    ensures var e := db.events[id];
            Settle(db, id, prompt, completion).1 == Refused(InsufficientBalance) <==>
            !db.accounts(e.user).unlimited
            && db.periods[e.period].remaining + db.Balance(e.user) + e.reserved
               < FinalCharge(db, id, prompt, completion)
  {
    LinkedWhenSound(db);
    SettleRefusedExact(db, id, prompt, completion);
  }

  /** From reservation to settlement: no run of other calls can make an inside settlement fail for funds. */
  lemma SettleInsideAfterRun(db: Db, steps: seq<Step>, id: nat, prompt: int, completion: int)
    requires Inv(db) && id < |db.events| && db.events[id].status == Reserved
    requires prompt + completion <= db.events[id].rawTotal
    ensures db.Linked() && id < |Run(db, steps).events|
    ensures var later := Run(db, steps);
            && (later.events[id].Live(later.now) && !FailsAssertion(later, id) ==>
                  && Settle(later, id, prompt, completion).1 == Closed
                  && Settle(later, id, prompt, completion).0.events[id].charged <= db.events[id].reserved
                  && Settle(later, id, prompt, completion).0.events[id].wallet <= db.events[id].wallet)
            && (later.events[id].status == Reserved ==> later.events[id] == db.events[id])
  {
    hide Settle;
    RunKeeps(db, steps);
    RunEvents(db, steps);
    var later := Run(db, steps);
    assert Successor(db.events[id], later.events[id]);
    if later.events[id].Live(later.now) && !FailsAssertion(later, id) {
      SettleInsideReservation(later, id, prompt, completion);
    }
  }

  // ---- replays ----

  /** A replayed request finds its event again and moves nothing but overdue reservations. */
  lemma ReserveReplay(db: Db, r: Request, id: nat)
    requires Inv(db) && id < |db.events| && db.events[id].user == r.user && db.events[id].requestId == r.requestId
    ensures db.Linked() && Reserve(db, r) == (ExpireStale(db, Some(r.user)), Existing(id))
  {
    ExpireKeeps(db, Some(r.user));
    var expired := ExpireStale(db, Some(r.user));
    assert SameIdentity(db.events[id], expired.events[id]);
    assert expired.events[id] in expired.events;
    var found := FindEvent(expired.events, r.user, r.requestId);
    assert found.Some?;
    assert found.value < id || id < found.value ==> false by {
      assert Sound(expired);
    }
  }

  /** Settling or releasing a closed event changes nothing. */
  lemma ClosedIsFinal(db: Db, id: nat, prompt: int, completion: int)
    requires db.Linked() && id < |db.events| && db.events[id].status != Reserved
    ensures Release(db, id) == db
    ensures Settle(db, id, prompt, completion).0 == db
    ensures Settle(db, id, prompt, completion).1 == Closed <==> db.events[id].status == Settled
  {
  }

  /** Reserve then release gives allowance and wallet back exactly. */
  lemma ReserveThenRelease(db: Db, r: Request, period: nat)
    requires Inv(db) && Covered(db) && Cached(db) && Sane(r) && period < |db.periods|
               && db.periods[period].user == r.user
    requires forall e | e in db.events :: e.user == r.user ==> e.requestId != r.requestId
    requires db.Linked() && ReserveIn(db, r, period).1.Granted? && db.now.Before(r.expiresAt)
    ensures var (held, outcome) := ReserveIn(db, r, period);
            var after := Release(held, outcome.id);
            && after.periods == db.periods
            && (forall user: nat :: after.Balance(user) == db.Balance(user))
            && after.events == db.events + [held.events[outcome.id].(status := Released)]
  {
    hide Total, Flow;
    var (held, outcome) := ReserveIn(db, r, period);
    var id := outcome.id;
    ReserveInKeeps(db, r, period);
    ReserveInKeepsCached(db, r, period);
    ReserveInMoves(db, r, period);
    CloseIsExact(held, id, Released);
    var after := Release(held, id);
    var f := held.events[id];
    assert after == CloseReservation(held, id, Released);
    assert after.events == db.events + [f.(status := Released)];
    assert db.periods[period].remaining == Max(0, db.periods[period].total - db.periods[period].used);
    assert after.periods[period] == db.periods[period];
    assert after.periods == db.periods;
    MoveWalletMoves(held, f.user, f.wallet, Refund);
    forall user: nat
      ensures after.Balance(user) == db.Balance(user)
    {
      assert held.Balance(user) == db.Balance(user) - if user == r.user then f.wallet else 0;
      assert f.wallet != 0 ==>
               MoveWallet(held, f.user, f.wallet, Refund).Balance(user)
               == held.Balance(user) + if user == f.user then f.wallet else 0;
    }
  }
}
