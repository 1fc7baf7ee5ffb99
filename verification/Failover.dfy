/**
 The protocols around one reservation: `execute_inference` with its failover loop, the
 development echo, the end-to-end encrypted `invoke_e2ee` and the end of a relayed stream.
 What an enclave does, and what other requests do meanwhile, is input.
 */
module Failover {
  import opened Prelude
  import opened Calendar
  import opened Ledger
  import opened LedgerInvariants
  import opened LedgerCache
  import opened LedgerTheorems
  import opened Router

  /** One forward: a `ForwardError`, any other exception, or a completion with the reported counts. */
  datatype Forward =
    | ForwardFails
    | Crashes
    | Serves(prompt: int, completion: int, words: nat)

  /** What happens while a candidate is tried, and how the forward ends. */
  datatype Attempt = Attempt(miner: nat, meanwhile: seq<Step>, result: Forward)

  /** A row of `miner_request_stats`: which miner, and whether it served. */
  datatype StatRow = StatRow(miner: nat, served: bool)

  datatype Execution =
    | NoCapacity
    | NotReserved(why: Refusal)
    | Answered
    | AllFailed
    | Raised

  datatype Counts = Counts(prompt: int, completion: int, total: int)

  /** How an end-to-end encrypted exchange with the enclave ends. */
  datatype Exchange =
    | Unreachable
    | Broken
    | ProtocolError(code: nat, readable: bool)
    | Unsealed
    | Sealed(code: nat, readable: bool, usage: Option<Counts>, fault: bool)
    | Streaming
    // closing the connection raises, outside every handler that releases
    | Abandoned
  {
    /** The handler closes the reservation itself; a stream does at its end, and an abandoned exchange never. */
    predicate Closes() {
      !Streaming? && !Abandoned?
    }

    /**
     A complete sealed body is billed for its reported usage or, when it succeeded without one, at
     the reservation.
     */
    predicate Billable() {
      Sealed? && readable && (usage.Some? || code < 400)
    }

    function BilledPrompt(r: Request): int {
      if Sealed? && usage.Some? then usage.value.prompt else r.prompt
    }

    function BilledCompletion(r: Request): int {
      if Sealed? && usage.Some? then usage.value.completion else r.maxCompletion
    }

    /** The enclave is to blame: it could not be reached, failed to answer or answered with a server error. */
    predicate Blames() {
      || Unreachable? || Unsealed?
      || (ProtocolError? && (!readable || code >= 500))
      || (Sealed? && (!readable || code >= 500))
    }
  }

  /** How many attempts fail before one that ends the loop. */
  function LeadingFailures(attempts: seq<Attempt>): (n: nat)
    ensures n <= |attempts|
    ensures forall i | 0 <= i < n :: attempts[i].result == ForwardFails
    ensures n < |attempts| ==> attempts[n].result != ForwardFails
  {
    if attempts == [] || attempts[0].result != ForwardFails then 0 else 1 + LeadingFailures(attempts[1..])
  }

  lemma LeadingFailuresAt(attempts: seq<Attempt>, i: nat)
    requires i < |attempts| && i <= LeadingFailures(attempts)
    ensures LeadingFailures(attempts) == i <==> attempts[i].result != ForwardFails
  {
  }

  function FailureRows(attempts: seq<Attempt>, n: nat): (rows: seq<StatRow>)
    requires n <= |attempts|
    ensures |rows| == n && forall i | 0 <= i < n :: rows[i] == StatRow(attempts[i].miner, false)
  {
    if n == 0 then [] else FailureRows(attempts, n - 1) + [StatRow(attempts[n - 1].miner, false)]
  }

  /** `usage.prompt_tokens or input_tokens`, and one token at least for an unreported completion. */
  function SettledPrompt(f: Forward, input: int): int
    requires f.Serves?
  {
    if f.prompt != 0 then f.prompt else input
  }

  function SettledCompletion(f: Forward): int
    requires f.Serves?
  {
    if f.completion != 0 then f.completion else Max(1, f.words)
  }

  // ---- events that close ----

  lemma StepGrows(db: Db, step: Step)
    requires db.Linked()
    ensures |db.events| <= |Apply(db, step).events|
  {
    hide Total, Flow, CapRefusal, ExpireStale, FinalSplit, RequestSplit;
    match step
    case DoReserve(r) =>
      assert |Recalculate(ExpireStale(db, Some(r.user)), r.user).0.events| == |db.events|;
    case DoRecalculate(user) =>
      assert |Recalculate(db, user).0.events| == |db.events|;
    case _ =>
  }

  lemma {:induction false} RunGrows(db: Db, steps: seq<Step>)
    requires db.Linked()
    ensures |db.events| <= |Run(db, steps).events|
    decreases |steps|
  {
    if steps != [] {
      StepGrows(db, steps[0]);
      RunGrows(Apply(db, steps[0]), steps[1..]);
    }
  }

  /** Releasing closes an event in every state: released if it is live, expired if it is overdue. */
  lemma ReleaseCloses(db: Db, id: nat)
    requires db.Linked() && id < |db.events|
    ensures |Release(db, id).events| == |db.events|
    ensures Release(db, id).events[id].status
         == if db.events[id].status != Reserved then db.events[id].status
            else if db.events[id].Stale(db.now) then Expired else Released
    ensures Release(db, id).events[id].charged == db.events[id].charged
    ensures db.events[id].status != Reserved ==> Release(db, id) == db
  {
    ExpireUpToEffect(db, Some(db.events[id].user), |db.events|);
  }

  /** A settlement either leaves the event settled or does not settle it. */
  lemma SettleOutcomes(db: Db, id: nat, prompt: int, completion: int)
    requires db.Linked() && id < |db.events|
    ensures var (after, outcome) := Settle(db, id, prompt, completion);
            && |after.events| == |db.events|
            && (outcome == Closed <==> after.events[id].status == Settled)
            && (outcome != Closed ==> after.events[id].charged == db.events[id].charged)
            && (outcome == Closed && db.events[id].status != Settled ==>
                  && after.events[id].prompt == prompt && after.events[id].completion == completion
                  && after.events[id].charged == ChargedTokens(prompt + completion, db.events[id].multiplier))
            && (db.events[id].status == Settled ==> after == db)
            && after.events[id].multiplier == db.events[id].multiplier
  {
    ExpireUpToEffect(db, Some(db.events[id].user), |db.events|);
  }

  // ---- an open event among other requests ----

  /** The step settles this event: it is live, its user can pay, and the assertion does not fail. */
  predicate SettlesEvent(db: Db, step: Step, id: nat) {
    && db.Linked() && step.DoSettle? && step.id == id < |db.events| && db.events[id].Live(db.now)
    && !FailsAssertion(db, id) && !Unaffordable(db, id, step.prompt, step.completion)
  }

  /** Unsettled, uncharged, and priced as it was reserved. */
  predicate Pending(db: Db, id: nat, multiplier: nat) {
    Priced(db, id, multiplier) && db.events[id].status != Settled
  }

  /** Priced as it was reserved, and charged only by a settlement. */
  predicate Priced(db: Db, id: nat, multiplier: nat) {
    && id < |db.events| && db.events[id].multiplier == multiplier
    && (db.events[id].status != Settled ==> db.events[id].charged == 0)
  }

  lemma SettleElsewhere(db: Db, other: nat, prompt: int, completion: int, id: nat)
    requires db.Linked() && other < |db.events| && id < |db.events| && other != id
    ensures var after := Settle(db, other, prompt, completion).0;
            && |after.events| == |db.events|
            && (after.events[id] == db.events[id] || after.events[id] == db.events[id].(status := Expired))
  {
    ExpireUpToEffect(db, Some(db.events[other].user), |db.events|);
  }

  /** Which steps settle an open event, seen from the state before them. */
  lemma StepSettlesExactly(db: Db, step: Step, id: nat)
    requires Inv(db) && id < |db.events| && db.events[id].status != Settled
    ensures db.Linked() && id < |Apply(db, step).events|
    ensures Apply(db, step).events[id].status == Settled <==> SettlesEvent(db, step, id)
  {
    hide Inv, Settle, Reserve, Release, Recalculate, ExpireStale, Unaffordable, FailsAssertion;
    StepEvents(db, step);
    if step.DoSettle? {
      if step.id == id {
        OwnSettlement(db, id, step.prompt, step.completion);
      } else if step.id < |db.events| {
        SettleElsewhere(db, step.id, step.prompt, step.completion, id);
      }
    } else {
      StepQuiet(db, step);
    }
  }

  lemma OwnSettlement(db: Db, id: nat, prompt: int, completion: int)
    requires Inv(db) && db.Linked() && id < |db.events| && db.events[id].status != Settled
    ensures id < |Settle(db, id, prompt, completion).0.events|
    ensures Settle(db, id, prompt, completion).0.events[id].status == Settled <==>
            SettlesEvent(db, DoSettle(id, prompt, completion), id)
  {
    hide Inv, SettleLive, ExpireStale, Unaffordable, FailsAssertion;
    SettleOutcomes(db, id, prompt, completion);
    if db.events[id].Live(db.now) {
      SettleRefusedExact(db, id, prompt, completion);
    }
  }

  /** Other requests leave a waiting reservation pending exactly as long as none of them settles it. */
  lemma {:induction false} RunKeepsPending(db: Db, steps: seq<Step>, id: nat, multiplier: nat)
    requires Inv(db) && Pending(db, id, multiplier)
    ensures db.Linked()
    ensures Pending(Run(db, steps), id, multiplier) <==> Along(db, steps, (d, step) => !SettlesEvent(d, step, id))
    decreases |steps|
  {
    hide Inv, Apply, SettlesEvent;
    StepLinked(db);
    if steps != [] {
      var next := Apply(db, steps[0]);
      StepKeeps(db, steps[0]);
      StepSettlesExactly(db, steps[0], id);
      RunKeepsPriced(db, [steps[0]], id, multiplier);
      RunOne(db, steps[0]);
      if next.events[id].status != Settled {
        RunKeepsPending(next, steps[1..], id, multiplier);
      } else {
        RunEvents(next, steps[1..]);
        assert Successor(next.events[id], Run(next, steps[1..]).events[id]);
      }
    }
  }

  /** Whatever other requests do, the price of a reservation stays, and only a settlement charges it. */
  lemma RunKeepsPriced(db: Db, steps: seq<Step>, id: nat, multiplier: nat)
    requires Inv(db) && Priced(db, id, multiplier)
    ensures db.Linked() && Priced(Run(db, steps), id, multiplier)
    ensures db.events[id].status == Settled ==> Run(db, steps).events[id] == db.events[id]
  {
    hide Inv, Run;
    RunEvents(db, steps);
    assert Successor(db.events[id], Run(db, steps).events[id]);
  }

  /**
   Whatever keeps a handler from closing its reservation, expiry is the backstop: once the event is
   overdue the next expiry of its user's reservations leaves it closed, and uncharged exactly if no
   other request has settled it meanwhile.
   */
  lemma ExpiryIsBackstop(db: Db, steps: seq<Step>, id: nat, multiplier: nat, user: Option<nat>)
    requires Inv(db) && Pending(db, id, multiplier)
    requires user.None? || user.value == db.events[id].user
    requires db.Linked() && db.events[id].expiresAt.AtOrBefore(Run(db, steps).now)
    ensures var closed := ExpireStale(Run(db, steps), user);
            && id < |closed.events| && closed.events[id].status != Reserved
            && (closed.events[id].status in {Released, Expired} && closed.events[id].charged == 0 <==>
                Along(db, steps, (d, step) => !SettlesEvent(d, step, id)))
  {
    hide Run, ExpireStale, SettlesEvent;
    RunKeeps(db, steps);
    RunKeepsPending(db, steps, id, multiplier);
    RunKeepsPriced(db, steps, id, multiplier);
    RunEvents(db, steps);
    var later := Run(db, steps);
    assert Successor(db.events[id], later.events[id]);
    ExpireKeeps(later, user);
  }

  // ---- the steps of one request ----

  /** What other requests and the environment do while the first `n` candidates are tried. */
  function Waits(attempts: seq<Attempt>, n: nat): seq<Step>
    requires n <= |attempts|
  {
    if n == 0 then [] else Waits(attempts, n - 1) + attempts[n - 1].meanwhile
  }

  /** A served attempt is settled, and then the period is refreshed or what was left open is released. */
  function ServedSteps(id: nat, result: Forward, input: int, user: nat, answered: bool): seq<Step>
    requires result.Serves?
  {
    [DoSettle(id, SettledPrompt(result, input), SettledCompletion(result)),
     if answered then DoRecalculate(user) else DoRelease(id)]
  }

  /** The failover loop as steps of the ledger. */
  function LoopSteps(attempts: seq<Attempt>, id: nat, input: int, user: nat, answered: bool): seq<Step> {
    var n := LeadingFailures(attempts);
    if n == |attempts| then Waits(attempts, n) + [DoRelease(id)]
    else
      Waits(attempts, n + 1)
      + if attempts[n].result.Serves?
        then ServedSteps(id, attempts[n].result, input, user, answered)
        else [DoRelease(id)]
  }

  /** `execute_inference` as steps of the ledger; a refused reservation is rolled back. */
  function ExecutionSteps(r: Request, input: int, attempts: seq<Attempt>, id: nat, execution: Execution): seq<Step> {
    if execution.NoCapacity? || execution.NotReserved? then []
    else [DoReserve(r)] + LoopSteps(attempts, id, input, r.user, execution == Answered)
  }

  /** What `invoke_e2ee` does to the ledger once the exchange has ended. */
  function ClosingSteps(id: nat, r: Request, x: Exchange, settled: bool): seq<Step> {
    if !x.Closes() then []
    else if !x.Billable() then [DoRelease(id)]
    else
      [DoSettle(id, x.BilledPrompt(r), x.BilledCompletion(r))]
      + if settled && !x.fault then [] else [DoRelease(id)]
  }

  /** The counts with which the first candidate that serves is settled. */
  function ReportedPrompt(attempts: seq<Attempt>, input: int): int {
    var n := LeadingFailures(attempts);
    if n < |attempts| && attempts[n].result.Serves? then SettledPrompt(attempts[n].result, input) else 0
  }

  function ReportedCompletion(attempts: seq<Attempt>): int {
    var n := LeadingFailures(attempts);
    if n < |attempts| && attempts[n].result.Serves? then SettledCompletion(attempts[n].result) else 0
  }

  /**
   What the closing calls of a handler make of the event as they find it: settled with these counts
   at its own price, or closed uncharged; an event that is settled already stays as it is.
   */
  predicate ClosedFrom(found: Event, left: Event, settled: bool, prompt: int, completion: int) {
    && left.status != Reserved
    && (left.status == Settled <==> settled || found.status == Settled)
    && (found.status == Settled ==> left == found)
    && (found.status != Settled && settled ==>
          && left.prompt == prompt && left.completion == completion
          && left.charged == ChargedTokens(prompt + completion, found.multiplier))
    && (found.status != Settled && !settled ==> left.charged == found.charged)
  }

  /** What a settled call logs is what its event carries. */
  predicate LogsItsEvent(found: Event, prompt: int, completion: int) {
    found.status != Settled || (found.prompt == prompt && found.completion == completion)
  }

  /** The user has not used this request id before. */
  ghost predicate Unused(db: Db, r: Request) {
    forall e | e in db.events :: e.user == r.user ==> e.requestId != r.requestId
  }

  /** Under a new request id a reservation is a new, pending event or is refused. */
  lemma FreshReservation(db: Db, r: Request)
    requires Inv(db) && Unused(db, r)
    ensures db.Linked() && Inv(Reserve(db, r).0)
    ensures Reserve(db, r).1.Refused? || Reserve(db, r).1 == Granted(|db.events|)
    ensures Reserve(db, r).1.Granted? ==> Pending(Reserve(db, r).0, |db.events|, db.prices(r.model))
  {
    hide ReserveIn, Total, Flow;
    ReserveKeeps(db, r);
    ReserveEvents(db, r);
    ExpireKeeps(db, Some(r.user));
    var expired := ExpireStale(db, Some(r.user));
    forall e | e in expired.events
      ensures e.user == r.user ==> e.requestId != r.requestId
    {
      var i :| 0 <= i < |expired.events| && expired.events[i] == e;
      assert db.events[i] in db.events;
    }
    GrantIsPending(db, r);
  }

  /** A granted event is pending at the price of the moment. */
  lemma GrantIsPending(db: Db, r: Request)
    requires Inv(db)
    ensures db.Linked() && Inv(Reserve(db, r).0)
    ensures Reserve(db, r).1.Granted? ==>
              Pending(Reserve(db, r).0, Reserve(db, r).1.id, db.prices(r.model)) && Reserve(db, r).1.id == |db.events|
  {
    hide ReserveIn, Total, Flow;
    ReserveKeeps(db, r);
    ReserveEvents(db, r);
    if Reserve(db, r).1.Granted? {
      var current, period := ReserveUnfolds(db, r);
      ReserveInAppends(current, r, period);
    }
  }

  lemma RecalculateSpares(db: Db, user: nat, id: nat)
    requires db.Linked() && id < |db.events| && db.events[id].status != Reserved
    ensures |Recalculate(db, user).0.events| == |db.events| && Recalculate(db, user).0.events[id] == db.events[id]
  {
    ExpireUpToEffect(db, Some(user), |db.events|);
  }

  /** The success row of a settled attempt. */
  function ServedRows(attempts: seq<Attempt>, n: nat, settled: bool): seq<StatRow>
    requires settled ==> n < |attempts|
  {
    if settled then [StatRow(attempts[n].miner, true)] else []
  }

  /** The usage row of a settled attempt, with the settled counts. */
  function UsageRows(r: Request, input: int, attempts: seq<Attempt>, n: nat, settled: bool): seq<UsageRow>
    requires settled ==> n < |attempts| && attempts[n].result.Serves?
  {
    if settled then
      var result := attempts[n].result;
      [UsageRow(r.key, r.requestId, SettledPrompt(result, input), SettledCompletion(result), false)]
    else []
  }

  // ---- the end of a stream ----

  /** The completion billed at the end of a relayed stream; a hang-up is billed by relayed chunks, up to the cap. */
  function StreamCompletion(usage: Counts, chunks: nat, maxTokens: nat): int {
    if usage.completion == 0 && usage.total == 0 && chunks > 0 then Min(chunks, maxTokens) else usage.completion
  }

  function StreamPrompt(usage: Counts, estimate: int): int {
    if usage.prompt != 0 then usage.prompt else estimate
  }

  predicate StreamBilled(usage: Counts, chunks: nat, maxTokens: nat) {
    StreamCompletion(usage, chunks, maxTokens) != 0 || usage.total != 0
  }
}
