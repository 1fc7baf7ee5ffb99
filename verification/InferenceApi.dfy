/** The request handlers of the inference API, each driving one reservation of a `UsageService`. */
module InferenceApis {
  import opened Prelude
  import opened Calendar
  import opened Ledger
  import opened LedgerInvariants
  import opened LedgerTheorems
  import opened UsageServices
  import opened Failover
  import opened Router

  class InferenceApi {
    const usage: UsageService
    var stats: seq<StatRow>
    var rows: seq<UsageRow>

    ghost predicate Valid()
      reads this, usage
    {
      usage.Valid()
    }

    constructor (usage: UsageService)
      requires usage.Valid()
      ensures Valid() && this.usage == usage && stats == [] && rows == []
    {
      this.usage, stats, rows := usage, [], [];
    }

    /**
     `execute_inference`: reserve once, try the candidates in order, settle with the first that
     serves, and otherwise release. `fault` is an exception raised after the settlement. A refused
     reservation raises before anything is committed.
     */
    method ExecuteInference(r: Request, input: int, attempts: seq<Attempt>, maxAttempts: nat, fault: bool)
      returns (execution: Execution, id: nat, tried: nat, settled: bool)
      requires Valid()
      modifies this`stats, this`rows, usage
      ensures Valid()
      // nothing happens without a reservation
      ensures execution.NoCapacity? || execution.NotReserved? ==>
                usage.Rows() == old(usage.Rows()) && stats == old(stats) && rows == old(rows) && tried == 0 && !settled
      // in the ledger it is a run of its own calls and of what happens meanwhile
      ensures usage.Rows()
           == Run(old(usage.Rows()), ExecutionSteps(r, input, attempts[..Min(maxAttempts, |attempts|)], id, execution))
      ensures old(Inv(usage.Rows())) ==> Inv(usage.Rows())
      // every other exit closes the reservation as it finds it then, settled with the reported counts or not
      ensures !execution.NoCapacity? && !execution.NotReserved? ==>
                var candidates := attempts[..Min(maxAttempts, |attempts|)];
                && Tried(candidates, r, input, execution, tried, settled, old(stats), old(rows))
                && var found := Run(old(usage.Rows()), [DoReserve(r)] + Waits(candidates, tried));
                   && id < |found.events| && id < |usage.events|
                   && ClosedFrom(found.events[id], usage.events[id], settled,
                                 ReportedPrompt(candidates, input), ReportedCompletion(candidates))
                   // what a settled call logs is what its event carries exactly if the event was open or so settled
                   && (settled ==>
                         (&& usage.events[id].prompt == ReportedPrompt(candidates, input)
                          && usage.events[id].completion == ReportedCompletion(candidates)
                          <==> LogsItsEvent(found.events[id], ReportedPrompt(candidates, input),
                                            ReportedCompletion(candidates))))
      // what is billed and logged: the counts that the serving enclave reports, the caller's estimate for a prompt
      // it does not report, and the words of the answer, one at least, for a completion it does not report
      ensures settled ==>
                && 1 <= tried <= Min(maxAttempts, |attempts|)
                && RowsOfServed(attempts, tried, r, input, old(stats), stats, old(rows), rows)
                && var found := Run(old(usage.Rows()),
                                    [DoReserve(r)] + Waits(attempts[..Min(maxAttempts, |attempts|)], tried));
                   && id < |found.events| && id < |usage.events|
                   && EventOfServed(attempts[tried - 1].result, input, found.events[id], usage.events[id])
      // a new request id is charged at the price it was reserved at: by this call, unless another call settled it
      ensures old(Inv(usage.Rows()) && Unused(usage.Rows(), r)) && !execution.NoCapacity? && !execution.NotReserved? ==>
                var candidates := attempts[..Min(maxAttempts, |attempts|)];
                var found := Run(old(usage.Rows()), [DoReserve(r)] + Waits(candidates, tried));
                && id == old(|usage.events|) < |found.events| && id < |usage.events|
                && usage.events[id].charged
                == if found.events[id].status == Settled then found.events[id].charged
                   else if settled
                   then ChargedTokens(ReportedPrompt(candidates, input) + ReportedCompletion(candidates),
                                      old(usage.prices)(r.model))
                   else 0
    {
      hide Run, ChargedTokens, Inv, ClosedFrom, ReportedPrompt, ReportedCompletion;
      hide UsageRows, RowsOfServed, EventOfServed, Priced, ExecutionSteps;
      execution, id, tried, settled := Execute(r, input, attempts, maxAttempts, fault);
      if execution.NoCapacity? || execution.NotReserved? {
        return;
      }
      var candidates := attempts[..Min(maxAttempts, |attempts|)];
      ghost var found := Run(old(usage.Rows()), [DoReserve(r)] + Waits(candidates, tried)).events[id];
      if settled {
        LoggedCountsExact(found, usage.events[id], ReportedPrompt(candidates, input), ReportedCompletion(candidates));
        ServedEvent(attempts, candidates, tried, input, found, usage.events[id]);
        ServedRowsExact(attempts, candidates, tried, r, input, old(stats), stats, old(rows), rows);
      }
      if old(Inv(usage.Rows()) && Unused(usage.Rows(), r)) {
        PricedCharge(Run(old(usage.Rows()), [DoReserve(r)] + Waits(candidates, tried)), id, old(usage.prices)(r.model),
                     usage.events[id], settled, ReportedPrompt(candidates, input), ReportedCompletion(candidates));
      }
    }

    /** The call itself, as a run of the ledger. */
    method Execute(r: Request, input: int, attempts: seq<Attempt>, maxAttempts: nat, fault: bool)
      returns (execution: Execution, id: nat, tried: nat, settled: bool)
      requires Valid()
      modifies this`stats, this`rows, usage
      ensures Valid()
      ensures execution.NoCapacity? || execution.NotReserved? ==>
                usage.Rows() == old(usage.Rows()) && stats == old(stats) && rows == old(rows) && tried == 0 && !settled
      ensures usage.Rows()
           == Run(old(usage.Rows()), ExecutionSteps(r, input, attempts[..Min(maxAttempts, |attempts|)], id, execution))
      ensures old(Inv(usage.Rows())) ==> Inv(usage.Rows())
      ensures !execution.NoCapacity? && !execution.NotReserved? ==>
                var candidates := attempts[..Min(maxAttempts, |attempts|)];
                && Tried(candidates, r, input, execution, tried, settled, old(stats), old(rows))
                && var found := Run(old(usage.Rows()), [DoReserve(r)] + Waits(candidates, tried));
                   && id < |found.events| && id < |usage.events|
                   && ClosedFrom(found.events[id], usage.events[id], settled,
                                 ReportedPrompt(candidates, input), ReportedCompletion(candidates))
                   && (old(Inv(usage.Rows()) && Unused(usage.Rows(), r)) ==>
                         id == old(|usage.events|) && Priced(found, id, old(usage.prices)(r.model)))
    {
      hide Run, Settle, Release, Reserve, Recalculate, ChargedTokens, Inv, ClosedFrom;
      hide ReportedPrompt, ReportedCompletion, UsageRows, Priced;
      id, tried, settled := 0, 0, false;
      ghost var before := usage.Rows();
      RunNothing(before);
      if attempts == [] {
        return NoCapacity, id, tried, settled;
      }
      var session := usage.Begin();
      var outcome := usage.ReserveInferenceTokens(r);
      if outcome.Refused? {
        usage.Rollback(session);
        return NotReserved(outcome.why), id, tried, settled;
      }
      RunOne(before, DoReserve(r));
      id := outcome.id;
      var candidates := attempts[..Min(maxAttempts, |attempts|)];
      execution, tried, settled := TryCandidates(r, input, candidates, fault, id);
      RunConcat(before, [DoReserve(r)], LoopSteps(candidates, id, input, r.user, execution == Answered));
      RunConcat(before, [DoReserve(r)], Waits(candidates, tried));
      if Inv(before) {
        RunKeeps(before, ExecutionSteps(r, input, candidates, id, execution));
        if Unused(before, r) {
          FreshCharge(before, r, Waits(candidates, tried));
        }
      }
    }

    /** How the loop over the candidates ends, and the rows it leaves. */
    ghost predicate Tried(attempts: seq<Attempt>, r: Request, input: int, execution: Execution,
                          tried: nat, settled: bool,
                          oldStats: seq<StatRow>, oldRows: seq<UsageRow>)
      reads this
    {
      var failures := LeadingFailures(attempts);
      // tried up to the first candidate that does not fail
      && tried == Min(|attempts|, failures + 1)
      && (execution == AllFailed <==> failures == |attempts|)
      && (execution == Answered ==> settled)
      && (settled ==> failures < |attempts| && attempts[failures].result.Serves?)
      // one failure row for each failed forward, and a success row and a usage row for a settled one
      && stats == oldStats + FailureRows(attempts, failures) + ServedRows(attempts, failures, settled)
      && rows == oldRows + UsageRows(r, input, attempts, failures, settled)
    }

    /** The loop over the candidates. */
    method TryCandidates(r: Request, input: int, attempts: seq<Attempt>, fault: bool, id: nat)
      returns (execution: Execution, tried: nat, settled: bool)
      requires Valid() && id < |usage.events|
      modifies this`stats, this`rows, usage
      ensures Valid() && id < |usage.events|
      ensures !execution.NoCapacity? && !execution.NotReserved?
      ensures Tried(attempts, r, input, execution, tried, settled, old(stats), old(rows))
      ensures usage.Rows() == Run(old(usage.Rows()), LoopSteps(attempts, id, input, r.user, execution == Answered))
      ensures var found := Run(old(usage.Rows()), Waits(attempts, tried));
              && id < |found.events|
              && ClosedFrom(found.events[id], usage.events[id], settled,
                            ReportedPrompt(attempts, input), ReportedCompletion(attempts))
    {
      hide Run, Apply, ClosedFrom;
      ghost var start := usage.Rows();
      RunNothing(start);
      tried, settled := 0, false;
      while tried < |attempts|
        invariant Valid() && id < |usage.events|
        invariant 0 <= tried <= |attempts| && tried <= LeadingFailures(attempts)
        invariant stats == old(stats) + FailureRows(attempts, tried)
        invariant rows == old(rows) && !settled
        invariant usage.Rows() == Run(start, Waits(attempts, tried))
      {
        var attempt := attempts[tried];
        RunConcat(start, Waits(attempts, tried), attempt.meanwhile);
        RunGrows(usage.Rows(), attempt.meanwhile);
        usage.Meanwhile(attempt.meanwhile);
        LeadingFailuresAt(attempts, tried);
        tried := tried + 1;
        match attempt.result {
          case ForwardFails =>
            stats := stats + [StatRow(attempt.miner, false)];
          case Crashes =>
            RunMore(start, Waits(attempts, tried), DoRelease(id));
            GiveUp(id);
            return Raised, tried, settled;
          case Serves(_, _, _) =>
            execution, settled := Serve(id, r, input, attempt, fault);
            RunConcat(start, Waits(attempts, tried),
                      ServedSteps(id, attempt.result, input, r.user, execution == Answered));
            return;
        }
      }
      RunMore(start, Waits(attempts, tried), DoRelease(id));
      GiveUp(id);
      execution := AllFailed;
    }

    /** Release what was reserved. */
    method GiveUp(id: nat)
      requires Valid() && id < |usage.events|
      modifies usage
      ensures Valid() && id < |usage.events| && usage.Rows() == Apply(old(usage.Rows()), DoRelease(id))
      ensures forall prompt: int, completion: int ::
                ClosedFrom(old(usage.events[id]), usage.events[id], false, prompt, completion)
    {
      hide Release;
      ReleaseCloses(usage.Rows(), id);
      usage.ReleaseInferenceReservation(id);
    }

    /** A candidate has served: settle, and refresh the period or release what is left open. */
    method Serve(id: nat, r: Request, input: int, attempt: Attempt, fault: bool)
      returns (execution: Execution, settled: bool)
      requires Valid() && id < |usage.events| && attempt.result.Serves?
      modifies this`stats, this`rows, usage
      ensures Valid() && id < |usage.events|
      ensures execution == if settled && !fault then Answered else Raised
      ensures usage.Rows()
           == Run(old(usage.Rows()), ServedSteps(id, attempt.result, input, r.user, execution == Answered))
      ensures stats == old(stats) + ServedRows([attempt], 0, settled)
      ensures rows == old(rows) + UsageRows(r, input, [attempt], 0, settled)
      ensures ClosedFrom(old(usage.events[id]), usage.events[id], settled,
                         SettledPrompt(attempt.result, input), SettledCompletion(attempt.result))
    {
      hide Run, Apply, ChargedTokens;
      ghost var before := usage.Rows();
      settled := SettleServed(id, r, input, attempt);
      execution := Finish(id, r.user, settled, fault);
      RunServed(before, id, attempt.result, input, r.user, execution == Answered);
    }

    /** Settle with what the enclave reports, and record the served attempt with the settled counts. */
    method SettleServed(id: nat, r: Request, input: int, attempt: Attempt) returns (settled: bool)
      requires Valid() && id < |usage.events| && attempt.result.Serves?
      modifies this`stats, this`rows, usage
      ensures Valid() && id < |usage.events|
      ensures settled <==> usage.events[id].status == Settled
      ensures usage.Rows()
           == Apply(old(usage.Rows()),
                    DoSettle(id, SettledPrompt(attempt.result, input), SettledCompletion(attempt.result)))
      ensures stats == old(stats) + ServedRows([attempt], 0, settled)
      ensures rows == old(rows) + UsageRows(r, input, [attempt], 0, settled)
      ensures SettledFrom(old(usage.events[id]), usage.events[id], settled,
                          SettledPrompt(attempt.result, input), SettledCompletion(attempt.result))
      // the counts are the reported ones; the caller's estimate and the words of the answer stand in for missing ones
      ensures var prompt := if attempt.result.prompt != 0 then attempt.result.prompt else input;
              var completion :=
                if attempt.result.completion != 0 then attempt.result.completion else Max(1, attempt.result.words);
              && rows == old(rows) + (if settled then [UsageRow(r.key, r.requestId, prompt, completion, false)] else [])
              && (settled && old(usage.events[id].status) != Settled ==>
                    && usage.events[id].prompt == prompt && usage.events[id].completion == completion
                    && usage.events[id].charged
                    == ChargedTokens(prompt + completion, old(usage.events[id].multiplier)))
    {
      hide Settle, ChargedTokens;
      var prompt, completion := SettledPrompt(attempt.result, input), SettledCompletion(attempt.result);
      SettleOutcomes(usage.Rows(), id, prompt, completion);
      var outcome := usage.SettleInferenceUsage(id, prompt, completion);
      settled := outcome == Closed;
      if settled {
        stats := stats + [StatRow(attempt.miner, true)];
        rows := rows + [UsageRow(r.key, r.requestId, prompt, completion, false)];
      }
    }

    /** After the settlement: refresh the period, or release what a failure left open. */
    method Finish(id: nat, user: nat, settled: bool, fault: bool) returns (execution: Execution)
      requires Valid() && id < |usage.events| && (settled <==> usage.events[id].status == Settled)
      modifies usage
      ensures Valid() && id < |usage.events| && usage.events[id].status != Reserved
      ensures settled ==> usage.events[id] == old(usage.events[id])
      ensures !settled ==>
                usage.events[id].status != Settled && usage.events[id].charged == old(usage.events[id].charged)
      ensures execution == if settled && !fault then Answered else Raised
      ensures usage.Rows()
           == Apply(old(usage.Rows()), if execution == Answered then DoRecalculate(user) else DoRelease(id))
    {
      hide Recalculate, CloseReservation, ExpireStale;
      if !settled || fault {
        ReleaseCloses(usage.Rows(), id);
        usage.ReleaseInferenceReservation(id);
        return Raised;
      }
      RecalculateSpares(usage.Rows(), user, id);
      var _ := usage.RecalculateCurrentPeriod(user);
      execution := Answered;
    }

    /** `_execute_inference_mesh_fallback`: reserved and released, never billed; logged with zero tokens. */
    method ExecuteMeshFallback(r: Request, crash: bool) returns (outcome: Outcome)
      requires Valid()
      modifies this`rows, usage
      ensures Valid()
      ensures outcome.Refused? || (outcome.Granted? || outcome.Existing?)
      ensures outcome.Refused? ==> usage.Rows() == old(usage.Rows()) && rows == old(rows)
      ensures !outcome.Refused? ==>
                && outcome.id < |usage.events| && usage.events[outcome.id].status != Reserved
                && rows == old(rows) + (if crash then [] else [UsageRow(r.key, r.requestId, 0, 0, false)])
                && usage.Rows()
                == Run(old(usage.Rows()),
                       [DoReserve(r)] + [DoRelease(outcome.id)] + if crash then [] else [DoRecalculate(r.user)])
      ensures old(Inv(usage.Rows())) ==> Inv(usage.Rows())
      ensures outcome.Granted? && old(Inv(usage.Rows())) ==>
                usage.events[outcome.id].charged == 0 && usage.events[outcome.id].status in {Released, Expired}
    {
      hide Run, Settle, Release, Reserve, Recalculate, Inv;
      ghost var before := usage.Rows();
      if Inv(before) {
        GrantIsPending(before, r);
      }
      var session := usage.Begin();
      outcome := usage.ReserveInferenceTokens(r);
      if outcome.Refused? {
        usage.Rollback(session);
        return;
      }
      RunOne(before, DoReserve(r));
      ReleaseCloses(usage.Rows(), outcome.id);
      usage.ReleaseInferenceReservation(outcome.id);
      RunMore(before, [DoReserve(r)], DoRelease(outcome.id));
      ghost var steps := [DoReserve(r)] + [DoRelease(outcome.id)];
      if Inv(before) {
        RunKeeps(before, steps);
        RunKeeps(before, steps + [DoRecalculate(r.user)]);
      }
      if crash {
        assert steps + [] == steps;
        return;
      }
      rows := rows + [UsageRow(r.key, r.requestId, 0, 0, false)];
      RecalculateSpares(usage.Rows(), r.user, outcome.id);
      var _ := usage.RecalculateCurrentPeriod(r.user);
      RunMore(before, steps, DoRecalculate(r.user));
    }

    /** `_billing_request_id`: the supplied id if this user never used it, else a fresh one. */
    method BillingRequestId(user: nat, supplied: Option<string>, generated: string) returns (id: string)
      requires forall e | e in usage.events :: e.requestId != generated
      ensures forall e | e in usage.events :: e.user == user ==> e.requestId != id
      ensures supplied.Some? && (forall e | e in usage.events :: e.user == user ==> e.requestId != supplied.value)
              ==> id == supplied.value
    {
      if supplied.Some? {
        var existing := FindEvent(usage.events, user, supplied.value);
        if existing.None? {
          return supplied.value;
        }
        assert usage.events[existing.value] in usage.events;
      }
      id := generated;
    }

    /**
     `invoke_e2ee`: every exit closes the reservation but a relayed stream, which closes it at its
     end, and an abandoned exchange, which leaves it to expiry. A sealed body is settled at its
     reported usage or at the reservation, and everything else is released. A refused reservation
     raises before anything is committed.
     */
    method InvokeE2ee(r: Request, miner: nat, meanwhile: seq<Step>, x: Exchange)
      returns (outcome: Outcome, settled: bool)
      requires Valid()
      modifies this`stats, this`rows, usage
      ensures Valid()
      ensures outcome.Granted? || outcome.Existing? || outcome.Refused?
      ensures outcome.Refused? ==>
                usage.Rows() == old(usage.Rows()) && stats == old(stats) && rows == old(rows) && !settled
      // in the ledger it is a run of its own calls and of what happens meanwhile
      ensures !outcome.Refused? ==>
                usage.Rows()
                == Run(old(usage.Rows()), [DoReserve(r)] + (meanwhile + ClosingSteps(outcome.id, r, x, settled)))
      ensures old(Inv(usage.Rows())) ==> Inv(usage.Rows())
      ensures settled ==> x.Billable()
      ensures rows == old(rows) + BilledRows(r, x, settled)
      // one row for the miner: its failure, or a settled success
      ensures !outcome.Refused? ==> stats == old(stats) + MinerRows(miner, x, settled)
      // the miner is to blame for an enclave that is not reached, breaks off or answers with a server error
      ensures !outcome.Refused? ==>
                var billed := x.Sealed? && x.readable && (x.usage.Some? || x.code < 400);
                var blamed :=
                  x.Unreachable? || x.Unsealed? || ((x.ProtocolError? || x.Sealed?) && (!x.readable || x.code >= 500));
                stats == old(stats)
                         + (if blamed && (billed ==> settled && !x.fault) then [StatRow(miner, false)]
                            else if x.Sealed? && x.code < 400 && settled && !x.fault then [StatRow(miner, true)]
                            else [])
      // the reservation is closed as it is found then, or left as it is
      ensures !outcome.Refused? ==>
                var found := Run(old(usage.Rows()), [DoReserve(r)] + meanwhile);
                && outcome.id < |found.events| && outcome.id < |usage.events|
                && if x.Closes()
                   then ClosedFrom(found.events[outcome.id], usage.events[outcome.id], settled,
                                   x.BilledPrompt(r), x.BilledCompletion(r))
                   else usage.Rows() == found && !settled
      // what a settled call logs is what its event carries exactly if the event was open or so settled
      ensures settled ==>
                var found := Run(old(usage.Rows()), [DoReserve(r)] + meanwhile).events[outcome.id];
                (&& usage.events[outcome.id].prompt == x.BilledPrompt(r)
                 && usage.events[outcome.id].completion == x.BilledCompletion(r)
                 <==> LogsItsEvent(found, x.BilledPrompt(r), x.BilledCompletion(r)))
      // what is billed and logged: a complete sealed body, at the usage it reports or, when it succeeded without
      // one, at what was reserved
      ensures settled ==>
                && x.Sealed? && x.readable && (x.usage.Some? || x.code < 400)
                && var prompt := if x.usage.Some? then x.usage.value.prompt else r.prompt;
                   var completion := if x.usage.Some? then x.usage.value.completion else r.maxCompletion;
                   && rows == old(rows)
                            + (if x.fault then [] else [UsageRow(r.key, r.requestId, prompt, completion, false)])
                   && var found := Run(old(usage.Rows()), [DoReserve(r)] + meanwhile).events[outcome.id];
                      found.status != Settled && x.Closes() ==>
                        && usage.events[outcome.id].prompt == prompt
                              && usage.events[outcome.id].completion == completion
                        && usage.events[outcome.id].charged == ChargedTokens(prompt + completion, found.multiplier)
      // a sealed body that can be read, reports usage or succeeded, and finds a live event it can pay is settled
      ensures !outcome.Refused? && x.Sealed? && x.readable && (x.usage.Some? || x.code < 400) ==>
                var found := Run(old(usage.Rows()), [DoReserve(r)] + meanwhile);
                && outcome.id < |found.events|
                && (settled <==>
                    Settle(found, outcome.id,
                           if x.usage.Some? then x.usage.value.prompt else r.prompt,
                           if x.usage.Some? then x.usage.value.completion else r.maxCompletion).1 == Closed)
      // a new event is charged at the price it was reserved at: by this call, unless another call settled it
      ensures outcome.Granted? && old(Inv(usage.Rows())) ==>
                var found := Run(old(usage.Rows()), [DoReserve(r)] + meanwhile);
                && outcome.id == old(|usage.events|) < |found.events| && outcome.id < |usage.events|
                && usage.events[outcome.id].charged
                == if found.events[outcome.id].status == Settled then found.events[outcome.id].charged
                   else if settled
                   then ChargedTokens(x.BilledPrompt(r) + x.BilledCompletion(r), old(usage.prices)(r.model))
                   else 0
    {
      hide Run, Settle, Release, Reserve, Recalculate, ChargedTokens, Inv, ClosedFrom;
      settled := false;
      ghost var before := usage.Rows();
      var session := usage.Begin();
      outcome := usage.ReserveInferenceTokens(r);
      if outcome.Refused? {
        usage.Rollback(session);
        return;
      }
      RunOne(before, DoReserve(r));
      settled := RunExchange(outcome.id, r, miner, meanwhile, x);
      ghost var steps := meanwhile + ClosingSteps(outcome.id, r, x, settled);
      RunConcat(before, [DoReserve(r)], steps);
      RunConcat(before, [DoReserve(r)], meanwhile);
      if settled {
        ClosedCounts(Run(before, [DoReserve(r)] + meanwhile).events[outcome.id], usage.events[outcome.id],
                     x.BilledPrompt(r), x.BilledCompletion(r));
        LoggedCountsExact(Run(before, [DoReserve(r)] + meanwhile).events[outcome.id], usage.events[outcome.id],
                          x.BilledPrompt(r), x.BilledCompletion(r));
      }
      if Inv(before) {
        RunKeeps(before, [DoReserve(r)] + steps);
        if outcome.Granted? {
          GrantedCharge(before, r, meanwhile);
          if x.Closes() {
            ClosedCharge(Run(before, [DoReserve(r)] + meanwhile).events[outcome.id], usage.events[outcome.id], settled,
                         x.BilledPrompt(r), x.BilledCompletion(r));
          }
        }
      }
    }

    /** The exchange itself, with the reservation committed: time for other requests, and its end. */
    method RunExchange(id: nat, r: Request, miner: nat, meanwhile: seq<Step>, x: Exchange) returns (settled: bool)
      requires Valid() && id < |usage.events|
      modifies this`stats, this`rows, usage
      ensures Valid() && id < |usage.events|
      ensures settled ==> x.Billable()
      ensures usage.Rows() == Run(old(usage.Rows()), meanwhile + ClosingSteps(id, r, x, settled))
      ensures rows == old(rows) + BilledRows(r, x, settled)
      ensures stats == old(stats) + MinerRows(miner, x, settled)
      ensures var found := Run(old(usage.Rows()), meanwhile);
              && id < |found.events|
              && (x.Billable() ==>
                    (settled <==> Settle(found, id, x.BilledPrompt(r), x.BilledCompletion(r)).1 == Closed))
              && if x.Closes()
                 then ClosedFrom(found.events[id], usage.events[id], settled, x.BilledPrompt(r), x.BilledCompletion(r))
                 else usage.Rows() == found && !settled
    {
      hide Run, ClosedFrom, Settle;
      settled := false;
      ghost var held := usage.Rows();
      usage.Meanwhile(meanwhile);
      RunGrows(held, meanwhile);
      if x.Closes() {
        settled := CloseExchange(id, r, miner, x);
      } else {
        RunNothing(usage.Rows());
      }
      RunConcat(held, meanwhile, ClosingSteps(id, r, x, settled));
    }

    /** Settle or release once the exchange has ended, and record what it says about the miner. */
    method CloseExchange(id: nat, r: Request, miner: nat, x: Exchange) returns (settled: bool)
      requires Valid() && id < |usage.events| && x.Closes()
      modifies this`stats, this`rows, usage
      ensures Valid() && id < |usage.events|
      ensures settled ==> x.Billable()
      ensures usage.Rows() == Run(old(usage.Rows()), ClosingSteps(id, r, x, settled))
      ensures rows == old(rows) + BilledRows(r, x, settled)
      ensures stats == old(stats) + MinerRows(miner, x, settled)
      ensures x.Billable() ==>
                (settled <==> Settle(old(usage.Rows()), id, x.BilledPrompt(r), x.BilledCompletion(r)).1 == Closed)
      ensures ClosedFrom(old(usage.events[id]), usage.events[id], settled, x.BilledPrompt(r), x.BilledCompletion(r))
    {
      hide Run, Settle, ChargedTokens, CloseReservation, ExpireStale;
      settled := false;
      ghost var before := usage.Rows();
      if x.Billable() {
        settled := SettleBilled(id, r, x);
        ghost var settle := DoSettle(id, x.BilledPrompt(r), x.BilledCompletion(r));
        RunOne(before, settle);
        assert [settle] + [] == [settle];
      }
      if x.Billable() && settled && !x.fault {
        rows := rows + [UsageRow(r.key, r.requestId, x.BilledPrompt(r), x.BilledCompletion(r), false)];
      } else {
        ReleaseCloses(usage.Rows(), id);
        RunOne(before, DoRelease(id));
        RunMore(before, [DoSettle(id, x.BilledPrompt(r), x.BilledCompletion(r))], DoRelease(id));
        usage.ReleaseInferenceReservation(id);
        if x.Billable() {
          return;
        }
      }
      if x.Blames() {
        stats := stats + [StatRow(miner, false)];
      } else if x.Sealed? && x.code < 400 {
        stats := stats + [StatRow(miner, true)];
      }
    }

    method SettleBilled(id: nat, r: Request, x: Exchange) returns (settled: bool)
      requires Valid() && id < |usage.events|
      modifies usage
      ensures Valid() && id < |usage.events|
      ensures settled <==> usage.events[id].status == Settled
      ensures settled <==> Settle(old(usage.Rows()), id, x.BilledPrompt(r), x.BilledCompletion(r)).1 == Closed
      ensures usage.Rows() == Apply(old(usage.Rows()), DoSettle(id, x.BilledPrompt(r), x.BilledCompletion(r)))
      ensures SettledFrom(old(usage.events[id]), usage.events[id], settled, x.BilledPrompt(r), x.BilledCompletion(r))
    {
      hide Settle, ChargedTokens;
      SettleOutcomes(usage.Rows(), id, x.BilledPrompt(r), x.BilledCompletion(r));
      var outcome := usage.SettleInferenceUsage(id, x.BilledPrompt(r), x.BilledCompletion(r));
      settled := outcome == Closed;
    }

    /**
     The end of a relayed stream: settle what was reported or relayed, or release if nothing was. The
     session is the stream's own: a settlement that raises leaves no trace, and the event open.
     */
    method CloseStream(id: nat, reported: Counts, chunks: nat, estimate: int, maxTokens: nat) returns (outcome: Outcome)
      requires Valid() && id < |usage.events|
      modifies usage
      ensures Valid() && id < |usage.events|
      ensures old(usage.events[id].status) != Reserved || outcome != Closed ==> usage.Rows() == old(usage.Rows())
      ensures old(usage.events[id].status) == Reserved && outcome == Closed ==>
                && usage.Rows()
                == Apply(old(usage.Rows()),
                         if StreamBilled(reported, chunks, maxTokens)
                         then DoSettle(id, StreamPrompt(reported, estimate),
                                       StreamCompletion(reported, chunks, maxTokens))
                         else DoRelease(id))
                && ClosedFrom(old(usage.events[id]), usage.events[id], StreamBilled(reported, chunks, maxTokens),
                              StreamPrompt(reported, estimate), StreamCompletion(reported, chunks, maxTokens))
      // what is billed: what was reported; nothing reported, the chunks relayed, up to the cap; neither, nothing
      ensures old(usage.events[id].status) == Reserved && outcome == Closed ==>
                var hungUp := reported.completion == 0 && reported.total == 0 && chunks > 0;
                var prompt := if reported.prompt != 0 then reported.prompt else estimate;
                var completion := if hungUp then Min(chunks, maxTokens) else reported.completion;
                && (usage.events[id].status == Settled <==> completion != 0 || reported.total != 0)
                && (usage.events[id].status == Settled ==>
                      && usage.events[id].prompt == prompt && usage.events[id].completion == completion
                      && usage.events[id].charged
                      == ChargedTokens(prompt + completion, old(usage.events[id].multiplier)))
                && (usage.events[id].status != Settled ==> usage.events[id].charged == old(usage.events[id].charged))
      // what raises is exactly a settlement that would
      ensures outcome
           == if old(usage.events[id].status) == Reserved && StreamBilled(reported, chunks, maxTokens)
              then Settle(old(usage.Rows()), id, StreamPrompt(reported, estimate),
                          StreamCompletion(reported, chunks, maxTokens)).1
              else Closed
      ensures old(Inv(usage.Rows())) ==> Inv(usage.Rows())
      // a client that hangs up after relayed chunks pays for them, and the charge always finds its funds
      ensures old(Inv(usage.Rows()) && usage.events[id].Live(usage.now) && !FailsAssertion(usage.Rows(), id))
              && reported == Counts(0, 0, 0) && estimate + maxTokens <= old(usage.events[id].rawTotal) ==>
                && outcome == Closed
                && usage.events[id].charged
                == if Min(chunks, maxTokens) > 0
                   then ChargedTokens(estimate + Min(chunks, maxTokens), old(usage.events[id].multiplier))
                   else old(usage.events[id].charged)
    {
      hide Settle, Release, ChargedTokens, Inv, FailsAssertion;
      if usage.events[id].status != Reserved {
        return Closed;
      }
      ghost var before := usage.Rows();
      var completion := StreamCompletion(reported, chunks, maxTokens);
      var prompt := StreamPrompt(reported, estimate);
      if StreamBilled(reported, chunks, maxTokens) {
        if Inv(before) && usage.events[id].Live(usage.now) && prompt + completion <= usage.events[id].rawTotal {
          SettleInsideReservation(before, id, prompt, completion);
        }
        SettleOutcomes(before, id, prompt, completion);
        var session := usage.Begin();
        outcome := usage.SettleInferenceUsage(id, prompt, completion);
        if outcome != Closed {
          usage.Rollback(session);
        } else if Inv(before) {
          SettleKeeps(before, id, prompt, completion);
        }
      } else {
        ReleaseCloses(before, id);
        usage.ReleaseInferenceReservation(id);
        if Inv(before) {
          ReleaseKeeps(before, id);
        }
        outcome := Closed;
      }
    }
  }

  /** What a settlement makes of the event it finds. */
  predicate SettledFrom(found: Event, left: Event, settled: bool, prompt: int, completion: int) {
    && (found.status == Settled ==> settled && left == found)
    && (found.status != Settled && settled ==>
          && left.prompt == prompt && left.completion == completion
          && left.charged == ChargedTokens(prompt + completion, found.multiplier))
    && (!settled ==> left.charged == found.charged)
  }

  /** A new event under other requests: still priced as it was reserved, and uncharged unless one of them settled it. */
  lemma GrantedCharge(before: Db, r: Request, meanwhile: seq<Step>)
    requires Inv(before) && before.Linked() && Reserve(before, r).1.Granted?
    ensures Reserve(before, r).1.id == |before.events|
    ensures Priced(Run(before, [DoReserve(r)] + meanwhile), |before.events|, before.prices(r.model))
  {
    hide Run, Reserve, Inv;
    GrantIsPending(before, r);
    RunOne(before, DoReserve(r));
    RunConcat(before, [DoReserve(r)], meanwhile);
    RunKeepsPriced(Reserve(before, r).0, meanwhile, |before.events|, before.prices(r.model));
  }

  lemma FreshCharge(before: Db, r: Request, meanwhile: seq<Step>)
    requires Inv(before) && Unused(before, r)
    ensures before.Linked()
    ensures !Reserve(before, r).1.Refused? ==>
              && Reserve(before, r).1 == Granted(|before.events|)
              && Priced(Run(before, [DoReserve(r)] + meanwhile), |before.events|, before.prices(r.model))
  {
    hide Run, Reserve, Inv;
    FreshReservation(before, r);
    if !Reserve(before, r).1.Refused? {
      GrantedCharge(before, r, meanwhile);
    }
  }

  lemma ClosedCharge(found: Event, left: Event, settled: bool, prompt: int, completion: int)
    requires ClosedFrom(found, left, settled, prompt, completion)
    ensures left.charged
         == if found.status == Settled then found.charged
            else if settled then ChargedTokens(prompt + completion, found.multiplier)
            else found.charged
  {
  }

  /**
   The rows of a settled call: a failure for each candidate before the one that serves, its success,
   and its usage row with the counts it reports, the caller's estimate for a prompt it does not report
   and the words of the answer, one at least, for a completion it does not report.
   */
  predicate RowsOfServed(attempts: seq<Attempt>, tried: nat, r: Request, input: int,
                         oldStats: seq<StatRow>, stats: seq<StatRow>, oldRows: seq<UsageRow>, rows: seq<UsageRow>)
    requires 1 <= tried <= |attempts|
  {
    && attempts[tried - 1].result.Serves?
    && |rows| == |oldRows| + 1 && rows[..|oldRows|] == oldRows
    && |stats| == |oldStats| + tried && stats[..|oldStats|] == oldStats
    && stats[|stats| - 1] == StatRow(attempts[tried - 1].miner, true)
    && (forall i | 0 <= i < tried - 1 :: stats[|oldStats| + i] == StatRow(attempts[i].miner, false))
    && var result := attempts[tried - 1].result;
       && rows[|oldRows|].key == r.key && rows[|oldRows|].requestId == r.requestId && !rows[|oldRows|].routed
       && rows[|oldRows|].input == (if result.prompt != 0 then result.prompt else input)
       && rows[|oldRows|].output == (if result.completion != 0 then result.completion else Max(1, result.words))
  }

  /** An event found unsettled is settled at those same counts and at its own price. */
  predicate EventOfServed(result: Forward, input: int, found: Event, left: Event) {
    && result.Serves?
    && var prompt := if result.prompt != 0 then result.prompt else input;
       var completion := if result.completion != 0 then result.completion else Max(1, result.words);
       found.status != Settled ==>
         && left.status == Settled && left.prompt == prompt && left.completion == completion
         && left.charged == ChargedTokens(prompt + completion, found.multiplier)
  }

  lemma ServedEvent(attempts: seq<Attempt>, candidates: seq<Attempt>, tried: nat, input: int, found: Event, left: Event)
    requires candidates <= attempts && tried == LeadingFailures(candidates) + 1 <= |candidates|
    requires candidates[tried - 1].result.Serves?
    requires ClosedFrom(found, left, true, ReportedPrompt(candidates, input), ReportedCompletion(candidates))
    ensures EventOfServed(attempts[tried - 1].result, input, found, left)
  {
    hide ChargedTokens;
  }

  lemma ServedRowsExact(attempts: seq<Attempt>, candidates: seq<Attempt>, tried: nat, r: Request, input: int,
                        oldStats: seq<StatRow>, stats: seq<StatRow>, oldRows: seq<UsageRow>, rows: seq<UsageRow>)
    requires candidates <= attempts && tried == LeadingFailures(candidates) + 1 <= |candidates|
    requires candidates[tried - 1].result.Serves?
    requires stats == oldStats + FailureRows(candidates, tried - 1) + ServedRows(candidates, tried - 1, true)
    requires rows == oldRows + UsageRows(r, input, candidates, tried - 1, true)
    ensures RowsOfServed(attempts, tried, r, input, oldStats, stats, oldRows, rows)
  {
  }

  /** The charge of a priced event that a call closes. */
  lemma PricedCharge(found: Db, id: nat, multiplier: nat, left: Event, settled: bool, prompt: int, completion: int)
    requires Priced(found, id, multiplier) && ClosedFrom(found.events[id], left, settled, prompt, completion)
    ensures left.charged
         == if found.events[id].status == Settled then found.events[id].charged
            else if settled then ChargedTokens(prompt + completion, multiplier)
            else 0
  {
  }

  lemma ClosedCounts(found: Event, left: Event, prompt: int, completion: int)
    requires ClosedFrom(found, left, true, prompt, completion)
    ensures found.status != Settled ==>
              && left.prompt == prompt && left.completion == completion
              && left.charged == ChargedTokens(prompt + completion, found.multiplier)
  {
  }

  /** The row a settled call logs carries the event's counts exactly when it found the event unsettled or so settled. */
  lemma LoggedCountsExact(found: Event, left: Event, prompt: int, completion: int)
    requires ClosedFrom(found, left, true, prompt, completion)
    ensures left.prompt == prompt && left.completion == completion <==> LogsItsEvent(found, prompt, completion)
  {
  }

  /** The usage row of an exchange: one, with the billed counts, if it was settled without a fault. */
  function BilledRows(r: Request, x: Exchange, settled: bool): seq<UsageRow>
    requires settled ==> x.Billable()
  {
    if settled && !x.fault
    then [UsageRow(r.key, r.requestId, x.BilledPrompt(r), x.BilledCompletion(r), false)]
    else []
  }

  /** What an exchange says about the miner: its failure, a settled success or nothing. */
  function MinerRows(miner: nat, x: Exchange, settled: bool): seq<StatRow> {
    if x.Blames() && (x.Billable() ==> settled && !x.fault) then [StatRow(miner, false)]
    else if x.Sealed? && x.code < 400 && settled && !x.fault then [StatRow(miner, true)]
    else []
  }

  lemma RunNothing(db: Db)
    requires db.Linked()
    ensures Run(db, []) == db
  {
  }

  lemma RunServed(db: Db, id: nat, result: Forward, input: int, user: nat, answered: bool)
    requires db.Linked() && result.Serves?
    ensures Run(db, ServedSteps(id, result, input, user, answered))
         == Apply(Apply(db, DoSettle(id, SettledPrompt(result, input), SettledCompletion(result))),
                  if answered then DoRecalculate(user) else DoRelease(id))
  {
    hide Run, Apply;
    var settle := DoSettle(id, SettledPrompt(result, input), SettledCompletion(result));
    var last := if answered then DoRecalculate(user) else DoRelease(id);
    RunOne(db, settle);
    RunMore(db, [settle], last);
    assert [settle] + [last] == ServedSteps(id, result, input, user, answered);
  }
}
