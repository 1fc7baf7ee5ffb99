/** `RouterInferenceService`: the calls of the router plane over one `UsageService`, each rolled back when it raises. */
module RouterServices {
  import opened Prelude
  import opened Ledger
  import opened Router
  import opened UsageServices

  class RouterInferenceService {
    const usage: UsageService
    var keys: map<nat, ApiKey>
    var rows: seq<UsageRow>

    ghost function State(): Plane
      reads this, usage
    {
      Plane(usage.Rows(), keys, rows)
    }

    ghost predicate Valid()
      reads this, usage
    {
      usage.Valid()
    }

    constructor (usage: UsageService, keys: map<nat, ApiKey>)
      requires usage.Valid()
      ensures Valid() && this.usage == usage && State() == Plane(usage.Rows(), keys, [])
    {
      this.usage, this.keys, this.rows := usage, keys, [];
    }

    method CreateReservation(c: Call) returns (reply: Reply)
      requires Valid() && c.CreateReservation?
      modifies usage
      ensures Valid() && (State(), reply) == Create(old(State()), c)
    {
      if c.key !in keys {
        return Error(Unauthorized);
      }
      if !ModelAllowed(keys[c.key], c.model) {
        return Error(ModelNotAllowed);
      }
      var owner := keys[c.key].owner;
      var before := usage.Begin();
      var outcome := usage.ReserveInferenceTokens(ReservationRequest(c, owner));
      var failure := None;
      if outcome.Refused? {
        failure := Some(Declined(outcome.why));
      } else if outcome.Granted? || outcome.Existing? {
        failure := CreateConflict(usage.events[outcome.id], c);
      } else {
        failure := Some(InternalError);
      }
      if failure.Some? {
        usage.Rollback(before);
        return Error(failure.value);
      }
      var _ := usage.RecalculateCurrentPeriod(owner);
      reply := Ok(outcome.id);
    }

    method SettleUsage(c: Call) returns (reply: Reply)
      requires Valid() && c.SettleUsage?
      modifies usage, this`rows
      ensures Valid() && (State(), reply) == SettleCall(old(State()), c)
    {
      if c.key !in keys {
        return Error(Unauthorized);
      }
      var owner := keys[c.key].owner;
      var before := usage.Begin();
      var _ := usage.ExpireStaleReservations(Some(owner));
      reply := RouterEvent(usage.events, c.reservation, c.router, c.key, Some(c.requestId));
      if reply.Ok? {
        reply := SettleFound(owner, c.reservation, c);
      }
      if reply.Error? {
        usage.Rollback(before);
      }
    }

    /** The rest of a settlement; when it fails, only the session's own tables have changed. */
    method SettleFound(owner: nat, id: nat, c: Call) returns (reply: Reply)
      requires Valid() && c.SettleUsage? && id < |usage.events|
      modifies usage, this`rows
      ensures Valid() && reply == SettleOwned(old(State()), owner, id, c).1
      ensures reply.Ok? ==> State() == SettleOwned(old(State()), owner, id, c).0
      ensures reply.Error? ==> rows == old(rows)
      ensures usage.now == old(usage.now) && usage.accounts == old(usage.accounts) && usage.limits == old(usage.limits)
      ensures usage.prices == old(usage.prices) && usage.centsPerMillion == old(usage.centsPerMillion)
    {
      var e := usage.events[id];
      if e.status == Settled && (e.prompt != c.input || e.completion != c.output) {
        return Error(RequestIdConflict);
      }
      var alreadySettled := e.status == Settled;
      var outcome := usage.SettleInferenceUsage(id, c.input, c.output);
      if outcome.Refused? {
        return Error(Declined(outcome.why));
      }
      if outcome.AssertionFailed? {
        return Error(InternalError);
      }
      if !alreadySettled {
        rows := rows + [UsageRow(c.key, c.requestId, c.input, c.output, true)];
      }
      var _ := usage.RecalculateCurrentPeriod(owner);
      reply := Ok(id);
    }

    method ReleaseReservation(c: Call) returns (reply: Reply)
      requires Valid() && c.ReleaseReservation?
      modifies usage
      ensures Valid() && (State(), reply) == ReleaseCall(old(State()), c)
    {
      if c.key !in keys {
        return Error(Unauthorized);
      }
      var owner := keys[c.key].owner;
      var before := usage.Begin();
      var _ := usage.ExpireStaleReservations(Some(owner));
      reply := RouterEvent(usage.events, c.reservation, c.router, c.key, None);
      if reply.Ok? && usage.events[c.reservation].status == Settled {
        reply := Error(AlreadySettled);
      }
      if reply.Error? {
        usage.Rollback(before);
        return;
      }
      usage.ReleaseInferenceReservation(c.reservation);
      var _ := usage.RecalculateCurrentPeriod(owner);
    }
  }
}
