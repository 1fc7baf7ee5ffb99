/** The router plane: `RouterInferenceService` as atomic calls that roll back when they raise. */
module Router {
  import opened Prelude
  import opened Calendar
  import opened Ledger
  import opened LedgerInvariants
  import opened LedgerCache
  import opened LedgerTheorems

  /** An API key: who owns it and, if it is scoped, which models it may use. */
  datatype ApiKey = ApiKey(owner: nat, models: set<string>)

  /** A row of `api_key_usage`; its endpoint is the router's or another plane's. */
  datatype UsageRow = UsageRow(key: nat, requestId: string, input: int, output: int, routed: bool)

  datatype Plane = Plane(db: Db, keys: map<nat, ApiKey>, rows: seq<UsageRow>)

  datatype Failure =
    | Unauthorized
    | ModelNotAllowed
    | Declined(why: Refusal)
    | DifferentRouter
    | DifferentKey
    | RequestIdConflict
    | RequestIdMismatch
    | NotFound
    | AlreadySettled
    | InternalError

  datatype Reply = Ok(id: nat) | Error(why: Failure)

  datatype Call =
    | CreateReservation(router: nat, key: nat, model: string, input: int, output: int, requestId: string,
                        expiresAt: Instant)
    | SettleUsage(router: nat, key: nat, reservation: nat, requestId: string, input: int, output: int)
    | ReleaseReservation(router: nat, key: nat, reservation: nat)

  predicate ModelAllowed(key: ApiKey, model: string) {
    key.models == {} || model in key.models
  }

  function ReservationRequest(c: Call, owner: nat): Request
    requires c.CreateReservation?
  {
    Request(owner, c.key, Some(c.router), c.model, c.input, c.output, c.requestId, c.expiresAt)
  }

  /** The checks `create_reservation` makes on the event it got, new or found. */
  function CreateConflict(e: Event, c: Call): Option<Failure>
    requires c.CreateReservation?
  {
    if e.status == Expired then Some(Declined(ReservationExpired))
    else if e.status != Reserved then Some(Declined(ReservationNotActive))
    else if e.router != Some(c.router) then Some(DifferentRouter)
    else if e.key != c.key then Some(DifferentKey)
    else if e.model != c.model || e.prompt != c.input || e.rawTotal != c.input + c.output then Some(RequestIdConflict)
    else None
  }

  function Create(s: Plane, c: Call): (r: (Plane, Reply))
    requires s.db.Linked() && c.CreateReservation?
    ensures r.0.db.Linked()
    ensures r.1.Ok? ==> r.1.id < |r.0.db.events|
  {
    if c.key !in s.keys then (s, Error(Unauthorized))
    else if !ModelAllowed(s.keys[c.key], c.model) then (s, Error(ModelNotAllowed))
    else
      var owner := s.keys[c.key].owner;
      var (db, outcome) := Reserve(s.db, ReservationRequest(c, owner));
      if outcome.Refused? then (s, Error(Declined(outcome.why)))
      else if !outcome.Granted? && !outcome.Existing? then (s, Error(InternalError))
      else
        match CreateConflict(db.events[outcome.id], c)
        case Some(why) => (s, Error(why))
        case None => (s.(db := Recalculate(db, owner).0), Ok(outcome.id))
  }

  /** `_get_router_event`. */
  function RouterEvent(events: seq<Event>, reservation: nat, router: nat, key: nat, requestId: Option<string>)
    : (r: Reply)
    ensures r.Ok? <==>
              && reservation < |events| && events[reservation].router == Some(router) && events[reservation].key == key
              && (requestId.Some? ==> events[reservation].requestId == requestId.value)
    ensures r.Ok? ==> r.id == reservation
  {
    if reservation >= |events| then Error(NotFound)
    else
      var e := events[reservation];
      if requestId.Some? && e.requestId != requestId.value then Error(RequestIdMismatch)
      else if e.router != Some(router) then Error(DifferentRouter)
      else if e.key != key then Error(DifferentKey)
      else Ok(reservation)
  }

  /** What an owned event answers to a settlement, and the usage row of a first one. */
  function SettleOwned(s: Plane, owner: nat, id: nat, c: Call): (r: (Plane, Reply))
    requires s.db.Linked() && id < |s.db.events| && c.SettleUsage?
    ensures r.0.db.Linked() && (r.1.Ok? ==> r.1.id == id < |r.0.db.events|)
  {
    var e := s.db.events[id];
    if e.status == Settled && (e.prompt != c.input || e.completion != c.output) then (s, Error(RequestIdConflict))
    else
      var (db, outcome) := Settle(s.db, id, c.input, c.output);
      match outcome
      case Refused(why) => (s, Error(Declined(why)))
      case AssertionFailed => (s, Error(InternalError))
      case _ =>
        var rows := if e.status == Settled then s.rows
                    else s.rows + [UsageRow(c.key, c.requestId, c.input, c.output, true)];
        (s.(db := Recalculate(db, owner).0, rows := rows), Ok(id))
  }

  function SettleCall(s: Plane, c: Call): (r: (Plane, Reply))
    requires s.db.Linked() && c.SettleUsage?
    ensures r.0.db.Linked()
    ensures r.1.Ok? ==> r.1.id < |r.0.db.events|
  {
    if c.key !in s.keys then (s, Error(Unauthorized))
    else
      var owner := s.keys[c.key].owner;
      var expired := s.(db := ExpireStale(s.db, Some(owner)));
      match RouterEvent(expired.db.events, c.reservation, c.router, c.key, Some(c.requestId))
      case Error(why) => (s, Error(why))
      case Ok(id) =>
        var (after, reply) := SettleOwned(expired, owner, id, c);
        if reply.Ok? then (after, reply) else (s, reply)
  }

  function ReleaseCall(s: Plane, c: Call): (r: (Plane, Reply))
    requires s.db.Linked() && c.ReleaseReservation?
    ensures r.0.db.Linked()
    ensures r.1.Ok? ==> r.1.id < |r.0.db.events|
  {
    if c.key !in s.keys then (s, Error(Unauthorized))
    else
      var owner := s.keys[c.key].owner;
      var expired := ExpireStale(s.db, Some(owner));
      match RouterEvent(expired.events, c.reservation, c.router, c.key, None)
      case Error(why) => (s, Error(why))
      case Ok(id) =>
        if expired.events[id].status == Settled then (s, Error(AlreadySettled))
        else (s.(db := Recalculate(Release(expired, id), owner).0), Ok(id))
  }

  function Answer(s: Plane, c: Call): (r: (Plane, Reply))
    requires s.db.Linked()
    ensures r.0.db.Linked()
    ensures r.1.Ok? ==> r.1.id < |r.0.db.events|
  {
    match c
    case CreateReservation(_, _, _, _, _, _, _) => Create(s, c)
    case SettleUsage(_, _, _, _, _, _) => SettleCall(s, c)
    case ReleaseReservation(_, _, _) => ReleaseCall(s, c)
  }

  // ---- runs of the plane ----

  /** A router's call, or anything the other planes and the environment do meanwhile. */
  datatype PlaneStep = Routed(call: Call) | Elsewhere(step: Step) | Logged(row: UsageRow)

  function ApplyPlane(s: Plane, p: PlaneStep): (after: Plane)
    requires s.db.Linked()
    ensures after.db.Linked()
  {
    match p
    case Routed(c) => Answer(s, c).0
    case Elsewhere(step) => s.(db := Apply(s.db, step))
    case Logged(row) => s.(rows := s.rows + [row])
  }

  function RunPlane(s: Plane, steps: seq<PlaneStep>): (after: Plane)
    requires s.db.Linked()
    ensures after.db.Linked()
    decreases |steps|
  {
    if steps == [] then s else RunPlane(ApplyPlane(s, steps[0]), steps[1..])
  }

  /** Other planes reserve and log under their own name; what they settle or release is any event. */
  predicate Proper(p: PlaneStep) {
    match p
    case Routed(c) => true
    case Elsewhere(step) => step.DoReserve? ==> step.request.router.None?
    case Logged(row) => !row.routed
  }

  /** The router reservation that a step settles from another plane, if it does. */
  function Taken(s: Plane, p: PlaneStep): (ids: set<nat>)
    requires s.db.Linked()
    ensures forall id | id in ids :: id < |s.db.events|
  {
    if && p.Elsewhere? && p.step.DoSettle? && p.step.id < |s.db.events|
       && s.db.events[p.step.id].router.Some? && s.db.events[p.step.id].Live(s.db.now)
       && !FailsAssertion(s.db, p.step.id) && !Unaffordable(s.db, p.step.id, p.step.prompt, p.step.completion)
    then {p.step.id} else {}
  }

  /** The router reservations that other planes settle along a run. */
  function TakenAlong(s: Plane, steps: seq<PlaneStep>): set<nat>
    requires s.db.Linked()
    decreases |steps|
  {
    if steps == [] then {} else Taken(s, steps[0]) + TakenAlong(ApplyPlane(s, steps[0]), steps[1..])
  }

  /** The usage row of a settled router reservation. */
  function RowOf(e: Event): UsageRow {
    UsageRow(e.key, e.requestId, e.prompt, e.completion, true)
  }

  predicate Billed(e: Event) {
    e.router.Some? && e.status == Settled
  }

  /**
   Exactly one router row per settled router reservation, with its counts, and no other router row;
   the reservations in `missing` are settled and have none.
   */
  ghost predicate RowsExact(db: Db, rows: seq<UsageRow>, missing: set<nat>) {
    && (forall j, k | 0 <= j < k < |rows| && rows[j].routed && rows[k].routed ::
          rows[j].key != rows[k].key || rows[j].requestId != rows[k].requestId)
    && (forall i: nat | i < |db.events| && Billed(db.events[i]) && i !in missing :: RowOf(db.events[i]) in rows)
    && (forall row | row in rows && row.routed :: HasEvent(db, row, missing))
    && (forall i | i in missing :: i < |db.events| && Billed(db.events[i]))
  }

  ghost predicate HasEvent(db: Db, row: UsageRow, missing: set<nat>) {
    exists i: nat :: i < |db.events| && Billed(db.events[i]) && i !in missing && RowOf(db.events[i]) == row
  }

  ghost predicate PlaneInv(s: Plane, missing: set<nat>) {
    && Inv(s.db)
    && (forall i | 0 <= i < |s.db.events| && s.db.events[i].router.Some? ::
          s.db.events[i].key in s.keys && s.keys[s.db.events[i].key].owner == s.db.events[i].user)
    && RowsExact(s.db, s.rows, missing)
  }

  // ---- which events a step settles ----

  /** Events evolve and none becomes settled. */
  ghost predicate Quiet(db: Db, after: Db) {
    && Evolved(db, after)
    && forall i | 0 <= i < |after.events| && (i < |db.events| ==> db.events[i].status != Settled) ::
         after.events[i].status != Settled
  }

  lemma QuietTransitive(a: Db, b: Db, c: Db)
    requires Quiet(a, b) && Quiet(b, c)
    ensures Quiet(a, c)
  {
    EvolvedTransitive(a, b, c);
  }

  lemma ExpireQuiet(db: Db, user: Option<nat>)
    requires Inv(db)
    ensures db.Linked() && Quiet(db, ExpireStale(db, user)) && |ExpireStale(db, user).events| == |db.events|
  {
    ExpireEvolves(db, user);
    ExpireKeeps(db, user);
  }

  lemma RecalculateQuiet(db: Db, user: nat)
    requires Inv(db)
    ensures db.Linked() && Quiet(db, Recalculate(db, user).0) && |Recalculate(db, user).0.events| == |db.events|
  {
    ExpireQuiet(db, Some(user));
    RecalculateEvolves(db, user);
    RecalculateKeeps(db, user);
  }

  lemma ReleaseQuiet(db: Db, id: nat)
    requires Inv(db) && id < |db.events|
    ensures db.Linked() && Quiet(db, Release(db, id)) && |Release(db, id).events| == |db.events|
  {
    LinkedWhenSound(db);
    ReleaseEvolves(db, id);
    ExpireQuiet(db, Some(db.events[id].user));
  }

  lemma ReserveQuiet(db: Db, r: Request)
    requires Inv(db)
    ensures db.Linked() && Quiet(db, Reserve(db, r).0)
    ensures var (after, outcome) := Reserve(db, r);
            if outcome.Granted?
            then
              && outcome.id == |db.events| && |after.events| == outcome.id + 1
              && CreateMatches(after.events[outcome.id], r) && after.events[outcome.id].status == Reserved
            else
              && |after.events| == |db.events|
              && (outcome.Existing? ==>
                    after.events[outcome.id].user == r.user && after.events[outcome.id].requestId == r.requestId)
  {
    hide ReserveIn, Total, Flow, Sound, Funded, ExpireStale;
    ReserveEvents(db, r);
    ExpireQuiet(db, Some(r.user));
    ExpireKeeps(db, Some(r.user));
    if FindEvent(ExpireStale(db, Some(r.user)).events, r.user, r.requestId).None? {
      var current, period := ReserveUnfolds(db, r);
      ReserveInKeeps(current, r, period);
      if Reserve(db, r).1.Granted? {
        ReserveInAppends(current, r, period);
      }
    }
  }

  /** The event is the one this request opens. */
  predicate CreateMatches(e: Event, r: Request) {
    && e.user == r.user && e.key == r.key && e.router == r.router && e.requestId == r.requestId
    && e.model == r.model && e.prompt == r.prompt && e.rawTotal == r.prompt + r.maxCompletion
  }

  lemma QuietKeepsRows(db: Db, after: Db, rows: seq<UsageRow>, missing: set<nat>)
    requires RowsExact(db, rows, missing) && Quiet(db, after)
    ensures RowsExact(after, rows, missing)
  {
    forall i: nat | i < |after.events| && Billed(after.events[i]) && i !in missing
      ensures RowOf(after.events[i]) in rows
    {
      assert i < |db.events| && Successor(db.events[i], after.events[i]);
    }
    forall row | row in rows && row.routed
      ensures HasEvent(after, row, missing)
    {
      assert HasEvent(db, row, missing);
      var i: nat :| i < |db.events| && Billed(db.events[i]) && i !in missing && RowOf(db.events[i]) == row;
      assert Successor(db.events[i], after.events[i]);
    }
    forall i | i in missing
      ensures i < |after.events| && Billed(after.events[i])
    {
      assert Successor(db.events[i], after.events[i]);
    }
  }

  /** Events of the plane keep their key and user, so a quiet step without new ones keeps the invariant. */
  lemma QuietKeeps(s: Plane, after: Plane, missing: set<nat>)
    requires PlaneInv(s, missing) && Inv(after.db) && Quiet(s.db, after.db)
    requires after.keys == s.keys && after.rows == s.rows
    requires forall i | |s.db.events| <= i < |after.db.events| && after.db.events[i].router.Some? ::
               after.db.events[i].key in s.keys && s.keys[after.db.events[i].key].owner == after.db.events[i].user
    ensures PlaneInv(after, missing)
  {
    QuietKeepsRows(s.db, after.db, s.rows, missing);
    forall i | 0 <= i < |after.db.events| && after.db.events[i].router.Some?
      ensures after.db.events[i].key in s.keys && s.keys[after.db.events[i].key].owner == after.db.events[i].user
    {
      assert i < |s.db.events| ==> Successor(s.db.events[i], after.db.events[i]);
    }
  }

  lemma CreateUnfolds(s: Plane, c: Call)
    requires s.db.Linked() && c.CreateReservation? && Create(s, c).1.Ok?
    ensures c.key in s.keys && ModelAllowed(s.keys[c.key], c.model)
    ensures var owner := s.keys[c.key].owner;
            var (db, outcome) := Reserve(s.db, ReservationRequest(c, owner));
            && (outcome.Granted? || outcome.Existing?) && outcome.id == Create(s, c).1.id
            && CreateConflict(db.events[outcome.id], c).None?
            && Create(s, c).0 == s.(db := Recalculate(db, owner).0)
  {
    hide Reserve, Recalculate;
  }

  lemma CreateKeeps(s: Plane, c: Call, missing: set<nat>)
    requires PlaneInv(s, missing) && c.CreateReservation?
    ensures s.db.Linked() && PlaneInv(Create(s, c).0, missing)
  {
    hide Reserve, Recalculate, Create;
    LinkedWhenSound(s.db);
    CreateErrs(s, c);
    if Create(s, c).1.Ok? {
      CreateUnfolds(s, c);
      var owner := s.keys[c.key].owner;
      var r := ReservationRequest(c, owner);
      ReserveKeeps(s.db, r);
      ReserveQuiet(s.db, r);
      var reserved := Reserve(s.db, r).0;
      QuietKeeps(s, s.(db := reserved), missing);
      RecalculateKeeps(reserved, owner);
      RecalculateQuiet(reserved, owner);
      QuietKeeps(s.(db := reserved), Create(s, c).0, missing);
    }
  }

  lemma CreateErrs(s: Plane, c: Call)
    requires s.db.Linked() && c.CreateReservation?
    ensures Create(s, c).1.Error? ==> Create(s, c).0 == s
  {
    hide Reserve, Recalculate;
  }

  lemma ReleaseCallKeeps(s: Plane, c: Call, missing: set<nat>)
    requires PlaneInv(s, missing) && c.ReleaseReservation?
    ensures s.db.Linked() && PlaneInv(ReleaseCall(s, c).0, missing)
  {
    LinkedWhenSound(s.db);
    hide Inv, Quiet, RowsExact, ExpireStale, Release, Recalculate;
    if ReleaseCall(s, c).1.Ok? {
      var owner := s.keys[c.key].owner;
      ExpireQuiet(s.db, Some(owner));
      ExpireKeeps(s.db, Some(owner));
      var expired := ExpireStale(s.db, Some(owner));
      QuietKeeps(s, s.(db := expired), missing);
      ReleaseQuiet(expired, c.reservation);
      ReleaseKeeps(expired, c.reservation);
      var released := Release(expired, c.reservation);
      QuietKeeps(s.(db := expired), s.(db := released), missing);
      RecalculateQuiet(released, owner);
      RecalculateKeeps(released, owner);
      QuietKeeps(s.(db := released), ReleaseCall(s, c).0, missing);
    }
  }

  /** A first settlement closes exactly this event, and its row is new. */
  lemma FirstSettlementAddsItsRow(s: Plane, id: nat, prompt: int, completion: int, missing: set<nat>)
    requires PlaneInv(s, missing) && id < |s.db.events| && s.db.events[id].router.Some?
               && s.db.events[id].Live(s.db.now)
    requires s.db.Linked() && Settle(s.db, id, prompt, completion).1 == Closed
    ensures var after := Settle(s.db, id, prompt, completion).0;
            && |after.events| == |s.db.events| && Billed(after.events[id])
            && PlaneInv(s.(db := after, rows := s.rows + [RowOf(after.events[id])]), missing)
  {
    hide CapRefusal;
    hide Total, Flow, ChargedTokens;
    SettleKeeps(s.db, id, prompt, completion);
    var after := Settle(s.db, id, prompt, completion).0;
    var f := after.events[id];
    var row := RowOf(f);
    assert after.events == s.db.events[id := f] && SameIdentity(s.db.events[id], f);
    forall k | 0 <= k < |s.rows| && s.rows[k].routed
      ensures s.rows[k].key != row.key || s.rows[k].requestId != row.requestId
    {
      assert s.rows[k] in s.rows && HasEvent(s.db, s.rows[k], missing);
      var i: nat :| i < |s.db.events| && Billed(s.db.events[i]) && i !in missing && RowOf(s.db.events[i]) == s.rows[k];
      assert i != id && (s.db.events[i].key == f.key ==> s.db.events[i].user == f.user);
    }
    var rows := s.rows + [row];
    assert rows[|s.rows|] == row;
    forall i: nat | i < |after.events| && Billed(after.events[i]) && i !in missing
      ensures RowOf(after.events[i]) in rows
    {
      assert i != id ==> RowOf(s.db.events[i]) in s.rows;
    }
    forall other | other in rows && other.routed
      ensures HasEvent(after, other, missing)
    {
      if other in s.rows {
        assert HasEvent(s.db, other, missing);
        var i: nat :| i < |s.db.events| && Billed(s.db.events[i]) && i !in missing && RowOf(s.db.events[i]) == other;
        assert after.events[i] == s.db.events[i];
      } else {
        assert Billed(after.events[id]) && RowOf(after.events[id]) == other && id !in missing;
      }
    }
  }

  lemma SettleOwnedKeeps(s: Plane, owner: nat, id: nat, c: Call, missing: set<nat>)
    requires PlaneInv(s, missing) && id < |s.db.events| && c.SettleUsage?
    requires s.db.events[id].router.Some? && s.db.events[id].key == c.key && s.db.events[id].requestId == c.requestId
    requires s.db.Linked() && SettleOwned(s, owner, id, c).1.Ok?
    ensures PlaneInv(SettleOwned(s, owner, id, c).0, missing)
  {
    hide SettleLive, Total, Flow;
    var settled := Settle(s.db, id, c.input, c.output).0;
    var middle := s.(db := settled, rows := SettleOwned(s, owner, id, c).0.rows);
    if s.db.events[id].status != Settled {
      SettleClosesAt(s.db, id, c.input, c.output);
      FirstSettlementAddsItsRow(s, id, c.input, c.output, missing);
    }
    assert PlaneInv(middle, missing);
    RecalculateKeeps(settled, owner);
    RecalculateQuiet(settled, owner);
    QuietKeeps(middle, SettleOwned(s, owner, id, c).0, missing);
  }

  /** A settlement that closes an open event found it live and leaves the settled counts on it. */
  lemma SettleClosesAt(db: Db, id: nat, prompt: int, completion: int)
    requires db.Linked() && id < |db.events| && db.events[id].status != Settled
    requires Settle(db, id, prompt, completion).1 != AssertionFailed && !Settle(db, id, prompt, completion).1.Refused?
    ensures db.events[id].Live(db.now) && Settle(db, id, prompt, completion).1 == Closed
    ensures var after := Settle(db, id, prompt, completion).0;
            && |after.events| == |db.events|
            && after.events[id].status == Settled && SameIdentity(db.events[id], after.events[id])
            && after.events[id].prompt == prompt && after.events[id].completion == completion
  {
  }

  lemma SettleCallKeeps(s: Plane, c: Call, missing: set<nat>)
    requires PlaneInv(s, missing) && c.SettleUsage?
    ensures s.db.Linked() && PlaneInv(SettleCall(s, c).0, missing)
  {
    hide Total, Flow, Settle, Recalculate;
    LinkedWhenSound(s.db);
    if SettleCall(s, c).1.Ok? {
      var owner := s.keys[c.key].owner;
      ExpireQuiet(s.db, Some(owner));
      ExpireKeeps(s.db, Some(owner));
      var expired := s.(db := ExpireStale(s.db, Some(owner)));
      QuietKeeps(s, expired, missing);
      SettleOwnedKeeps(expired, owner, c.reservation, c, missing);
    }
  }

  /** Every step but a settlement is quiet, and only a reservation opens an event. */
  lemma StepQuiet(db: Db, step: Step)
    requires Inv(db) && !step.DoSettle?
    ensures db.Linked() && Quiet(db, Apply(db, step))
    ensures forall i | |db.events| <= i < |Apply(db, step).events| ::
              step.DoReserve? && Apply(db, step).events[i].router == step.request.router
  {
    hide Settle, Release, Reserve, Recalculate, ExpireStale;
    LinkedWhenSound(db);
    match step
    case DoReserve(r) => ReserveQuiet(db, r);
    case DoRelease(id) => if id < |db.events| { ReleaseQuiet(db, id); }
    case DoExpire(user) => ExpireQuiet(db, user);
    case DoRecalculate(user) => RecalculateQuiet(db, user);
    case _ =>
  }

  /** What another plane settles of this plane's events gets no row; nothing else it does matters here. */
  lemma ElsewhereKeeps(s: Plane, step: Step, missing: set<nat>)
    requires PlaneInv(s, missing) && Proper(Elsewhere(step))
    ensures s.db.Linked() && PlaneInv(s.(db := Apply(s.db, step)), missing + Taken(s, Elsewhere(step)))
  {
    hide Settle, Reserve, Release, Recalculate, ExpireStale, RowsExact;
    StepKeeps(s.db, step);
    if step.DoSettle? && step.id < |s.db.events| {
      SettleElsewhereKeeps(s, step.id, step.prompt, step.completion, missing);
    } else {
      assert missing + {} == missing;
      if step.DoSettle? {
        assert s.(db := s.db) == s;
      } else {
        StepQuiet(s.db, step);
        QuietKeeps(s, s.(db := Apply(s.db, step)), missing);
      }
    }
  }

  lemma SettleElsewhereKeeps(s: Plane, id: nat, prompt: int, completion: int, missing: set<nat>)
    requires PlaneInv(s, missing) && id < |s.db.events|
    ensures s.db.Linked()
    ensures PlaneInv(s.(db := Settle(s.db, id, prompt, completion).0),
                     missing + Taken(s, Elsewhere(DoSettle(id, prompt, completion))))
  {
    hide Total, Flow, ChargedTokens, SettleLive, Unaffordable, RowsExact, Inv, FailsAssertion;
    SettleKeeps(s.db, id, prompt, completion);
    var after := Settle(s.db, id, prompt, completion).0;
    if s.db.events[id].Live(s.db.now) {
      SettleRefusedExact(s.db, id, prompt, completion);
      SettleLiveTouches(s.db, id, prompt, completion);
      if Settle(s.db, id, prompt, completion).1 == Closed {
        ClosedElsewhereKeeps(s, id, prompt, completion, missing);
      } else {
        assert missing + {} == missing;
        assert Quiet(s.db, after);
        QuietKeeps(s, s.(db := after), missing);
      }
    } else {
      assert missing + {} == missing;
      ExpireQuiet(s.db, Some(s.db.events[id].user));
      QuietKeeps(s, s.(db := after), missing);
    }
  }

  lemma ClosedElsewhereKeeps(s: Plane, id: nat, prompt: int, completion: int, missing: set<nat>)
    requires PlaneInv(s, missing) && id < |s.db.events| && s.db.events[id].Live(s.db.now)
    requires s.db.Linked() && Settle(s.db, id, prompt, completion).1 == Closed
    ensures PlaneInv(s.(db := Settle(s.db, id, prompt, completion).0),
                     missing + if s.db.events[id].router.Some? then {id} else {})
  {
    hide Total, Flow, ChargedTokens, SettleLive;
    SettleKeeps(s.db, id, prompt, completion);
    SettleClosesAt(s.db, id, prompt, completion);
    SettleLiveTouches(s.db, id, prompt, completion);
    var after := Settle(s.db, id, prompt, completion).0;
    var more := missing + if s.db.events[id].router.Some? then {id} else {};
    hide Settle, Inv;
    forall i: nat | i < |after.events| && Billed(after.events[i]) && i !in more
      ensures RowOf(after.events[i]) in s.rows
    {
      assert i != id;
    }
    forall row | row in s.rows && row.routed
      ensures HasEvent(after, row, more)
    {
      assert HasEvent(s.db, row, missing);
      var i: nat :| i < |s.db.events| && Billed(s.db.events[i]) && i !in missing && RowOf(s.db.events[i]) == row;
      assert i != id && after.events[i] == s.db.events[i];
    }
  }

  lemma SettleLiveTouches(db: Db, id: nat, prompt: int, completion: int)
    requires db.Linked() && id < |db.events|
    ensures |SettleLive(db, id, prompt, completion).0.events| == |db.events|
    ensures forall i | 0 <= i < |db.events| && i != id ::
              SettleLive(db, id, prompt, completion).0.events[i] == db.events[i]
    ensures SettleLive(db, id, prompt, completion).1 != Closed ==>
              SettleLive(db, id, prompt, completion).0.events == db.events
  {
  }

  lemma LoggedKeeps(s: Plane, row: UsageRow, missing: set<nat>)
    requires PlaneInv(s, missing) && !row.routed
    ensures PlaneInv(s.(rows := s.rows + [row]), missing)
  {
    hide Inv;
    var rows := s.rows + [row];
    forall i: nat | i < |s.db.events| && Billed(s.db.events[i]) && i !in missing
      ensures RowOf(s.db.events[i]) in rows
    {
      assert RowOf(s.db.events[i]) in s.rows;
    }
  }

  lemma PlaneStepKeeps(s: Plane, p: PlaneStep, missing: set<nat>)
    requires PlaneInv(s, missing) && Proper(p)
    ensures s.db.Linked() && PlaneInv(ApplyPlane(s, p), missing + Taken(s, p))
  {
    hide PlaneInv, Create, SettleCall, ReleaseCall;
    PlaneLinked(s, missing);
    assert p.Elsewhere? || missing + Taken(s, p) == missing;
    match p
    case Elsewhere(step) => ElsewhereKeeps(s, step, missing);
    case Logged(row) => LoggedKeeps(s, row, missing);
    case Routed(c) =>
      match c
      case CreateReservation(_, _, _, _, _, _, _) => CreateKeeps(s, c, missing);
      case SettleUsage(_, _, _, _, _, _) => SettleCallKeeps(s, c, missing);
      case ReleaseReservation(_, _, _) => ReleaseCallKeeps(s, c, missing);
  }

  lemma PlaneLinked(s: Plane, missing: set<nat>)
    requires PlaneInv(s, missing)
    ensures s.db.Linked()
  {
    LinkedWhenSound(s.db);
  }

  /**
   Over any sequence of calls by any routers, replays included, and whatever the other planes do
   meanwhile: exactly one usage row per settled reservation, with the settled counts, except for
   exactly those reservations that another plane settled, and none for any other event.
   */
  lemma {:induction false} UsageRowsAreExact(s: Plane, steps: seq<PlaneStep>, missing: set<nat>)
    requires PlaneInv(s, missing) && s.db.Linked() && forall p | p in steps :: Proper(p)
    ensures PlaneInv(RunPlane(s, steps), missing + TakenAlong(s, steps))
    decreases |steps|
  {
    hide PlaneInv, ApplyPlane, Taken;
    if steps == [] {
      assert missing + {} == missing;
    } else {
      var more := missing + Taken(s, steps[0]);
      PlaneStepKeeps(s, steps[0], missing);
      UsageRowsAreExact(ApplyPlane(s, steps[0]), steps[1..], more);
      assert more + TakenAlong(ApplyPlane(s, steps[0]), steps[1..]) == missing + TakenAlong(s, steps);
    }
  }

  /** Every settled router reservation has its row exactly when no other plane settled one. */
  lemma EveryReservationHasItsRow(s: Plane, steps: seq<PlaneStep>)
    requires PlaneInv(s, {}) && s.db.Linked() && forall p | p in steps :: Proper(p)
    ensures RowsExact(RunPlane(s, steps).db, RunPlane(s, steps).rows, {}) <==> TakenAlong(s, steps) == {}
  {
    UsageRowsAreExact(s, steps, {});
    assert {} + TakenAlong(s, steps) == TakenAlong(s, steps);
    var after := RunPlane(s, steps);
    if RowsExact(after.db, after.rows, {}) {
      forall i | i in TakenAlong(s, steps)
        ensures false
      {
        MissingHasNoRow(after, TakenAlong(s, steps), i);
      }
    }
  }

  lemma MissingHasNoRow(s: Plane, missing: set<nat>, i: nat)
    requires PlaneInv(s, missing) && i in missing
    ensures i < |s.db.events| && RowOf(s.db.events[i]) !in s.rows
  {
    forall j: nat | j < |s.db.events| && Billed(s.db.events[j]) && RowOf(s.db.events[j]) == RowOf(s.db.events[i])
      ensures j == i
    {
      assert s.db.events[j].user == s.db.events[i].user && s.db.events[j].requestId == s.db.events[i].requestId;
    }
  }

  // ---- single calls ----

  /** A reservation that is answered is open and is this router's, this key's and for this payload. */
  lemma CreateReturnsOwn(s: Plane, c: Call)
    requires Inv(s.db) && s.db.Linked() && c.CreateReservation?
    requires Create(s, c).1.Ok?
    ensures var (after, reply) := Create(s, c);
            var e := after.db.events[reply.id];
            && c.key in s.keys && ModelAllowed(s.keys[c.key], c.model)
            && e.router == Some(c.router) && e.key == c.key && e.user == s.keys[c.key].owner
            && e.requestId == c.requestId && e.model == c.model
            && e.prompt == c.input && e.rawTotal == c.input + c.output
            && e.status in {Reserved, Expired}
  {
    hide Reserve, Recalculate, Create;
    CreateUnfolds(s, c);
    var owner := s.keys[c.key].owner;
    var r := ReservationRequest(c, owner);
    ReserveKeeps(s.db, r);
    ReserveQuiet(s.db, r);
    var (reserved, outcome) := Reserve(s.db, r);
    RecalculateKeeps(reserved, owner);
    RecalculateQuiet(reserved, owner);
    var e := Create(s, c).0.db.events[outcome.id];
    ExpireKeeps(reserved, Some(owner));
    assert Successor(reserved.events[outcome.id], e);
  }

  /** A settlement repeated with other counts is rejected, and with the same counts adds no row; nothing is charged. */
  lemma SettleReplay(s: Plane, c: Call)
    requires Inv(s.db) && s.db.Linked() && c.SettleUsage? && c.reservation < |s.db.events|
    requires s.db.events[c.reservation].status == Settled
    ensures var (after, reply) := SettleCall(s, c);
            var e := s.db.events[c.reservation];
            && (e.prompt != c.input || e.completion != c.output ==> reply.Error? && after == s)
            && after.rows == s.rows
            && after.db.events[c.reservation] == e
            && Quiet(s.db, after.db)
  {
    hide Total, Flow, SettleLive;
    if SettleCall(s, c).1.Ok? {
      var owner := s.keys[c.key].owner;
      ExpireQuiet(s.db, Some(owner));
      ExpireKeeps(s.db, Some(owner));
      var expired := ExpireStale(s.db, Some(owner));
      assert Successor(s.db.events[c.reservation], expired.events[c.reservation]);
      RecalculateQuiet(expired, owner);
      QuietTransitive(s.db, expired, SettleCall(s, c).0.db);
      assert Successor(s.db.events[c.reservation], SettleCall(s, c).0.db.events[c.reservation]);
    }
  }

  // ---- which calls succeed ----

  /** A reservation is answered exactly if the key may use the model and the event is open and this call's own. */
  lemma CreateSucceedsExactly(s: Plane, c: Call)
    requires s.db.Linked() && c.CreateReservation?
    ensures Create(s, c).1 == Error(Unauthorized) <==> c.key !in s.keys
    ensures Create(s, c).1 == Error(ModelNotAllowed) <==>
            c.key in s.keys && s.keys[c.key].models != {} && c.model !in s.keys[c.key].models
    ensures Create(s, c).1.Ok? <==>
              && c.key in s.keys && (s.keys[c.key].models == {} || c.model in s.keys[c.key].models)
              && var (db, outcome) :=
                   Reserve(s.db, Request(s.keys[c.key].owner, c.key, Some(c.router), c.model, c.input, c.output,
                                         c.requestId, c.expiresAt));
                 && !outcome.Refused?
                 && var e := db.events[outcome.id];
                    && e.status == Reserved && e.router == Some(c.router) && e.key == c.key
                    && e.model == c.model && e.prompt == c.input && e.rawTotal == c.input + c.output
  {
    hide Reserve, Recalculate;
  }

  /** A settlement is answered exactly if the event is this call's own and closes, or was closed with these counts. */
  lemma SettleSucceedsExactly(s: Plane, c: Call)
    requires Inv(s.db) && s.db.Linked() && c.SettleUsage?
    ensures SettleCall(s, c).1.Ok? <==>
              && c.key in s.keys && c.reservation < |s.db.events|
              && var expired := ExpireStale(s.db, Some(s.keys[c.key].owner));
                 var e := expired.events[c.reservation];
                 && e.router == Some(c.router) && e.key == c.key && e.requestId == c.requestId
                 && if e.status == Settled then e.prompt == c.input && e.completion == c.output
                    else
                      && e.Live(expired.now) && !FailsAssertion(expired, c.reservation)
                      && !Unaffordable(expired, c.reservation, c.input, c.output)
    // the row of a first settlement, and none for a repeated one
    ensures SettleCall(s, c).1.Ok? ==>
              var e := ExpireStale(s.db, Some(s.keys[c.key].owner)).events[c.reservation];
              SettleCall(s, c).0.rows
              == s.rows + if e.status == Settled then []
                          else [UsageRow(c.key, c.requestId, c.input, c.output, true)]
  {
    hide Total, Flow, SettleLive, Recalculate, ExpireStale, Unaffordable, FailsAssertion;
    if c.key in s.keys {
      var owner := s.keys[c.key].owner;
      ExpireKeeps(s.db, Some(owner));
      var expired := ExpireStale(s.db, Some(owner));
      if c.reservation < |expired.events| && expired.events[c.reservation].Live(expired.now) {
        SettleRefusedExact(expired, c.reservation, c.input, c.output);
      }
      assert s.rows + [] == s.rows;
    }
  }

  /** A release is answered exactly if the event is this router's and key's and is not settled. */
  lemma ReleaseSucceedsExactly(s: Plane, c: Call)
    requires s.db.Linked() && c.ReleaseReservation?
    ensures ReleaseCall(s, c).1.Ok? <==>
              && c.key in s.keys && c.reservation < |s.db.events|
              && var e := ExpireStale(s.db, Some(s.keys[c.key].owner)).events[c.reservation];
                 e.router == Some(c.router) && e.key == c.key && e.status != Settled
    ensures ReleaseCall(s, c).1.Error? ==> ReleaseCall(s, c).0 == s
  {
    hide ExpireStale, Release, Recalculate;
  }

  // ---- how calls fail ----

  /** What a reservation call answers about the event it got, in the order of the checks. */
  lemma CreateFailsExactly(s: Plane, c: Call)
    requires s.db.Linked() && c.CreateReservation? && c.key in s.keys
    requires s.keys[c.key].models == {} || c.model in s.keys[c.key].models
    ensures var (db, outcome) := Reserve(s.db, ReservationRequest(c, s.keys[c.key].owner));
            Create(s, c).1
            == if outcome.Refused? then Error(Declined(outcome.why))
               else
                 var e := db.events[outcome.id];
                 if e.status == Expired then Error(Declined(ReservationExpired))
                 else if e.status == Released || e.status == Settled then Error(Declined(ReservationNotActive))
                 else if e.router.None? || e.router.value != c.router then Error(DifferentRouter)
                 else if e.key != c.key then Error(DifferentKey)
                 else if e.model == c.model && e.prompt == c.input && e.rawTotal == c.input + c.output
                 then Ok(outcome.id)
                 else Error(RequestIdConflict)
  {
    hide Reserve, Recalculate;
  }

  /** What the look-up of an event answers, in the order of the checks. */
  lemma RouterEventFailsExactly(events: seq<Event>, reservation: nat, router: nat, key: nat, requestId: Option<string>)
    ensures RouterEvent(events, reservation, router, key, requestId).Error? ==>
              RouterEvent(events, reservation, router, key, requestId).why
              == if reservation >= |events| then NotFound
                 else if requestId.Some? && events[reservation].requestId != requestId.value then RequestIdMismatch
                 else if events[reservation].router == Some(router) then DifferentKey
                 else DifferentRouter
  {
  }
}
