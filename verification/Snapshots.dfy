/** `MinerEpochStatsService`: write-once epoch snapshots and the backward walk that finalizes what is due. */
module Snapshots {
  import opened Prelude
  import opened Aggregation

  /** A request row and the epoch stamped on it, if the chain was reachable. */
  datatype Stamped = Stamped(epoch: Option<int>, row: Row)

  /** A row of `miner_epoch_snapshots`; its version is the instant of its finalization. */
  datatype Snapshot = Snapshot(epoch: int, version: int, entries: seq<Entry>)

  datatype Store = Store(
    requests: seq<Stamped>,
    anchors: map<(Name, Name), Anchor>,
    snapshots: map<int, Snapshot>)

  function RowsOf(requests: seq<Stamped>, epoch: int): seq<Row> {
    if requests == [] then []
    else
      var last := requests[|requests| - 1];
      RowsOf(requests[..|requests| - 1], epoch) + if last.epoch == Some(epoch) then [last.row] else []
  }

  /** Exactly the rows stamped with the epoch, as often as they occur; rows without an epoch are in none. */
  lemma {:induction false} RowsOfExact(requests: seq<Stamped>, epoch: int, row: Row)
    ensures multiset(RowsOf(requests, epoch))[row] == multiset(requests)[Stamped(Some(epoch), row)]
  {
    if requests != [] {
      var last := |requests| - 1;
      RowsOfExact(requests[..last], epoch, row);
      assert requests == requests[..last] + [requests[last]];
    }
  }

  /** An epoch the walk would finalize: not negative, with traffic and without a snapshot. */
  predicate Due(s: Store, epoch: int) {
    0 <= epoch && epoch !in s.snapshots && RowsOf(s.requests, epoch) != []
  }

  /** `n` epochs downward from `newest`. */
  function Descending(newest: int, n: nat): (epochs: seq<int>)
    ensures |epochs| == n && forall i | 0 <= i < n :: epochs[i] == newest - i
  {
    if n == 0 then [] else Descending(newest, n - 1) + [newest - (n - 1)]
  }

  /** The snapshot of an epoch is the aggregate of the rows it has at this moment. */
  ghost predicate Finalizes(s: Store, epoch: int, snapshot: Snapshot) {
    snapshot.epoch == epoch && IsAggregate(RowsOf(s.requests, epoch), s.anchors, snapshot.entries)
  }

  /** The newest epoch old enough to be closed. */
  function NewestClosed(currentEpoch: int, settleLag: int): int {
    currentEpoch - 1 - settleLag
  }

  /** The longest unbroken run of due epochs downward from the newest closed one, at most `maxPerPass` of them. */
  ghost predicate IsDueRun(s: Store, newest: int, maxPerPass: int, n: nat) {
    && n <= Max(0, maxPerPass)
    && (forall e | newest - n < e <= newest :: Due(s, e))
    && (n < maxPerPass ==> !Due(s, newest - n))
  }

  /** What one maintenance pass does to the store: exactly the epochs of the due run get a snapshot. */
  ghost predicate IsPass(s: Store, t: Store, newest: int, maxPerPass: int, finalized: seq<int>) {
    && t.requests == s.requests && t.anchors == s.anchors
    && IsDueRun(s, newest, maxPerPass, |finalized|)
    && finalized == Descending(newest, |finalized|)
    && (forall e :: e in t.snapshots <==> e in s.snapshots || newest - |finalized| < e <= newest)
    && (forall e | e in s.snapshots :: t.snapshots[e] == s.snapshots[e])
    && (forall e | newest - |finalized| < e <= newest :: Finalizes(s, e, t.snapshots[e]))
  }

  class MinerEpochStatsService {
    var requests: seq<Stamped>
    var anchors: map<(Name, Name), Anchor>
    var snapshots: map<int, Snapshot>
    var now: int

    constructor (requests: seq<Stamped>, anchors: map<(Name, Name), Anchor>, now: int)
      ensures State() == Store(requests, anchors, map[])
    {
      this.requests, this.anchors, this.snapshots, this.now := requests, anchors, map[], now;
    }

    ghost function State(): Store
      reads this
    {
      Store(requests, anchors, snapshots)
    }

    /** `finalize`: aggregate and store once; afterwards the stored artifact is returned as it is. */
    method Finalize(epoch: int) returns (artifact: Snapshot)
      modifies this`snapshots
      ensures epoch in snapshots && artifact == snapshots[epoch]
      ensures epoch in old(snapshots) ==> snapshots == old(snapshots)
      ensures epoch !in old(snapshots) ==>
                && snapshots == old(snapshots)[epoch := artifact]
                && artifact.version == now && Finalizes(old(State()), epoch, artifact)
    {
      if epoch in snapshots {
        return snapshots[epoch];
      }
      var entries := Aggregate(RowsOf(requests, epoch), anchors);
      artifact := Snapshot(epoch, now, entries);
      snapshots := snapshots[epoch := artifact];
    }

    /** `finalize_due`. */
    method FinalizeDue(currentEpoch: int, settleLag: int, maxPerPass: int) returns (finalized: seq<int>)
      modifies this`snapshots
      ensures IsPass(old(State()), State(), NewestClosed(currentEpoch, settleLag), maxPerPass, finalized)
    {
      hide IsAggregate, RowsOf;
      var newest := currentEpoch - 1 - settleLag;
      finalized := [];
      if newest < 0 {
        return;
      }
      var epoch := newest;
      while epoch >= 0 && |finalized| < maxPerPass
        invariant epoch == newest - |finalized| && |finalized| <= Max(0, maxPerPass)
        invariant finalized == Descending(newest, |finalized|)
        invariant forall e | epoch < e <= newest :: Due(old(State()), e)
        invariant forall e :: e in snapshots <==> e in old(snapshots) || epoch < e <= newest
        invariant forall e | e in old(snapshots) :: snapshots[e] == old(snapshots)[e]
        invariant forall e | epoch < e <= newest :: Finalizes(old(State()), e, snapshots[e])
        decreases epoch
      {
        if epoch in snapshots {
          break;
        }
        if RowsOf(requests, epoch) == [] {
          break;
        }
        var artifact := Finalize(epoch);
        finalized := finalized + [epoch];
        epoch := epoch - 1;
      }
    }
  }

  // ---- what a pass promises ----

  /** The due run is unique: which epochs a pass finalizes follows from the store alone. */
  lemma DueRunIsUnique(s: Store, newest: int, maxPerPass: int, m: nat, n: nat)
    requires IsDueRun(s, newest, maxPerPass, m) && IsDueRun(s, newest, maxPerPass, n)
    ensures m == n
  {
    assert m < n ==> Due(s, newest - m);
    assert n < m ==> Due(s, newest - n);
  }

  /** Epochs younger than the settle lag are never touched, nor is more than the bound. */
  lemma PassRespectsLag(s: Store, t: Store, currentEpoch: int, settleLag: int, maxPerPass: int,
                        finalized: seq<int>, e: int)
    requires IsPass(s, t, NewestClosed(currentEpoch, settleLag), maxPerPass, finalized)
    requires e in t.snapshots && e !in s.snapshots
    ensures 0 <= e <= currentEpoch - 1 - settleLag && |finalized| <= Max(0, maxPerPass)
  {
    assert Due(s, e);
  }

  /** The newest closed epoch is the first to be finalized, if it has traffic and no snapshot. */
  lemma NewestIsTaken(s: Store, t: Store, currentEpoch: int, settleLag: int, maxPerPass: int, finalized: seq<int>)
    requires IsPass(s, t, NewestClosed(currentEpoch, settleLag), maxPerPass, finalized) && 1 <= maxPerPass
    requires var newest := currentEpoch - 1 - settleLag;
             0 <= newest && newest !in s.snapshots && RowsOf(s.requests, newest) != []
    ensures finalized != [] && finalized[0] == currentEpoch - 1 - settleLag
    ensures currentEpoch - 1 - settleLag in t.snapshots
  {
    hide RowsOf, Finalizes;
  }

  // ---- runs ----

  /** One step of the store: rows and anchors change in any way, or a maintenance pass runs. */
  datatype StoreStep = Recorded | Pass(newest: int, maxPerPass: int, finalized: seq<int>)

  ghost predicate Follows(s: Store, step: StoreStep, t: Store) {
    match step
    case Recorded => t.snapshots == s.snapshots
    case Pass(newest, maxPerPass, finalized) => IsPass(s, t, newest, maxPerPass, finalized)
  }

  ghost predicate IsTrace(states: seq<Store>, steps: seq<StoreStep>) {
    && |states| == |steps| + 1
    && forall i | 0 <= i < |steps| :: Follows(states[i], steps[i], states[i + 1])
  }

  /** A finalized epoch is fixed: however request rows change afterwards, every later read returns it unchanged. */
  lemma {:induction false} SnapshotsAreImmutable(states: seq<Store>, steps: seq<StoreStep>, i: nat, j: nat, epoch: int)
    requires IsTrace(states, steps) && i <= j < |states| && epoch in states[i].snapshots
    ensures epoch in states[j].snapshots && states[j].snapshots[epoch] == states[i].snapshots[epoch]
    decreases j - i
  {
    if i < j {
      SnapshotsAreImmutable(states, steps, i, j - 1, epoch);
      assert Follows(states[j - 1], steps[j - 1], states[j]);
    }
  }

  /** A walk never goes past a finalized epoch. */
  lemma PassStopsAtSnapshot(s: Store, t: Store, newest: int, maxPerPass: int, finalized: seq<int>,
                            epoch: int, older: int)
    requires IsPass(s, t, newest, maxPerPass, finalized)
    requires epoch in s.snapshots && older < epoch <= newest
    ensures older in t.snapshots <==> older in s.snapshots
  {
    assert !Due(s, epoch);
  }

  /**
   An epoch left open below a finalized one stays open: no later pass reaches it, because every
   pass starts at or above the finalized epoch and stops there. Catching up does not happen.
   */
  lemma {:induction false} GapIsForever(states: seq<Store>, steps: seq<StoreStep>, j: nat, epoch: int, older: int)
    requires IsTrace(states, steps) && j < |states|
    requires epoch in states[0].snapshots && older !in states[0].snapshots && older < epoch
    requires forall step | step in steps && step.Pass? :: epoch <= step.newest
    ensures older !in states[j].snapshots
  {
    if j > 0 {
      GapIsForever(states, steps, j - 1, epoch, older);
      SnapshotsAreImmutable(states, steps, 0, j - 1, epoch);
      assert Follows(states[j - 1], steps[j - 1], states[j]);
      if steps[j - 1].Pass? {
        var p := steps[j - 1];
        assert p in steps;
        PassStopsAtSnapshot(states[j - 1], states[j], p.newest, p.maxPerPass, p.finalized, epoch, older);
      }
    }
  }

  /**
   The epochs a bounded pass defers are never finalized by later passes: when the walk is cut
   at `maxPerPass` with the next epoch due, that epoch is open in every later state.
   */
  lemma DeferredEpochIsNeverFinalized(states: seq<Store>, steps: seq<StoreStep>, newest: int, maxPerPass: int, j: nat)
    requires IsTrace(states, steps) && 1 <= j < |states| && 1 <= maxPerPass
    requires steps[0] == Pass(newest, maxPerPass, Descending(newest, maxPerPass)) && Due(states[0], newest - maxPerPass)
    requires forall step | step in steps && step.Pass? :: newest <= step.newest
    ensures newest in states[j].snapshots && newest - maxPerPass !in states[j].snapshots
  {
    var rest, after := states[1..], steps[1..];
    assert Follows(states[0], steps[0], states[1]);
    forall i | 0 <= i < |after|
      ensures Follows(rest[i], after[i], rest[i + 1])
    {
      assert Follows(states[i + 1], steps[i + 1], states[i + 2]);
    }
    assert forall step | step in after :: step in steps;
    GapIsForever(rest, after, j - 1, newest, newest - maxPerPass);
    SnapshotsAreImmutable(rest, after, 0, j - 1, newest);
  }

  /**
   Older epochs are all finalized after a pass exactly when none of them was left with rows and
   without a snapshot.
   */
  ghost predicate CaughtUp(s: Store, newest: int) {
    forall e | 0 <= e <= newest && RowsOf(s.requests, e) != [] :: e in s.snapshots
  }

  /**
   When a pass leaves nothing behind, seen from the store before it: every due epoch is within the
   bound of the newest closed one, and every epoch from there to the newest is due as well.
   */
  lemma CaughtUpExactly(s: Store, t: Store, newest: int, maxPerPass: int, finalized: seq<int>)
    requires IsPass(s, t, newest, maxPerPass, finalized)
    ensures CaughtUp(t, newest) <==>
            forall e | 0 <= e <= newest && Due(s, e) ::
              newest - e < maxPerPass && forall f | e <= f <= newest :: Due(s, f)
  {
    hide RowsOf, Finalizes;
    var n := |finalized|;
    if CaughtUp(t, newest) {
      forall e | 0 <= e <= newest && Due(s, e)
        ensures newest - e < maxPerPass && forall f | e <= f <= newest :: Due(s, f)
      {
        assert e in t.snapshots;
      }
    } else {
      var e :| 0 <= e <= newest && RowsOf(t.requests, e) != [] && e !in t.snapshots;
      assert Due(s, e) && e <= newest - n;
      assert n < maxPerPass ==> !Due(s, newest - n);
    }
  }

  /** Two closed epochs with one row each, and a bound of one: the older one is deferred and never comes. */
  lemma DeferralHappens(row: Row) returns (states: seq<Store>, steps: seq<StoreStep>)
    ensures IsTrace(states, steps) && |states| == 2
    ensures steps[0] == Pass(1, 1, Descending(1, 1)) && Due(states[0], 0)
    ensures !CaughtUp(states[1], 1)
  {
    hide IsAggregate;
    var before := Store([Stamped(Some(0), row), Stamped(Some(1), row)], map[], map[]);
    TwoEpochs(row, 0);
    TwoEpochs(row, 1);
    hide RowsOf;
    var entries := OneRowAggregate(row);
    var after := before.(snapshots := map[1 := Snapshot(1, 0, entries)]);
    states, steps := [before, after], [Pass(1, 1, Descending(1, 1))];
    assert Due(before, 0) && Due(before, 1);
    assert IsPass(before, after, 1, 1, Descending(1, 1));
  }

  lemma TwoEpochs(row: Row, epoch: int)
    requires epoch == 0 || epoch == 1
    ensures RowsOf([Stamped(Some(0), row), Stamped(Some(1), row)], epoch) == [row]
  {
    var requests := [Stamped(Some(0), row), Stamped(Some(1), row)];
    assert requests[..1] == [requests[0]] && [requests[0]][..0] == [];
    assert RowsOf([requests[0]], epoch) == RowsOf([], epoch) + if epoch == 0 then [row] else [];
    assert RowsOf(requests, epoch) == RowsOf([requests[0]], epoch) + if epoch == 1 then [row] else [];
  }

  lemma OneRowAggregate(row: Row) returns (entries: seq<Entry>)
    ensures IsAggregate([row], map[], entries)
  {
    var k := KeyOf(row);
    entries := [EntryOf(k, BucketOf(k, [row]), map[])];
    assert entries[0].key == k;
    assert forall r | r in [row] :: r == row;
    assert [row][0] == row && HasRows(k, [row]);
    assert forall r | r in [row] :: 0 <= 0 < |entries| && entries[0].key == KeyOf(r);
  }
}
