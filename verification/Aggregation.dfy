/** `_aggregate`: one epoch's request rows folded into one entry per (hotkey, model, version). */
module Aggregation {
  import opened Prelude
  import opened Percentile

  /** A text as its code points, the order Python sorts it in. */
  type Name = seq<int>

  /** A row of `miner_request_stats`, as far as the aggregation reads it. */
  datatype Row = Row(
    hotkey: Name,
    model: Name,
    version: Option<Name>,
    node: Option<int>,
    success: bool,
    prompt: int,
    completion: int,
    total: int,
    verified: bool,
    latency: Option<int>)

  datatype Key = Key(hotkey: Name, model: Name, version: Name)

  datatype Bucket = Bucket(
    node: Option<int>,
    ok: int,
    failed: int,
    prompt: int,
    completion: int,
    total: int,
    verifiedPrompt: int,
    verifiedCompletion: int,
    verifiedTotal: int,
    latencies: seq<int>)

  /** The enclave's usage counter and chain head, published beside the sums. */
  datatype Anchor = Anchor(count: Option<int>, head: Option<Name>)

  /** A row of `miner_epoch_stats`. */
  datatype Entry = Entry(
    key: Key,
    node: Option<int>,
    ok: int,
    failed: int,
    prompt: int,
    completion: int,
    total: int,
    verifiedPrompt: int,
    verifiedCompletion: int,
    verifiedTotal: int,
    p50: Option<int>,
    p95: Option<int>,
    anchor: Anchor)

  function KeyOf(r: Row): Key {
    Key(r.hotkey, r.model, r.version.GetOr([]))
  }

  // ---- the declarative fold ----

  datatype Measure = Ok | Failed | Prompt | Completion | Tokens | VerifiedPrompt | VerifiedCompletion | VerifiedTokens

  function Amount(m: Measure, r: Row): int {
    match m
    case Ok => if r.success then 1 else 0
    case Failed => if r.success then 0 else 1
    case Prompt => if r.success then r.prompt else 0
    case Completion => if r.success then r.completion else 0
    case Tokens => if r.success then r.total else 0
    case VerifiedPrompt => if r.success && r.verified then r.prompt else 0
    case VerifiedCompletion => if r.success && r.verified then r.completion else 0
    case VerifiedTokens => if r.success && r.verified then r.total else 0
  }

  function Share(m: Measure, k: Key, r: Row): int {
    if KeyOf(r) == k then Amount(m, r) else 0
  }

  function Sum(m: Measure, k: Key, rows: seq<Row>): int {
    if rows == [] then 0 else Sum(m, k, rows[..|rows| - 1]) + Share(m, k, rows[|rows| - 1])
  }

  /** Latencies of served requests only. */
  function LatencyOf(k: Key, r: Row): seq<int> {
    if KeyOf(r) == k && r.success && r.latency.Some? then [r.latency.value] else []
  }

  function Latencies(k: Key, rows: seq<Row>): seq<int> {
    if rows == [] then [] else Latencies(k, rows[..|rows| - 1]) + LatencyOf(k, rows[|rows| - 1])
  }

  /** The node id of the first row of the key that has one. */
  function FirstNode(k: Key, rows: seq<Row>): Option<int> {
    if rows == [] then None
    else
      var earlier := FirstNode(k, rows[..|rows| - 1]);
      if earlier.Some? then earlier
      else if KeyOf(rows[|rows| - 1]) == k then rows[|rows| - 1].node
      else None
  }

  function BucketOf(k: Key, rows: seq<Row>): Bucket {
    Bucket(FirstNode(k, rows), Sum(Ok, k, rows), Sum(Failed, k, rows),
           Sum(Prompt, k, rows), Sum(Completion, k, rows), Sum(Tokens, k, rows),
           Sum(VerifiedPrompt, k, rows), Sum(VerifiedCompletion, k, rows), Sum(VerifiedTokens, k, rows),
           Latencies(k, rows))
  }

  function EntryOf(k: Key, b: Bucket, anchors: map<(Name, Name), Anchor>): Entry {
    Entry(k, b.node, b.ok, b.failed, b.prompt, b.completion, b.total,
          b.verifiedPrompt, b.verifiedCompletion, b.verifiedTotal,
          PercentileMs(b.latencies, 50), PercentileMs(b.latencies, 95),
          if (k.hotkey, k.model) in anchors then anchors[(k.hotkey, k.model)] else Anchor(None, None))
  }

  // ---- the order of the keys ----

  predicate KeyBefore(a: Key, b: Key) {
    || Before(a.hotkey, b.hotkey)
    || (a.hotkey == b.hotkey && Before(a.model, b.model))
    || (a.hotkey == b.hotkey && a.model == b.model && Before(a.version, b.version))
  }

  lemma KeyOrderIsTotal(a: Key, b: Key)
    ensures a == b || KeyBefore(a, b) || KeyBefore(b, a)
    ensures !(KeyBefore(a, b) && KeyBefore(b, a)) && !KeyBefore(a, a)
  {
    OrderIsTotal(a.hotkey, b.hotkey);
    OrderIsTotal(a.model, b.model);
    OrderIsTotal(a.version, b.version);
  }

  lemma KeyOrderIsTransitive(a: Key, b: Key, c: Key)
    requires KeyBefore(a, b) && KeyBefore(b, c)
    ensures KeyBefore(a, c)
  {
    if Before(a.hotkey, b.hotkey) && Before(b.hotkey, c.hotkey) {
      OrderIsTransitive(a.hotkey, b.hotkey, c.hotkey);
    } else if a.hotkey == b.hotkey == c.hotkey {
      if Before(a.model, b.model) && Before(b.model, c.model) {
        OrderIsTransitive(a.model, b.model, c.model);
      } else if a.model == b.model == c.model {
        OrderIsTransitive(a.version, b.version, c.version);
      }
    }
  }

  predicate Increasing(keys: seq<Key>) {
    forall i, j | 0 <= i < j < |keys| :: KeyBefore(keys[i], keys[j])
  }

  function InsertKey(k: Key, keys: seq<Key>): seq<Key> {
    if keys == [] || KeyBefore(k, keys[0]) then [k] + keys else [keys[0]] + InsertKey(k, keys[1..])
  }

  function SortKeys(keys: seq<Key>): seq<Key> {
    if keys == [] then [] else InsertKey(keys[0], SortKeys(keys[1..]))
  }

  lemma {:induction false} InsertKeyKeeps(k: Key, keys: seq<Key>)
    requires Increasing(keys) && k !in keys
    ensures Increasing(InsertKey(k, keys))
    ensures forall x :: x in InsertKey(k, keys) <==> x == k || x in keys
  {
    if keys == [] {
    } else if KeyBefore(k, keys[0]) {
      forall j | 0 <= j < |keys|
        ensures KeyBefore(k, keys[j])
      {
        if j > 0 {
          KeyOrderIsTransitive(k, keys[0], keys[j]);
        }
      }
    } else {
      KeyOrderIsTotal(k, keys[0]);
      InsertKeyKeeps(k, keys[1..]);
      var rest := InsertKey(k, keys[1..]);
      forall j | 0 <= j < |rest|
        ensures KeyBefore(keys[0], rest[j])
      {
        assert rest[j] in rest;
      }
    }
  }

  lemma {:induction false} SortKeysSorts(keys: seq<Key>)
    requires forall i, j | 0 <= i < j < |keys| :: keys[i] != keys[j]
    ensures Increasing(SortKeys(keys))
    ensures forall x :: x in SortKeys(keys) <==> x in keys
  {
    if keys != [] {
      SortKeysSorts(keys[1..]);
      InsertKeyKeeps(keys[0], SortKeys(keys[1..]));
    }
  }

  // ---- the aggregation ----

  /** The published entries: strictly increasing keys, one for each key among the rows, each the fold of its rows. */
  ghost predicate IsAggregate(rows: seq<Row>, anchors: map<(Name, Name), Anchor>, entries: seq<Entry>) {
    && (forall i, j | 0 <= i < j < |entries| :: KeyBefore(entries[i].key, entries[j].key))
    && (forall i | 0 <= i < |entries| :: HasRows(entries[i].key, rows))
    && (forall i | 0 <= i < |entries| :: entries[i] == EntryOf(entries[i].key, BucketOf(entries[i].key, rows), anchors))
    && (forall r | r in rows :: exists i :: 0 <= i < |entries| && entries[i].key == KeyOf(r))
  }

  ghost predicate HasRows(k: Key, rows: seq<Row>) {
    exists r :: r in rows && KeyOf(r) == k
  }

  /** The bucket of a key without rows. */
  lemma {:induction false} NoRowsNoBucket(k: Key, rows: seq<Row>)
    requires forall r | r in rows :: KeyOf(r) != k
    ensures BucketOf(k, rows) == Bucket(None, 0, 0, 0, 0, 0, 0, 0, 0, [])
  {
    if rows != [] {
      NoRowsNoBucket(k, rows[..|rows| - 1]);
    }
  }

  /** A bucket and one more row of its key. */
  function Extended(b: Bucket, r: Row): Bucket {
    Bucket(if b.node.None? then r.node else b.node, b.ok + Amount(Ok, r), b.failed + Amount(Failed, r),
           b.prompt + Amount(Prompt, r), b.completion + Amount(Completion, r), b.total + Amount(Tokens, r),
           b.verifiedPrompt + Amount(VerifiedPrompt, r), b.verifiedCompletion + Amount(VerifiedCompletion, r),
           b.verifiedTotal + Amount(VerifiedTokens, r), b.latencies + LatencyOf(KeyOf(r), r))
  }

  lemma BucketExtends(k: Key, rows: seq<Row>, r: Row)
    ensures BucketOf(k, rows + [r]) == if KeyOf(r) == k then Extended(BucketOf(k, rows), r) else BucketOf(k, rows)
  {
    assert (rows + [r])[..|rows|] == rows;
  }

  lemma HasRowsExtends(k: Key, rows: seq<Row>, r: Row)
    ensures HasRows(k, rows + [r]) <==> HasRows(k, rows) || KeyOf(r) == k
  {
    assert r in rows + [r];
    assert forall x :: x in rows + [r] <==> x in rows || x == r;
  }

  /** What one row does to its bucket: the body of the loop. */
  method AddRow(bucket: Bucket, row: Row) returns (b: Bucket)
    ensures b == Extended(bucket, row)
  {
    b := bucket;
    if b.node.None? && row.node.Some? {
      b := b.(node := row.node);
    }
    if row.success {
      b := b.(ok := b.ok + 1, prompt := b.prompt + row.prompt, completion := b.completion + row.completion,
              total := b.total + row.total);
      if row.verified {
        b := b.(verifiedPrompt := b.verifiedPrompt + row.prompt,
                verifiedCompletion := b.verifiedCompletion + row.completion,
                verifiedTotal := b.verifiedTotal + row.total);
      }
    } else {
      b := b.(failed := b.failed + 1);
    }
    if row.success && row.latency.Some? {
      b := b.(latencies := b.latencies + [row.latency.value]);
    }
  }

  /** The dictionary is what the first rows make it: one bucket for each of their keys, in order of appearance. */
  ghost predicate Filled(rows: seq<Row>, order: seq<Key>, buckets: map<Key, Bucket>) {
    && (forall i, j | 0 <= i < j < |order| :: order[i] != order[j])
    && (forall k :: k in order <==> k in buckets)
    && (forall k :: k in buckets <==> HasRows(k, rows))
    && (forall k | k in buckets :: buckets[k] == BucketOf(k, rows))
  }

  lemma FilledExtends(rows: seq<Row>, r: Row, order: seq<Key>, buckets: map<Key, Bucket>,
                      order': seq<Key>, buckets': map<Key, Bucket>)
    requires Filled(rows, order, buckets)
    requires order' == if KeyOf(r) in buckets then order else order + [KeyOf(r)]
    requires var before := if KeyOf(r) in buckets then buckets[KeyOf(r)] else BucketOf(KeyOf(r), rows);
             buckets' == buckets[KeyOf(r) := Extended(before, r)]
    ensures Filled(rows + [r], order', buckets')
  {
    hide BucketOf, Extended, HasRows;
    forall k
      ensures k in buckets' <==> HasRows(k, rows + [r])
      ensures k in buckets' ==> buckets'[k] == BucketOf(k, rows + [r])
    {
      HasRowsExtends(k, rows, r);
      BucketExtends(k, rows, r);
    }
  }

  /** The first pass: a dictionary of buckets in order of first appearance. */
  method FillBuckets(rows: seq<Row>) returns (order: seq<Key>, buckets: map<Key, Bucket>)
    ensures Filled(rows, order, buckets)
  {
    hide BucketOf, Extended, Filled;
    order, buckets := [], map[];
    FilledAtStart();
    for i := 0 to |rows|
      invariant Filled(rows[..i], order, buckets)
    {
      var key := KeyOf(rows[i]);
      ghost var order0, buckets0 := order, buckets;
      if key !in buckets {
        MissingBucketIsEmpty(rows[..i], order, buckets, key);
        order := order + [key];
        buckets := buckets[key := Bucket(None, 0, 0, 0, 0, 0, 0, 0, 0, [])];
      }
      var b := AddRow(buckets[key], rows[i]);
      buckets := buckets[key := b];
      FilledExtends(rows[..i], rows[i], order0, buckets0, order, buckets);
      assert rows[..i + 1] == rows[..i] + [rows[i]];
    }
    assert rows[..|rows|] == rows;
  }

  lemma FilledAtStart()
    ensures Filled([], [], map[])
  {
  }

  lemma MissingBucketIsEmpty(rows: seq<Row>, order: seq<Key>, buckets: map<Key, Bucket>, k: Key)
    requires Filled(rows, order, buckets) && k !in buckets
    ensures BucketOf(k, rows) == Bucket(None, 0, 0, 0, 0, 0, 0, 0, 0, [])
  {
    assert !HasRows(k, rows);
    NoRowsNoBucket(k, rows);
  }

  /** `_aggregate` on the rows of one epoch. */
  method Aggregate(rows: seq<Row>, anchors: map<(Name, Name), Anchor>) returns (entries: seq<Entry>)
    ensures IsAggregate(rows, anchors, entries)
  {
    hide BucketOf, EntryOf;
    var order, buckets := FillBuckets(rows);
    var keys := SortKeys(order);
    SortKeysSorts(order);
    entries := [];
    for i := 0 to |keys|
      invariant |entries| == i
      invariant forall j | 0 <= j < i :: entries[j] == EntryOf(keys[j], buckets[keys[j]], anchors)
    {
      assert keys[i] in keys;
      entries := entries + [EntryOf(keys[i], buckets[keys[i]], anchors)];
    }
    EntriesAreAggregate(rows, anchors, order, buckets, keys, entries);
  }

  lemma EntriesAreAggregate(rows: seq<Row>, anchors: map<(Name, Name), Anchor>, order: seq<Key>,
                            buckets: map<Key, Bucket>,
                            keys: seq<Key>, entries: seq<Entry>)
    requires Filled(rows, order, buckets) && Increasing(keys) && (forall k :: k in keys <==> k in order)
    requires |entries| == |keys|
    requires forall j | 0 <= j < |keys| ::
               keys[j] in buckets && entries[j] == EntryOf(keys[j], buckets[keys[j]], anchors)
    ensures IsAggregate(rows, anchors, entries)
  {
    hide BucketOf;
    assert forall j | 0 <= j < |keys| :: entries[j].key == keys[j];
    forall r | r in rows
      ensures exists i :: 0 <= i < |entries| && entries[i].key == KeyOf(r)
    {
      assert HasRows(KeyOf(r), rows);
      assert KeyOf(r) in keys;
      var i :| 0 <= i < |keys| && keys[i] == KeyOf(r);
      assert entries[i].key == KeyOf(r);
    }
  }

  // ---- what the aggregate promises ----

  /** Corroborated tokens never exceed the tokens served. */
  lemma {:induction false} VerifiedWithinTotal(k: Key, rows: seq<Row>)
    requires forall r | r in rows :: 0 <= r.prompt && 0 <= r.completion && 0 <= r.total
    ensures 0 <= Sum(VerifiedPrompt, k, rows) <= Sum(Prompt, k, rows)
    ensures 0 <= Sum(VerifiedCompletion, k, rows) <= Sum(Completion, k, rows)
    ensures 0 <= Sum(VerifiedTokens, k, rows) <= Sum(Tokens, k, rows)
  {
    if rows != [] {
      VerifiedWithinTotal(k, rows[..|rows| - 1]);
    }
  }

  /** Requests counted over a list of keys. */
  function Requests(keys: seq<Key>, rows: seq<Row>): int {
    if keys == [] then 0
    else Requests(keys[..|keys| - 1], rows) + Sum(Ok, keys[|keys| - 1], rows) + Sum(Failed, keys[|keys| - 1], rows)
  }

  function CountedIn(entries: seq<Entry>): int {
    if entries == [] then 0
    else CountedIn(entries[..|entries| - 1]) + entries[|entries| - 1].ok + entries[|entries| - 1].failed
  }

  /** A further row adds one request to the one key it belongs to. */
  lemma {:induction false} RequestsExtend(keys: seq<Key>, rows: seq<Row>, r: Row)
    requires forall i, j | 0 <= i < j < |keys| :: keys[i] != keys[j]
    ensures Requests(keys, rows + [r]) == Requests(keys, rows) + if KeyOf(r) in keys then 1 else 0
  {
    if keys != [] {
      var last := |keys| - 1;
      RequestsExtend(keys[..last], rows, r);
      BucketExtends(keys[last], rows, r);
      assert KeyOf(r) in keys <==> KeyOf(r) in keys[..last] || KeyOf(r) == keys[last];
    }
  }

  lemma {:induction false} NoRowsNoRequests(keys: seq<Key>)
    ensures Requests(keys, []) == 0
  {
    if keys != [] {
      NoRowsNoRequests(keys[..|keys| - 1]);
    }
  }

  lemma {:induction false} RequestsAreRows(keys: seq<Key>, rows: seq<Row>)
    requires forall i, j | 0 <= i < j < |keys| :: keys[i] != keys[j]
    requires forall r | r in rows :: KeyOf(r) in keys
    ensures Requests(keys, rows) == |rows|
  {
    if rows == [] {
      NoRowsNoRequests(keys);
    } else {
      var last := |rows| - 1;
      RequestsAreRows(keys, rows[..last]);
      RequestsExtend(keys, rows[..last], rows[last]);
      assert rows[..last] + [rows[last]] == rows;
    }
  }

  function KeysOf(entries: seq<Entry>): (keys: seq<Key>)
    ensures |keys| == |entries| && forall i | 0 <= i < |keys| :: keys[i] == entries[i].key
  {
    seq(|entries|, i requires 0 <= i < |entries| => entries[i].key)
  }

  lemma {:induction false} CountedAreRequests(entries: seq<Entry>, rows: seq<Row>)
    requires forall i | 0 <= i < |entries| ::
               entries[i].ok == Sum(Ok, entries[i].key, rows) && entries[i].failed == Sum(Failed, entries[i].key, rows)
    ensures CountedIn(entries) == Requests(KeysOf(entries), rows)
  {
    if entries != [] {
      var last := |entries| - 1;
      CountedAreRequests(entries[..last], rows);
      assert KeysOf(entries)[..last] == KeysOf(entries[..last]);
    }
  }

  /** No request is lost or counted twice: successes and failures over all entries add up to the rows. */
  lemma AggregateConservesRequests(rows: seq<Row>, anchors: map<(Name, Name), Anchor>, entries: seq<Entry>)
    requires IsAggregate(rows, anchors, entries)
    ensures CountedIn(entries) == |rows|
  {
    var keys := KeysOf(entries);
    forall i, j | 0 <= i < j < |keys|
      ensures keys[i] != keys[j]
    {
      KeyOrderIsTotal(keys[i], keys[j]);
    }
    forall r | r in rows
      ensures KeyOf(r) in keys
    {
      var i :| 0 <= i < |entries| && entries[i].key == KeyOf(r);
      assert keys[i] == KeyOf(r);
    }
    CountedAreRequests(entries, rows);
    RequestsAreRows(keys, rows);
  }

  // ---- the order of the rows ----

  lemma {:induction false} SumWithout(m: Measure, k: Key, rows: seq<Row>, i: nat)
    requires i < |rows|
    ensures Sum(m, k, rows) == Sum(m, k, Without(rows, i)) + Share(m, k, rows[i])
  {
    var last := |rows| - 1;
    if i < last {
      SumWithout(m, k, rows[..last], i);
      assert Without(rows, i)[..last - 1] == Without(rows[..last], i);
    } else {
      assert Without(rows, i) == rows[..last];
    }
  }

  lemma {:induction false} LatenciesWithout(k: Key, rows: seq<Row>, i: nat)
    requires i < |rows|
    ensures multiset(Latencies(k, rows)) == multiset(Latencies(k, Without(rows, i))) + multiset(LatencyOf(k, rows[i]))
  {
    hide LatencyOf;
    var last := |rows| - 1;
    if i < last {
      var rest := Without(rows[..last], i);
      LatenciesWithout(k, rows[..last], i);
      assert Without(rows, i)[..last - 1] == rest && Without(rows, i)[last - 1] == rows[last];
      assert Latencies(k, rows) == Latencies(k, rows[..last]) + LatencyOf(k, rows[last]);
      assert Latencies(k, Without(rows, i)) == Latencies(k, rest) + LatencyOf(k, rows[last]);
    } else {
      assert Without(rows, i) == rows[..last];
    }
  }

  lemma {:induction false} SumIgnoresOrder(m: Measure, k: Key, s: seq<Row>, t: seq<Row>)
    requires multiset(s) == multiset(t)
    ensures Sum(m, k, s) == Sum(m, k, t)
    decreases |s|
  {
    SameLength(s, t);
    if s != [] {
      var i := FindIn(s, |s| - 1, t);
      SumIgnoresOrder(m, k, Without(s, |s| - 1), Without(t, i));
      SumWithout(m, k, s, |s| - 1);
      SumWithout(m, k, t, i);
    }
  }

  lemma {:induction false} LatenciesIgnoreOrder(k: Key, s: seq<Row>, t: seq<Row>)
    requires multiset(s) == multiset(t)
    ensures multiset(Latencies(k, s)) == multiset(Latencies(k, t))
    decreases |s|
  {
    SameLength(s, t);
    if s != [] {
      var i := FindIn(s, |s| - 1, t);
      LatenciesIgnoreOrder(k, Without(s, |s| - 1), Without(t, i));
      LatenciesWithout(k, s, |s| - 1);
      LatenciesWithout(k, t, i);
    }
  }

  /** An entry but for its node id. */
  function Unplaced(e: Entry): Entry {
    e.(node := None)
  }

  lemma EntryIgnoresOrder(k: Key, s: seq<Row>, t: seq<Row>, anchors: map<(Name, Name), Anchor>)
    requires multiset(s) == multiset(t)
    ensures Unplaced(EntryOf(k, BucketOf(k, s), anchors)) == Unplaced(EntryOf(k, BucketOf(k, t), anchors))
  {
    SumIgnoresOrder(Ok, k, s, t);
    SumIgnoresOrder(Failed, k, s, t);
    SumIgnoresOrder(Prompt, k, s, t);
    SumIgnoresOrder(Completion, k, s, t);
    SumIgnoresOrder(Tokens, k, s, t);
    SumIgnoresOrder(VerifiedPrompt, k, s, t);
    SumIgnoresOrder(VerifiedCompletion, k, s, t);
    SumIgnoresOrder(VerifiedTokens, k, s, t);
    LatenciesIgnoreOrder(k, s, t);
    PercentileIgnoresOrder(Latencies(k, s), Latencies(k, t), 50);
    PercentileIgnoresOrder(Latencies(k, s), Latencies(k, t), 95);
  }

  lemma HeadIsMember(keys: seq<Key>)
    requires keys != []
    ensures exists k :: k in keys
  {
    assert keys[0] in keys;
  }

  /** A strictly increasing list is determined by its elements. */
  lemma {:induction false} IncreasingIsUnique(a: seq<Key>, b: seq<Key>)
    requires Increasing(a) && Increasing(b) && forall k :: k in a <==> k in b
    ensures a == b
  {
    if a == [] {
      if b != [] {
        HeadIsMember(b);
        assert false;
      }
    } else {
      assert a[0] in b;
      assert b[0] in a;
      KeyOrderIsTotal(a[0], b[0]);
      assert a[0] == b[0];
      forall k
        ensures k in a[1..] <==> k in b[1..]
      {
        KeyOrderIsTotal(a[0], a[0]);
        assert k in a <==> k == a[0] || k in a[1..];
        assert k in b <==> k == b[0] || k in b[1..];
      }
      IncreasingIsUnique(a[1..], b[1..]);
    }
  }

  lemma HasRowsIgnoresOrder(k: Key, s: seq<Row>, t: seq<Row>)
    requires multiset(s) == multiset(t) && HasRows(k, s)
    ensures HasRows(k, t)
  {
    var r :| r in s && KeyOf(r) == k;
    assert r in multiset(t);
  }

  /** Two validators that read the rows in different orders publish the same entries, node ids aside. */
  lemma AggregateIgnoresOrder(s: seq<Row>, t: seq<Row>, anchors: map<(Name, Name), Anchor>,
                             a: seq<Entry>, b: seq<Entry>)
    requires multiset(s) == multiset(t) && IsAggregate(s, anchors, a) && IsAggregate(t, anchors, b)
    ensures |a| == |b| && forall i | 0 <= i < |a| :: Unplaced(a[i]) == Unplaced(b[i])
  {
    hide BucketOf, EntryOf, Unplaced;
    forall k
      ensures k in KeysOf(a) <==> k in KeysOf(b)
    {
      KeysAreThoseWithRows(s, anchors, a, k);
      KeysAreThoseWithRows(t, anchors, b, k);
      if HasRows(k, s) { HasRowsIgnoresOrder(k, s, t); }
      if HasRows(k, t) { HasRowsIgnoresOrder(k, t, s); }
    }
    IncreasingIsUnique(KeysOf(a), KeysOf(b));
    assert |a| == |KeysOf(a)| == |KeysOf(b)| == |b|;
    forall i | 0 <= i < |a|
      ensures Unplaced(a[i]) == Unplaced(b[i])
    {
      assert a[i].key == KeysOf(a)[i] == KeysOf(b)[i] == b[i].key;
      EntryIgnoresOrder(a[i].key, s, t, anchors);
    }
  }

  lemma KeysAreThoseWithRows(rows: seq<Row>, anchors: map<(Name, Name), Anchor>, entries: seq<Entry>, k: Key)
    requires IsAggregate(rows, anchors, entries)
    ensures k in KeysOf(entries) <==> HasRows(k, rows)
  {
    hide BucketOf, EntryOf;
    if HasRows(k, rows) {
      var r :| r in rows && KeyOf(r) == k;
      var i :| 0 <= i < |entries| && entries[i].key == KeyOf(r);
      assert KeysOf(entries)[i] == k;
    }
  }

  // ---- the node id ----

  /** All rows of the key that name a node name the same one. */
  ghost predicate NodesAgree(k: Key, rows: seq<Row>) {
    forall q, r | q in rows && r in rows && Places(q, k) && Places(r, k) :: q.node == r.node
  }

  predicate Places(r: Row, k: Key) {
    KeyOf(r) == k && r.node.Some?
  }

  lemma {:induction false} FirstNodeIsSome(k: Key, rows: seq<Row>)
    ensures FirstNode(k, rows).Some? ==> exists r :: r in rows && Places(r, k) && r.node == FirstNode(k, rows)
    ensures FirstNode(k, rows).None? ==> forall r | r in rows :: !Places(r, k)
  {
    if rows != [] {
      var last := |rows| - 1;
      FirstNodeIsSome(k, rows[..last]);
      assert forall r | r in rows :: r in rows[..last] || r == rows[last];
    }
  }

  lemma {:induction false} FirstRowPlaces(k: Key, r: Row, rows: seq<Row>)
    requires Places(r, k)
    ensures FirstNode(k, [r] + rows) == r.node
  {
    if rows != [] {
      var last := |rows| - 1;
      FirstRowPlaces(k, r, rows[..last]);
      assert ([r] + rows)[..last + 1] == [r] + rows[..last];
    } else {
      assert ([r] + rows)[..0] == [];
    }
  }

  lemma SameRows(s: seq<Row>, t: seq<Row>)
    requires multiset(s) == multiset(t)
    ensures forall r :: r in s <==> r in t
  {
    forall r
      ensures r in s <==> r in t
    {
      assert r in multiset(s) <==> r in multiset(t);
    }
  }

  lemma ToFront(rows: seq<Row>, r: Row) returns (t: seq<Row>)
    requires r in rows
    ensures multiset([r] + t) == multiset(rows)
  {
    var i :| 0 <= i < |rows| && rows[i] == r;
    t := Without(rows, i);
    MultisetWithout(rows, i);
  }

  lemma AgreeingNodes(k: Key, s: seq<Row>, t: seq<Row>)
    requires multiset(s) == multiset(t) && NodesAgree(k, t)
    ensures FirstNode(k, s) == FirstNode(k, t)
  {
    hide FirstNode, Places;
    FirstNodeIsSome(k, s);
    FirstNodeIsSome(k, t);
    SameRows(s, t);
  }

  lemma QuarrellingNodes(k: Key, rows: seq<Row>)
    requires !NodesAgree(k, rows)
    ensures exists s, t ::
              multiset(s) == multiset(rows) && multiset(t) == multiset(rows) && FirstNode(k, s) != FirstNode(k, t)
  {
    hide FirstNode, Places;
    var q, r :| q in rows && r in rows && Places(q, k) && Places(r, k) && q.node != r.node;
    var s := ToFront(rows, q);
    var t := ToFront(rows, r);
    FirstRowPlaces(k, q, s);
    FirstRowPlaces(k, r, t);
    assert multiset([q] + s) == multiset(rows) && multiset([r] + t) == multiset(rows);
  }

  /** The published node id is independent of the order of the rows exactly when the rows of the key agree on it. */
  lemma NodeOrderExact(k: Key, rows: seq<Row>)
    ensures (forall t | multiset(t) == multiset(rows) :: FirstNode(k, t) == FirstNode(k, rows)) <==> NodesAgree(k, rows)
  {
    hide FirstNode, NodesAgree;
    if NodesAgree(k, rows) {
      forall t | multiset(t) == multiset(rows)
        ensures FirstNode(k, t) == FirstNode(k, rows)
      {
        AgreeingNodes(k, t, rows);
      }
    } else {
      QuarrellingNodes(k, rows);
    }
  }

  // ---- the published fields ----

  /** What one more row adds to the sums and latencies of its own key, and to those of every other. */
  lemma RowCounts(k: Key, rows: seq<Row>, r: Row)
    ensures var own := k.hotkey == r.hotkey && k.model == r.model
              && k.version == (if r.version.Some? then r.version.value else []);
            var served, verified := own && r.success, own && r.success && r.verified;
            var more := rows + [r];
            && Sum(Ok, k, more) == Sum(Ok, k, rows) + (if served then 1 else 0)
            && Sum(Failed, k, more) == Sum(Failed, k, rows) + (if own && !r.success then 1 else 0)
            && Sum(Prompt, k, more) == Sum(Prompt, k, rows) + (if served then r.prompt else 0)
            && Sum(Completion, k, more) == Sum(Completion, k, rows) + (if served then r.completion else 0)
            && Sum(Tokens, k, more) == Sum(Tokens, k, rows) + (if served then r.total else 0)
            && Sum(VerifiedPrompt, k, more) == Sum(VerifiedPrompt, k, rows) + (if verified then r.prompt else 0)
            && Sum(VerifiedCompletion, k, more)
               == Sum(VerifiedCompletion, k, rows) + (if verified then r.completion else 0)
            && Sum(VerifiedTokens, k, more) == Sum(VerifiedTokens, k, rows) + (if verified then r.total else 0)
            && Latencies(k, more)
               == Latencies(k, rows) + (if served && r.latency.Some? then [r.latency.value] else [])
  {
    assert (rows + [r])[..|rows|] == rows;
  }

  /** The entry's percentiles are nearest ranks of the latencies its key was served with. */
  predicate HasPercentiles(e: Entry, latencies: seq<int>) {
    if latencies == [] then e.p50.None? && e.p95.None?
    else
      && e.p50.Some? && IsNearestRank(latencies, 50, e.p50.value)
      && e.p95.Some? && IsNearestRank(latencies, 95, e.p95.value)
      && e.p50.value <= e.p95.value
  }

  /** What each published entry says, field by field. */
  lemma EntryFieldsExact(rows: seq<Row>, anchors: map<(Name, Name), Anchor>, entries: seq<Entry>, i: nat)
    requires IsAggregate(rows, anchors, entries) && i < |entries|
    ensures var e := entries[i];
            var k := e.key;
            && e.ok == Sum(Ok, k, rows) && e.failed == Sum(Failed, k, rows)
            && e.prompt == Sum(Prompt, k, rows) && e.completion == Sum(Completion, k, rows)
            && e.total == Sum(Tokens, k, rows)
            && e.verifiedPrompt == Sum(VerifiedPrompt, k, rows)
            && e.verifiedCompletion == Sum(VerifiedCompletion, k, rows)
            && e.verifiedTotal == Sum(VerifiedTokens, k, rows)
            && HasPercentiles(e, Latencies(k, rows))
            && e.anchor
               == (if (k.hotkey, k.model) in anchors then anchors[(k.hotkey, k.model)] else Anchor(None, None))
    // the node id is that of the first row of the key that has one
    ensures entries[i].node.None? <==>
            forall r | r in rows && KeyOf(r) == entries[i].key :: r.node.None?
    ensures entries[i].node.Some? ==>
              exists j :: 0 <= j < |rows| && KeyOf(rows[j]) == entries[i].key && rows[j].node == entries[i].node
                          && forall h | 0 <= h < j && KeyOf(rows[h]) == entries[i].key :: rows[h].node.None?
  {
    hide Sum, IsNearestRank;
    var e := entries[i];
    var latencies := Latencies(e.key, rows);
    if latencies == [] {
      PercentileOfNothing(50);
      PercentileOfNothing(95);
    } else {
      PercentileHolds(latencies, 50);
      PercentileHolds(latencies, 95);
      PercentileIsMonotone(latencies, 50, 95);
    }
    FirstNodeIsFirst(e.key, rows);
  }

  lemma FirstNodeIsFirst(k: Key, rows: seq<Row>)
    ensures FirstNode(k, rows).None? <==> forall r | r in rows && KeyOf(r) == k :: r.node.None?
    ensures FirstNode(k, rows).Some? ==>
              exists j :: 0 <= j < |rows| && KeyOf(rows[j]) == k && rows[j].node == FirstNode(k, rows)
                          && forall h | 0 <= h < j && KeyOf(rows[h]) == k :: rows[h].node.None?
  {
    hide FirstNode;
    FirstNodeIsSome(k, rows);
    if FirstNode(k, rows).Some? {
      var j := FirstNodeAt(k, rows);
    }
  }

  /** Where the first row of the key that has a node id stands. */
  lemma {:induction false} FirstNodeAt(k: Key, rows: seq<Row>) returns (j: nat)
    requires FirstNode(k, rows).Some?
    ensures j < |rows| && KeyOf(rows[j]) == k && rows[j].node == FirstNode(k, rows)
    ensures forall h | 0 <= h < j && KeyOf(rows[h]) == k :: rows[h].node.None?
  {
    var last := |rows| - 1;
    if FirstNode(k, rows[..last]).Some? {
      j := FirstNodeAt(k, rows[..last]);
    } else {
      j := last;
      FirstNodeIsSome(k, rows[..last]);
      forall h | 0 <= h < last && KeyOf(rows[h]) == k
        ensures rows[h].node.None?
      {
        assert rows[h] in rows[..last];
      }
    }
  }

  /** The entries stand in the order of hotkey, then model, then version. */
  lemma EntriesInOrder(rows: seq<Row>, anchors: map<(Name, Name), Anchor>, entries: seq<Entry>, i: nat, j: nat)
    requires IsAggregate(rows, anchors, entries) && i < j < |entries|
    ensures var a, b := entries[i].key, entries[j].key;
            if a.hotkey != b.hotkey then Before(a.hotkey, b.hotkey)
            else if a.model != b.model then Before(a.model, b.model)
            else Before(a.version, b.version)
  {
    var a, b := entries[i].key, entries[j].key;
    OrderIsTotal(a.hotkey, b.hotkey);
    OrderIsTotal(a.model, b.model);
  }
}
