/** `percentile_ms`: the integer nearest-rank percentile that is signed into the epoch artifact. */
module Percentile {
  import opened Prelude

  predicate Ordered(s: seq<int>) {
    s != [] ==> (forall i | 0 < i < |s| :: s[0] <= s[i]) && Ordered(s[1..])
  }

  function Insert(v: int, s: seq<int>): (r: seq<int>)
    ensures |r| == |s| + 1
  {
    if s == [] || v <= s[0] then [v] + s else [s[0]] + Insert(v, s[1..])
  }

  /** Python's `sorted`. */
  function Sort(s: seq<int>): (r: seq<int>)
    ensures |r| == |s|
  {
    if s == [] then [] else Insert(s[0], Sort(s[1..]))
  }

  lemma {:induction false} InsertAdds(v: int, s: seq<int>)
    ensures multiset(Insert(v, s)) == multiset(s) + multiset{v}
  {
    if s != [] && v > s[0] {
      InsertAdds(v, s[1..]);
      assert s == [s[0]] + s[1..];
    }
  }

  lemma {:induction false} InsertSorts(v: int, s: seq<int>)
    requires Ordered(s)
    ensures Ordered(Insert(v, s))
  {
    if s == [] {
    } else if v <= s[0] {
      assert ([v] + s)[1..] == s;
    } else {
      var rest := Insert(v, s[1..]);
      InsertSorts(v, s[1..]);
      assert ([s[0]] + rest)[1..] == rest;
      forall i | 0 <= i < |rest|
        ensures s[0] <= rest[i]
      {
        InsertedAt(v, s[1..], i);
      }
    }
  }

  lemma {:induction false} InsertedAt(v: int, s: seq<int>, i: nat)
    requires i <= |s|
    ensures Insert(v, s)[i] == v || exists j :: 0 <= j < |s| && Insert(v, s)[i] == s[j]
  {
    InsertAdds(v, s);
    assert Insert(v, s)[i] in multiset(Insert(v, s));
    assert Insert(v, s)[i] == v || Insert(v, s)[i] in s;
  }

  lemma {:induction false} SortSorts(s: seq<int>)
    ensures Ordered(Sort(s)) && multiset(Sort(s)) == multiset(s)
  {
    if s != [] {
      SortSorts(s[1..]);
      InsertSorts(s[0], Sort(s[1..]));
      InsertAdds(s[0], Sort(s[1..]));
      assert s == [s[0]] + s[1..];
    }
  }

  lemma {:induction false} OrderedAt(s: seq<int>, i: nat, j: nat)
    requires Ordered(s) && i <= j < |s|
    ensures s[i] <= s[j]
  {
    if 0 < i {
      OrderedAt(s[1..], i - 1, j - 1);
    }
  }

  /** Nearest rank: ceil(percentile / 100 * n) - 1, clamped to the list. */
  function RankIndex(percentile: int, n: nat): (index: nat)
    requires 0 < n
    ensures index < n
  {
    var rank := (percentile * n + 99) / 100;
    Min(Max(rank - 1, 0), n - 1)
  }

  function PercentileMs(values: seq<int>, percentile: int): Option<int> {
    var ordered := Sort(values);
    if ordered == [] then None else Some(ordered[RankIndex(percentile, |ordered|)])
  }

  // ---- what the nearest rank is ----

  function CountAtMost(values: seq<int>, v: int): nat {
    if values == [] then 0 else (if values[0] <= v then 1 else 0) + CountAtMost(values[1..], v)
  }

  function CountBelow(values: seq<int>, v: int): nat {
    if values == [] then 0 else (if values[0] < v then 1 else 0) + CountBelow(values[1..], v)
  }

  /** The smallest member that at least `percentile` per cent of the values do not exceed. */
  predicate IsNearestRank(values: seq<int>, percentile: int, v: int) {
    && v in values
    && percentile * |values| <= 100 * CountAtMost(values, v)
    && 100 * CountBelow(values, v) < percentile * |values|
  }

  lemma {:induction false} InsertCounts(x: int, s: seq<int>, v: int)
    ensures CountAtMost(Insert(x, s), v) == CountAtMost(s, v) + if x <= v then 1 else 0
    ensures CountBelow(Insert(x, s), v) == CountBelow(s, v) + if x < v then 1 else 0
  {
    if s == [] || x <= s[0] {
      assert ([x] + s)[1..] == s;
    } else {
      InsertCounts(x, s[1..], v);
      assert ([s[0]] + Insert(x, s[1..]))[1..] == Insert(x, s[1..]);
    }
  }

  lemma {:induction false} SortCounts(s: seq<int>, v: int)
    ensures CountAtMost(Sort(s), v) == CountAtMost(s, v) && CountBelow(Sort(s), v) == CountBelow(s, v)
  {
    if s != [] {
      SortCounts(s[1..], v);
      InsertCounts(s[0], Sort(s[1..]), v);
    }
  }

  lemma {:induction false} OrderedCounts(s: seq<int>, i: nat)
    requires Ordered(s) && i < |s|
    ensures CountAtMost(s, s[i]) >= i + 1 && CountBelow(s, s[i]) <= i
  {
    if i > 0 {
      OrderedCounts(s[1..], i - 1);
    } else {
      NoneBelow(s, s[0]);
    }
  }

  lemma {:induction false} NoneBelow(s: seq<int>, v: int)
    requires forall i | 0 <= i < |s| :: v <= s[i]
    ensures CountBelow(s, v) == 0
  {
    if s != [] {
      NoneBelow(s[1..], v);
    }
  }

  lemma {:induction false} CountsOrder(s: seq<int>, v: int, w: int)
    requires v < w
    ensures CountAtMost(s, v) <= CountBelow(s, w)
  {
    if s != [] {
      CountsOrder(s[1..], v, w);
    }
  }

  /** The rank ceil(p n / 100) lies in 1 .. n, so neither clamp of the index applies. */
  lemma RankInRange(p: int, n: nat)
    requires 1 <= p <= 100 && 1 <= n
    ensures 100 * RankIndex(p, n) < p * n <= 100 * (RankIndex(p, n) + 1)
  {
    var m := p * n;
    assert m == n + (p - 1) * n >= n;
    assert m == 100 * n - (100 - p) * n <= 100 * n;
    assert 100 * ((m + 99) / 100 - 1) < m <= 100 * ((m + 99) / 100);
  }

  lemma PercentileHolds(values: seq<int>, percentile: int)
    requires 1 <= percentile <= 100 && values != []
    ensures PercentileMs(values, percentile).Some?
    ensures IsNearestRank(values, percentile, PercentileMs(values, percentile).value)
  {
    hide RankIndex;
    var r := PercentileMs(values, percentile).value;
    var ordered := Sort(values);
    RankInRange(percentile, |values|);
    SortSorts(values);
    OrderedCounts(ordered, RankIndex(percentile, |values|));
    SortCounts(values, r);
    assert r in multiset(ordered);
  }

  lemma NearestRankIsUnique(values: seq<int>, percentile: int, v: int, w: int)
    requires IsNearestRank(values, percentile, v) && IsNearestRank(values, percentile, w)
    ensures v == w
  {
    if v < w {
      CountsOrder(values, v, w);
    } else if w < v {
      CountsOrder(values, w, v);
    }
  }

  /** For 1 to 100 the percentile is the one value that is the nearest rank. */
  lemma PercentileIsNearestRank(values: seq<int>, percentile: int, v: int)
    requires 1 <= percentile <= 100
    ensures PercentileMs(values, percentile) == Some(v) <==> IsNearestRank(values, percentile, v)
    ensures PercentileMs(values, percentile) == None <==> values == []
  {
    hide PercentileMs;
    if values != [] {
      PercentileHolds(values, percentile);
      if IsNearestRank(values, percentile, v) {
        NearestRankIsUnique(values, percentile, v, PercentileMs(values, percentile).value);
      }
    } else {
      PercentileOfNothing(percentile);
    }
  }

  lemma PercentileOfNothing(percentile: int)
    ensures PercentileMs([], percentile) == None
  {
  }

  lemma CeilingIsMonotone(x: int, y: int)
    requires x <= y
    ensures (x + 99) / 100 <= (y + 99) / 100
  {
  }

  lemma ProductIsMonotone(p: int, q: int, n: nat)
    requires p <= q
    ensures p * n <= q * n
  {
    assert q * n - p * n == (q - p) * n;
  }

  lemma RankIsMonotone(p: int, q: int, n: nat)
    requires p <= q && 0 < n
    ensures RankIndex(p, n) <= RankIndex(q, n)
  {
    ProductIsMonotone(p, q, n);
    CeilingIsMonotone(p * n, q * n);
  }

  lemma PercentileIsMonotone(values: seq<int>, p: int, q: int)
    requires p <= q && values != []
    ensures PercentileMs(values, p).value <= PercentileMs(values, q).value
  {
    hide RankIndex;
    RankIsMonotone(p, q, |values|);
    SortSorts(values);
    OrderedAt(Sort(values), RankIndex(p, |values|), RankIndex(q, |values|));
  }

  /** The least value is first in both orders. */
  lemma HeadsAgree(s: seq<int>, t: seq<int>)
    requires s != [] && t != [] && Ordered(s) && Ordered(t) && multiset(s) == multiset(t)
    ensures s[0] == t[0]
  {
    assert s[0] in multiset(t) && t[0] in multiset(s);
    var i :| 0 <= i < |t| && t[i] == s[0];
    var j :| 0 <= j < |s| && s[j] == t[0];
  }

  lemma {:induction false} OrderedIsUnique(s: seq<int>, t: seq<int>)
    requires Ordered(s) && Ordered(t) && multiset(s) == multiset(t)
    ensures s == t
  {
    assert |s| == |multiset(s)| == |multiset(t)| == |t|;
    if s != [] {
      HeadsAgree(s, t);
      assert s == [s[0]] + s[1..] && t == [t[0]] + t[1..];
      assert multiset(s[1..]) == multiset(s) - multiset{s[0]};
      assert multiset(t[1..]) == multiset(t) - multiset{t[0]};
      OrderedIsUnique(s[1..], t[1..]);
    }
  }

  /** The percentile does not depend on the order of the values. */
  lemma PercentileIgnoresOrder(s: seq<int>, t: seq<int>, percentile: int)
    requires multiset(s) == multiset(t)
    ensures PercentileMs(s, percentile) == PercentileMs(t, percentile)
  {
    SortSorts(s);
    SortSorts(t);
    OrderedIsUnique(Sort(s), Sort(t));
  }
}
