module Prelude {
  datatype Option<+T> = None | Some(value: T) {
    function GetOr(default: T): T {
      if Some? then value else default
    }
  }

  function Min(a: int, b: int): int {
    if a <= b then a else b
  }

  function Max(a: int, b: int): int {
    if a <= b then b else a
  }

  function Without<T>(s: seq<T>, i: nat): (t: seq<T>)
    requires i < |s|
    ensures |t| == |s| - 1
  {
    s[..i] + s[i + 1..]
  }

  lemma MultisetWithout<T>(s: seq<T>, i: nat)
    requires i < |s|
    ensures multiset(s) == multiset(Without(s, i)) + multiset{s[i]}
  {
    assert s == s[..i] + ([s[i]] + s[i + 1..]);
  }

  /** Where an element of one order stands in another order of the same elements. */
  lemma FindIn<T>(s: seq<T>, i: nat, t: seq<T>) returns (j: nat)
    requires i < |s| && multiset(s) == multiset(t)
    ensures j < |t| && t[j] == s[i] && multiset(Without(s, i)) == multiset(Without(t, j))
  {
    assert s[i] in multiset(t);
    j :| 0 <= j < |t| && t[j] == s[i];
    MultisetWithout(s, i);
    MultisetWithout(t, j);
    assert multiset(Without(s, i)) == multiset(s) - multiset{s[i]};
    assert multiset(Without(t, j)) == multiset(t) - multiset{t[j]};
  }

  lemma SameLength<T>(s: seq<T>, t: seq<T>)
    requires multiset(s) == multiset(t)
    ensures |s| == |t|
  {
    assert |s| == |multiset(s)| == |multiset(t)| == |t|;
  }

  // ---- texts, as sequences of character codes ----

  /** The order of texts: lexicographic in the codes. */
  predicate Before(a: seq<int>, b: seq<int>) {
    b != [] && (a == [] || a[0] < b[0] || (a[0] == b[0] && Before(a[1..], b[1..])))
  }

  lemma {:induction false} OrderIsTotal(a: seq<int>, b: seq<int>)
    ensures a == b || Before(a, b) || Before(b, a)
    ensures !(Before(a, b) && Before(b, a)) && !Before(a, a)
  {
    if a != [] {
      OrderIsTotal(a[1..], a[1..]);
      if b != [] {
        OrderIsTotal(a[1..], b[1..]);
        assert a == [a[0]] + a[1..] && b == [b[0]] + b[1..];
      }
    }
  }

  lemma {:induction false} OrderIsTransitive(a: seq<int>, b: seq<int>, c: seq<int>)
    requires Before(a, b) && Before(b, c)
    ensures Before(a, c)
  {
    if a != [] && a[0] == b[0] == c[0] {
      OrderIsTransitive(a[1..], b[1..], c[1..]);
    }
  }

  /** The order is the lexicographic one: a shorter text before its continuations, and codes by size. */
  lemma {:induction false} OrderIsLexicographic(common: seq<int>, a: seq<int>, b: seq<int>)
    ensures Before(common + a, common + b) <==> Before(a, b)
    ensures a == [] && b != [] ==> Before(common + a, common + b)
    ensures a != [] && b != [] && a[0] < b[0] ==> Before(common + a, common + b)
  {
    if common == [] {
      assert common + a == a && common + b == b;
    } else {
      OrderIsLexicographic(common[1..], a, b);
      assert (common + a)[1..] == common[1..] + a && (common + b)[1..] == common[1..] + b;
    }
  }

  /** Lower case, of ASCII letters. */
  function Lower(t: seq<int>): (lower: seq<int>)
    ensures |lower| == |t|
    ensures forall i | 0 <= i < |t| :: lower[i] == if 65 <= t[i] <= 90 then t[i] + 32 else t[i]
  {
    if t == [] then [] else [if 65 <= t[0] <= 90 then t[0] + 32 else t[0]] + Lower(t[1..])
  }
}
