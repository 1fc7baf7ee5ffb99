/** Which values print the same: exactly those that differ only in the order of object members. */
module CanonicalJsonOrder {
  import opened Prelude
  import opened CanonicalJson
  import opened CanonicalJsonProofs

  // ---- the canonical form determines the text ----

  /** Print a value whose objects are already in order. */
  function Render(style: Style, v: Json): Text {
    match v
    case Arr(items) => [OPEN_ARRAY] + JoinTexts(RenderItems(style, items)) + [CLOSE_ARRAY]
    case Obj(fields) => [OPEN_OBJECT] + JoinTexts(Members(style, RenderParts(style, fields))) + [CLOSE_OBJECT]
    case _ => Print(style, v)
  }

  function RenderItems(style: Style, items: seq<Json>): seq<Text> {
    if items == [] then [] else [Render(style, items[0])] + RenderItems(style, items[1..])
  }

  function RenderParts(style: Style, fields: seq<Field>): seq<Part> {
    if fields == [] then [] else [Part(fields[0].key, Render(style, fields[0].value))] + RenderParts(style, fields[1..])
  }

  lemma {:induction false} PrintIsRenderedCanon(style: Style, v: Json)
    ensures Print(style, v) == Render(style, Canon(v))
  {
    match v
    case Arr(items) =>
      forall i | 0 <= i < |items|
        ensures Print(style, items[i]) == Render(style, Canon(items[i]))
      {
        PrintIsRenderedCanon(style, items[i]);
      }
      ItemsAreRendered(style, items);
    case Obj(fields) =>
      forall i | 0 <= i < |fields|
        ensures Print(style, fields[i].value) == Render(style, Canon(fields[i].value))
      {
        PrintIsRenderedCanon(style, fields[i].value);
      }
      SortFieldsMembers(fields);
      var sorted := SortFields(fields);
      forall i | 0 <= i < |sorted|
        ensures Print(style, sorted[i].value) == Render(style, Canon(sorted[i].value))
      {
        assert sorted[i] in fields;
      }
      PartsAreRendered(style, sorted);
      SortCommutes(style, fields);
      SortFieldsCanon(fields);
    case _ =>
  }

  lemma {:induction false} ItemsAreRendered(style: Style, items: seq<Json>)
    requires forall i | 0 <= i < |items| :: Print(style, items[i]) == Render(style, Canon(items[i]))
    ensures PrintItems(style, items) == RenderItems(style, CanonItems(items))
  {
    hide Print, Render, Canon;
    if items != [] {
      ItemsAreRendered(style, items[1..]);
      assert CanonItems(items)[1..] == CanonItems(items[1..]);
    }
  }

  lemma {:induction false} PartsAreRendered(style: Style, fields: seq<Field>)
    requires forall i | 0 <= i < |fields| :: Print(style, fields[i].value) == Render(style, Canon(fields[i].value))
    ensures PrintParts(style, fields) == RenderParts(style, CanonFields(fields))
  {
    hide Print, Render, Canon;
    if fields != [] {
      PartsAreRendered(style, fields[1..]);
      assert CanonFields(fields)[1..] == CanonFields(fields[1..]);
    }
  }

  // ---- sorted members ----

  predicate Increasing(fields: seq<Field>) {
    forall i, j | 0 <= i < j < |fields| :: Before(fields[i].key, fields[j].key)
  }

  lemma {:induction false} InsertKeepsIncreasing(f: Field, fields: seq<Field>)
    requires Increasing(fields) && forall i | 0 <= i < |fields| :: fields[i].key != f.key
    ensures Increasing(InsertField(f, fields))
  {
    if fields == [] {
    } else if Before(f.key, fields[0].key) {
      forall j | 0 <= j < |fields|
        ensures Before(f.key, fields[j].key)
      {
        if j > 0 {
          OrderIsTransitive(f.key, fields[0].key, fields[j].key);
        }
      }
    } else {
      var rest := InsertField(f, fields[1..]);
      InsertKeepsIncreasing(f, fields[1..]);
      InsertFieldMembers(f, fields[1..]);
      OrderIsTotal(f.key, fields[0].key);
      forall j | 0 <= j < |rest|
        ensures Before(fields[0].key, rest[j].key)
      {
        assert rest[j] == f || rest[j] in fields[1..];
      }
    }
  }

  lemma {:induction false} SortIsIncreasing(fields: seq<Field>)
    requires DistinctKeys(fields)
    ensures Increasing(SortFields(fields))
  {
    if fields != [] {
      var rest := SortFields(fields[1..]);
      SortIsIncreasing(fields[1..]);
      SortFieldsMembers(fields[1..]);
      forall i | 0 <= i < |rest|
        ensures rest[i].key != fields[0].key
      {
        assert rest[i] in fields[1..];
      }
      InsertKeepsIncreasing(fields[0], rest);
    }
  }

  lemma {:induction false} IncreasingIsUnique(a: seq<Field>, b: seq<Field>)
    requires Increasing(a) && Increasing(b) && |a| == |b| && forall x :: x in a <==> x in b
    ensures a == b
  {
    if a != [] {
      assert a[0] in b && b[0] in a;
      OrderIsTotal(a[0].key, b[0].key);
      OrderIsTotal(a[0].key, a[0].key);
      assert a[0] == b[0];
      forall x
        ensures x in a[1..] <==> x in b[1..]
      {
        assert x in a <==> x == a[0] || x in a[1..];
        assert x in b <==> x == b[0] || x in b[1..];
      }
      IncreasingIsUnique(a[1..], b[1..]);
    }
  }

  // ---- same values, same canonical form ----

  lemma CanonKeepsKeys(fields: seq<Field>)
    requires DistinctKeys(fields)
    ensures DistinctKeys(CanonFields(fields))
  {
  }

  /** Two objects have the same members, up to the canonical form of their values. */
  ghost predicate SameMembers(f: seq<Field>, g: seq<Field>) {
    forall x :: x in CanonFields(f) <==> x in CanonFields(g)
  }

  /** As many members on both sides: each key of one is a key of the other, and none occurs twice. */
  lemma {:induction false} SameMembersSameLength(f: seq<Field>, g: seq<Field>)
    requires DistinctKeys(f) && DistinctKeys(g)
    requires forall x :: x in f <==> x in g
    ensures |f| == |g|
  {
    var s, t := set x | x in f, set x | x in g;
    assert s == t;
    MembersCount(f);
    MembersCount(g);
  }

  lemma {:induction false} MembersCount(f: seq<Field>)
    requires DistinctKeys(f)
    ensures |set x | x in f| == |f|
  {
    if f != [] {
      MembersCount(f[1..]);
      assert (set x | x in f) == {f[0]} + (set x | x in f[1..]);
    }
  }

  lemma SameMembersSameCanon(f: seq<Field>, g: seq<Field>)
    requires DistinctKeys(f) && DistinctKeys(g)
    ensures SameMembers(f, g) <==> Canon(Obj(f)) == Canon(Obj(g))
  {
    var a, b := SortFields(CanonFields(f)), SortFields(CanonFields(g));
    SortFieldsMembers(CanonFields(f));
    SortFieldsMembers(CanonFields(g));
    if SameMembers(f, g) {
      CanonKeepsKeys(f);
      CanonKeepsKeys(g);
      SortIsIncreasing(CanonFields(f));
      SortIsIncreasing(CanonFields(g));
      SameMembersSameLength(CanonFields(f), CanonFields(g));
      IncreasingIsUnique(a, b);
    }
    if a == b {
      forall x
        ensures x in CanonFields(f) <==> x in CanonFields(g)
      {
        assert x in CanonFields(f) <==> x in a;
      }
    }
  }

  lemma {:induction false} SameIffSameCanon(v: Json, w: Json)
    requires Distinct(v) && Distinct(w)
    ensures Same(v, w) <==> Canon(v) == Canon(w)
  {
    if v.Arr? && w.Arr? {
      if |v.items| == |w.items| {
        forall i | 0 <= i < |v.items|
          ensures Same(v.items[i], w.items[i]) <==> CanonItems(v.items)[i] == CanonItems(w.items)[i]
        {
          SameIffSameCanon(v.items[i], w.items[i]);
        }
        SameItems(v.items, w.items);
      }
    } else if v.Obj? && w.Obj? {
      forall i, j | 0 <= i < |v.fields| && 0 <= j < |w.fields|
        ensures Same(v.fields[i].value, w.fields[j].value) <==> Canon(v.fields[i].value) == Canon(w.fields[j].value)
      {
        SameIffSameCanon(v.fields[i].value, w.fields[j].value);
      }
      SameObjects(v.fields, w.fields);
      SameMembersSameCanon(v.fields, w.fields);
    }
  }

  lemma SameItems(a: seq<Json>, b: seq<Json>)
    requires |a| == |b|
    requires forall i | 0 <= i < |a| :: Same(a[i], b[i]) <==> CanonItems(a)[i] == CanonItems(b)[i]
    ensures Same(Arr(a), Arr(b)) <==> CanonItems(a) == CanonItems(b)
  {
    hide Canon;
    assert Same(Arr(a), Arr(b)) <==> forall i | 0 <= i < |a| :: Same(a[i], b[i]);
  }

  lemma {:induction false} LookupFinds(fields: seq<Field>, key: Text) returns (i: nat)
    requires Lookup(fields, key).Some?
    ensures i < |fields| && fields[i] == Field(key, Lookup(fields, key).value)
  {
    if fields[0].key == key {
      i := 0;
    } else {
      i := LookupFinds(fields[1..], key);
      i := i + 1;
    }
  }

  lemma {:induction false} LookupAt(fields: seq<Field>, i: nat)
    requires DistinctKeys(fields) && i < |fields|
    ensures Lookup(fields, fields[i].key) == Some(fields[i].value)
  {
    if i > 0 {
      LookupAt(fields[1..], i - 1);
    }
  }

  lemma SameObjectsHaveSameMembers(f: seq<Field>, g: seq<Field>)
    requires DistinctKeys(f) && DistinctKeys(g)
    requires forall i, j | 0 <= i < |f| && 0 <= j < |g| ::
               Same(f[i].value, g[j].value) <==> Canon(f[i].value) == Canon(g[j].value)
    requires Same(Obj(f), Obj(g))
    ensures SameMembers(f, g)
  {
    hide Canon, CanonFields;
    var a, b := CanonFields(f), CanonFields(g);
    forall i | 0 <= i < |f|
      ensures a[i] in b
    {
      var j := LookupFinds(g, f[i].key);
      assert Same(f[i].value, g[j].value);
      assert b[j] == a[i];
    }
    forall j | 0 <= j < |g|
      ensures b[j] in a
    {
      var i := LookupFinds(f, g[j].key);
      LookupAt(g, j);
      assert Same(f[i].value, g[j].value);
      assert a[i] == b[j];
    }
  }

  lemma SameMembersMakeSameObjects(f: seq<Field>, g: seq<Field>)
    requires DistinctKeys(f) && DistinctKeys(g)
    requires forall i, j | 0 <= i < |f| && 0 <= j < |g| ::
               Same(f[i].value, g[j].value) <==> Canon(f[i].value) == Canon(g[j].value)
    requires SameMembers(f, g)
    ensures Same(Obj(f), Obj(g))
  {
    hide Canon, CanonFields;
    var a, b := CanonFields(f), CanonFields(g);
    forall i | 0 <= i < |f|
      ensures Lookup(g, f[i].key).Some? && Same(f[i].value, Lookup(g, f[i].key).value)
    {
      assert a[i] in b;
      var j :| 0 <= j < |b| && b[j] == a[i];
      LookupAt(g, j);
    }
    forall j | 0 <= j < |g|
      ensures Lookup(f, g[j].key).Some?
    {
      assert b[j] in a;
      var i :| 0 <= i < |a| && a[i] == b[j];
      LookupAt(f, i);
    }
  }

  lemma SameObjects(f: seq<Field>, g: seq<Field>)
    requires DistinctKeys(f) && DistinctKeys(g)
    requires forall i, j | 0 <= i < |f| && 0 <= j < |g| ::
               Same(f[i].value, g[j].value) <==> Canon(f[i].value) == Canon(g[j].value)
    ensures Same(Obj(f), Obj(g)) <==> SameMembers(f, g)
  {
    hide Canon, Same, SameMembers, Lookup;
    if Same(Obj(f), Obj(g)) {
      SameObjectsHaveSameMembers(f, g);
    }
    if SameMembers(f, g) {
      SameMembersMakeSameObjects(f, g);
    }
  }

  /**
   Two values have the same canonical text exactly when they are the same value up to the
   order of object members, in either style of printer.
   */
  lemma PrintExact(style: Style, v: Json, w: Json)
    requires Distinct(v) && Distinct(w)
    ensures Print(style, v) == Print(style, w) <==> Same(v, w)
  {
    hide Print, Canon, Same;
    ParsePrint(style, v);
    ParsePrint(style, w);
    PrintIsRenderedCanon(style, v);
    PrintIsRenderedCanon(style, w);
    SameIffSameCanon(v, w);
  }
}
