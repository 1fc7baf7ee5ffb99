/** The two signed messages built on canonical JSON: per-inference receipts and the model allowlist. */
module SignedMessages {
  import opened Prelude
  import opened CanonicalJson
  import opened CanonicalJsonProofs
  import opened CanonicalJsonOrder

  /** Two objects with the same keys in the same places are the same when their values are. */
  lemma SameShape(f: seq<Field>, g: seq<Field>)
    requires |f| == |g| && DistinctKeys(f) && forall i | 0 <= i < |f| :: f[i].key == g[i].key
    ensures Same(Obj(f), Obj(g)) <==> forall i | 0 <= i < |f| :: Same(f[i].value, g[i].value)
  {
    forall i | 0 <= i < |f|
      ensures Lookup(g, f[i].key) == Some(g[i].value) && Lookup(f, g[i].key) == Some(f[i].value)
    {
      LookupAt(f, i);
      LookupAt(g, i);
    }
  }

  // ---- what a message reads back as ----

  lemma {:induction false} LookupInserted(f: Field, fields: seq<Field>, key: Text)
    requires forall i | 0 <= i < |fields| :: fields[i].key != f.key
    ensures Lookup(InsertField(f, fields), key) == if f.key == key then Some(f.value) else Lookup(fields, key)
  {
    if fields != [] && !Before(f.key, fields[0].key) {
      LookupInserted(f, fields[1..], key);
    }
  }

  /** Sorting an object's members changes no look-up. */
  lemma {:induction false} LookupSorted(fields: seq<Field>, key: Text)
    requires DistinctKeys(fields)
    ensures Lookup(SortFields(fields), key) == Lookup(fields, key)
  {
    if fields != [] {
      LookupSorted(fields[1..], key);
      SortFieldsMembers(fields[1..]);
      var rest := SortFields(fields[1..]);
      forall i | 0 <= i < |rest|
        ensures rest[i].key != fields[0].key
      {
        assert rest[i] in fields[1..];
      }
      LookupInserted(fields[0], rest, key);
    }
  }

  /**
   The members of an object that is printed and read: as many, in key order, and each under its key
   in canonical form.
   */
  lemma ObjectReads(style: Style, fields: seq<Field>) returns (read: seq<Field>)
    requires DistinctKeys(fields)
    ensures Parse(Print(style, Obj(fields))) == Some(Obj(read))
    ensures |read| == |fields| && Increasing(read)
    ensures forall i | 0 <= i < |fields| :: Lookup(read, fields[i].key) == Some(Canon(fields[i].value))
  {
    hide Print, Parse, Increasing;
    ParsePrint(style, Obj(fields));
    CanonKeepsKeys(fields);
    read := SortFields(CanonFields(fields));
    SortIsIncreasing(CanonFields(fields));
    SortFieldsMembers(CanonFields(fields));
    forall i | 0 <= i < |fields|
      ensures Lookup(read, fields[i].key) == Some(Canon(fields[i].value))
    {
      LookupSorted(CanonFields(fields), fields[i].key);
      LookupAt(CanonFields(fields), i);
    }
  }

  // ---- receipts ----

  datatype Receipt = Receipt(
    requestId: Text,
    modelId: Text,
    modelHash: Option<Text>,
    enclaveKey: Option<Text>,
    fingerprint: Option<Text>,
    minerHash: Option<Text>,
    mode: Option<Text>,
    verifiedAt: Option<int>)

  function Normal(t: Option<Text>): Json {
    Str(t.GetOr([]))
  }

  /** The body of `canonical_inference_receipt_message`, its members as the source lists them. */
  function ReceiptFields(r: Receipt): (fields: seq<Field>)
    ensures |fields| == 9
  {
    [Field(Ascii("kind"), Str(Ascii("inference-receipt/v1"))),
     Field(Ascii("request_id"), Str(r.requestId)),
     Field(Ascii("model_id"), Str(r.modelId)),
     Field(Ascii("model_hash"), Normal(r.modelHash)),
     Field(Ascii("enclave_verify_key"), Normal(r.enclaveKey)),
     Field(Ascii("tls_cert_fingerprint"), Normal(r.fingerprint)),
     Field(Ascii("miner_hash"), Normal(r.minerHash)),
     Field(Ascii("attestation_mode"), Normal(r.mode)),
     Field(Ascii("attestation_verified_at"), if r.verifiedAt.None? then Null else Number(r.verifiedAt.value))]
  }

  function ReceiptMessage(r: Receipt): Text {
    Print(Python, Obj(ReceiptFields(r)))
  }

  /** The receipts agree on every field once absent text is read as empty text. */
  predicate Agree(a: Receipt, b: Receipt) {
    && a.requestId == b.requestId && a.modelId == b.modelId
    && a.modelHash.GetOr([]) == b.modelHash.GetOr([])
    && a.enclaveKey.GetOr([]) == b.enclaveKey.GetOr([])
    && a.fingerprint.GetOr([]) == b.fingerprint.GetOr([])
    && a.minerHash.GetOr([]) == b.minerHash.GetOr([])
    && a.mode.GetOr([]) == b.mode.GetOr([])
    && a.verifiedAt == b.verifiedAt
  }

  lemma ReceiptKeysDiffer(r: Receipt)
    ensures DistinctKeys(ReceiptFields(r))
  {
    var f := ReceiptFields(r);
    assert f[1].key[0] == 114 && f[3].key[0] == 109 && f[6].key[0] == 109;
    assert f[3].key[1] == 111 && f[6].key[1] == 105;
    assert |f[0].key| == 4 && |f[1].key| == 10 && |f[2].key| == 8 && |f[3].key| == 10 && |f[4].key| == 18;
    assert |f[5].key| == 20 && |f[6].key| == 10 && |f[7].key| == 16 && |f[8].key| == 23;
  }

  lemma SameReceiptsAgree(a: Receipt, b: Receipt)
    requires Same(Obj(ReceiptFields(a)), Obj(ReceiptFields(b)))
    ensures Agree(a, b)
  {
    SameShapeOfReceipts(a, b);
    var f, g := ReceiptFields(a), ReceiptFields(b);
    forall i | 0 <= i < 9
      ensures f[i].value == g[i].value
    {
      FlatFields(a, i);
      FlatSame(f[i].value, g[i].value);
    }
    hide Same, Ascii;
    assert f[1].value == g[1].value && f[2].value == g[2].value && f[3].value == g[3].value && f[4].value == g[4].value;
    assert f[5].value == g[5].value && f[6].value == g[6].value && f[7].value == g[7].value && f[8].value == g[8].value;
  }

  lemma FlatFields(r: Receipt, i: nat)
    requires i < 9
    ensures !ReceiptFields(r)[i].value.Arr? && !ReceiptFields(r)[i].value.Obj?
  {
    hide Ascii;
  }

  lemma FlatSame(v: Json, w: Json)
    requires !v.Arr? && !v.Obj? && Same(v, w)
    ensures v == w
  {
  }

  lemma SameShapeOfReceipts(a: Receipt, b: Receipt)
    ensures var f, g := ReceiptFields(a), ReceiptFields(b);
            Same(Obj(f), Obj(g)) <==> forall i | 0 <= i < 9 :: Same(f[i].value, g[i].value)
  {
    hide Same;
    var f, g := ReceiptFields(a), ReceiptFields(b);
    ReceiptKeysDiffer(a);
    assert forall i | 0 <= i < 9 :: f[i].key == g[i].key;
    hide ReceiptFields;
    SameShape(f, g);
  }

  lemma ReceiptIsDistinct(r: Receipt)
    ensures Distinct(Obj(ReceiptFields(r)))
  {
    hide Ascii;
    ReceiptKeysDiffer(r);
  }

  /** A signature covers every normalised field: equal bytes exactly for receipts that agree. */
  lemma ReceiptMessageExact(a: Receipt, b: Receipt)
    ensures ReceiptMessage(a) == ReceiptMessage(b) <==> Agree(a, b)
  {
    if Agree(a, b) {
      assert ReceiptFields(a) == ReceiptFields(b);
    }
    if ReceiptMessage(a) == ReceiptMessage(b) {
      hide Distinct, Same, Print, Agree, ReceiptFields;
      ReceiptIsDistinct(a);
      ReceiptIsDistinct(b);
      PrintExact(Python, Obj(ReceiptFields(a)), Obj(ReceiptFields(b)));
      SameReceiptsAgree(a, b);
    }
  }

  /** The signed receipt is an object of nine members in key order, each field under its own name. */
  lemma ReceiptReads(r: Receipt) returns (read: seq<Field>)
    ensures Parse(ReceiptMessage(r)) == Some(Obj(read)) && |read| == 9 && Increasing(read)
    ensures Lookup(read, Ascii("kind")) == Some(Str(Ascii("inference-receipt/v1")))
    ensures Lookup(read, Ascii("request_id")) == Some(Str(r.requestId))
    ensures Lookup(read, Ascii("model_id")) == Some(Str(r.modelId))
    ensures Lookup(read, Ascii("model_hash")) == Some(Str(if r.modelHash.Some? then r.modelHash.value else []))
    ensures Lookup(read, Ascii("enclave_verify_key"))
              == Some(Str(if r.enclaveKey.Some? then r.enclaveKey.value else []))
    ensures Lookup(read, Ascii("tls_cert_fingerprint"))
         == Some(Str(if r.fingerprint.Some? then r.fingerprint.value else []))
    ensures Lookup(read, Ascii("miner_hash")) == Some(Str(if r.minerHash.Some? then r.minerHash.value else []))
    ensures Lookup(read, Ascii("attestation_mode")) == Some(Str(if r.mode.Some? then r.mode.value else []))
    ensures Lookup(read, Ascii("attestation_verified_at"))
         == Some(if r.verifiedAt.Some? then Number(r.verifiedAt.value) else Null)
  {
    hide Print, Parse, Increasing, Lookup, Ascii;
    ReceiptKeysDiffer(r);
    var f := ReceiptFields(r);
    read := ObjectReads(Python, f);
    assert f[0].key == Ascii("kind") && f[1].key == Ascii("request_id") && f[2].key == Ascii("model_id");
    assert f[3].key == Ascii("model_hash") && f[4].key == Ascii("enclave_verify_key");
    assert f[5].key == Ascii("tls_cert_fingerprint") && f[6].key == Ascii("miner_hash");
    assert f[7].key == Ascii("attestation_mode") && f[8].key == Ascii("attestation_verified_at");
  }

  // ---- the allowlist ----

  /** An allowlist entry on the wire. */
  datatype WireEntry = WireEntry(
    modelId: Text,
    version: Option<Text>,
    hash: Text,
    args: Option<Text>,
    gpu: Option<Text>,
    labelText: Option<Text>)

  datatype NormalEntry = NormalEntry(modelId: Text, version: Text, hash: Text, args: Text, gpu: Text, labelText: Text)

  /** `normalizeEntry`. */
  function Normalize(e: WireEntry): NormalEntry {
    NormalEntry(e.modelId, e.version.GetOr([]), Lower(e.hash), e.args.GetOr([]), e.gpu.GetOr([]), e.labelText.GetOr([]))
  }

  function NormalizeAll(entries: seq<WireEntry>): (r: seq<NormalEntry>)
    ensures |r| == |entries| && forall i | 0 <= i < |r| :: r[i] == Normalize(entries[i])
  {
    if entries == [] then [] else [Normalize(entries[0])] + NormalizeAll(entries[1..])
  }

  datatype Triple = Triple(modelId: Text, version: Text, hash: Text)

  function TripleOf(e: NormalEntry): Triple {
    Triple(e.modelId, e.version, e.hash)
  }

  predicate TripleBefore(a: Triple, b: Triple) {
    || Before(a.modelId, b.modelId)
    || (a.modelId == b.modelId && Before(a.version, b.version))
    || (a.modelId == b.modelId && a.version == b.version && Before(a.hash, b.hash))
  }

  lemma TripleOrderIsTotal(a: Triple, b: Triple)
    ensures a == b || TripleBefore(a, b) || TripleBefore(b, a)
    ensures !(TripleBefore(a, b) && TripleBefore(b, a)) && !TripleBefore(a, a)
  {
    OrderIsTotal(a.modelId, b.modelId);
    OrderIsTotal(a.version, b.version);
    OrderIsTotal(a.hash, b.hash);
  }

  lemma TripleOrderIsTransitive(a: Triple, b: Triple, c: Triple)
    requires TripleBefore(a, b) && TripleBefore(b, c)
    ensures TripleBefore(a, c)
  {
    if Before(a.modelId, b.modelId) && Before(b.modelId, c.modelId) {
      OrderIsTransitive(a.modelId, b.modelId, c.modelId);
    } else if a.modelId == b.modelId == c.modelId {
      if Before(a.version, b.version) && Before(b.version, c.version) {
        OrderIsTransitive(a.version, b.version, c.version);
      } else if a.version == b.version == c.version {
        OrderIsTransitive(a.hash, b.hash, c.hash);
      }
    }
  }

  function InsertEntry(e: NormalEntry, entries: seq<NormalEntry>): seq<NormalEntry> {
    if entries == [] || !TripleBefore(TripleOf(entries[0]), TripleOf(e)) then [e] + entries
    else [entries[0]] + InsertEntry(e, entries[1..])
  }

  /** JavaScript's stable `sort` under the comparison of the triples. */
  function SortEntries(entries: seq<NormalEntry>): seq<NormalEntry> {
    if entries == [] then [] else InsertEntry(entries[0], SortEntries(entries[1..]))
  }

  function EntryFields(e: NormalEntry): (fields: seq<Field>)
    ensures |fields| == 6
  {
    [Field(Ascii("model_id"), Str(e.modelId)),
     Field(Ascii("model_version"), Str(e.version)),
     Field(Ascii("model_hash"), Str(e.hash)),
     Field(Ascii("args_hash"), Str(e.args)),
     Field(Ascii("gpu_hash"), Str(e.gpu)),
     Field(Ascii("label"), Str(e.labelText))]
  }

  function EntryValues(entries: seq<NormalEntry>): (items: seq<Json>)
    ensures |items| == |entries| && forall i | 0 <= i < |items| :: items[i] == Obj(EntryFields(entries[i]))
  {
    if entries == [] then [] else [Obj(EntryFields(entries[0]))] + EntryValues(entries[1..])
  }

  function AllowlistFields(entries: seq<WireEntry>, version: int, notBefore: Option<int>): seq<Field> {
    [Field(Ascii("kind"), Str(Ascii("model-allowlist/v1"))),
     Field(Ascii("version"), Number(version)),
     Field(Ascii("entries"), Arr(EntryValues(SortEntries(NormalizeAll(entries)))))]
    + if notBefore.None? then [] else [Field(Ascii("not_before"), Number(notBefore.value))]
  }

  /** `canonicalAllowlistMessage`. */
  function AllowlistMessage(entries: seq<WireEntry>, version: int, notBefore: Option<int>): Text {
    Print(TypeScript, Obj(AllowlistFields(entries, version, notBefore)))
  }

  lemma EntryKeysDiffer(e: NormalEntry)
    ensures DistinctKeys(EntryFields(e))
  {
    var f := EntryFields(e);
    assert |f[0].key| == 8 && |f[1].key| == 13 && |f[2].key| == 10 && |f[3].key| == 9 && |f[4].key| == 8
           && |f[5].key| == 5;
    assert f[0].key[0] == 109 && f[4].key[0] == 103;
  }

  lemma EntryExact(a: NormalEntry, b: NormalEntry)
    ensures Same(Obj(EntryFields(a)), Obj(EntryFields(b))) <==> a == b
  {
    var f, g := EntryFields(a), EntryFields(b);
    EntryKeysDiffer(a);
    EntryKeysDiffer(b);
    SameShape(f, g);
    assert (forall i | 0 <= i < 6 :: Same(f[i].value, g[i].value)) <==>
      Same(f[0].value, g[0].value) && Same(f[1].value, g[1].value) && Same(f[2].value, g[2].value)
      && Same(f[3].value, g[3].value) && Same(f[4].value, g[4].value) && Same(f[5].value, g[5].value);
  }

  lemma EntriesExact(a: seq<NormalEntry>, b: seq<NormalEntry>)
    ensures Same(Arr(EntryValues(a)), Arr(EntryValues(b))) <==> a == b
  {
    forall i | 0 <= i < |a| && 0 <= i < |b|
      ensures Same(EntryValues(a)[i], EntryValues(b)[i]) <==> a[i] == b[i]
    {
      EntryExact(a[i], b[i]);
    }
  }

  lemma AllowlistKeysDiffer(entries: seq<WireEntry>, version: int, notBefore: Option<int>)
    ensures DistinctKeys(AllowlistFields(entries, version, notBefore))
  {
    hide SortEntries;
    var f := AllowlistFields(entries, version, notBefore);
    assert |f[0].key| == 4 && |f[1].key| == 7 && |f[2].key| == 7 && (|f| == 4 ==> |f[3].key| == 10);
    assert f[1].key[0] == 118 && f[2].key[0] == 101;
  }

  lemma EntriesAreDistinct(entries: seq<NormalEntry>)
    ensures Distinct(Arr(EntryValues(entries)))
  {
    forall i | 0 <= i < |entries|
      ensures Distinct(EntryValues(entries)[i])
    {
      EntryKeysDiffer(entries[i]);
    }
  }

  lemma AllowlistIsDistinct(entries: seq<WireEntry>, version: int, notBefore: Option<int>)
    ensures Distinct(Obj(AllowlistFields(entries, version, notBefore)))
  {
    hide SortEntries, DistinctKeys, Ascii;
    AllowlistKeysDiffer(entries, version, notBefore);
    EntriesAreDistinct(SortEntries(NormalizeAll(entries)));
  }

  /** The signed text determines version, activation time and the sorted normalised entries, and nothing else. */
  lemma AllowlistMessageExact(a: seq<WireEntry>, v: int, n: Option<int>, b: seq<WireEntry>, w: int, m: Option<int>)
    ensures AllowlistMessage(a, v, n) == AllowlistMessage(b, w, m) <==>
            v == w && n == m && SortEntries(NormalizeAll(a)) == SortEntries(NormalizeAll(b))
  {
    var f, g := AllowlistFields(a, v, n), AllowlistFields(b, w, m);
    AllowlistIsDistinct(a, v, n);
    AllowlistIsDistinct(b, w, m);
    PrintExact(TypeScript, Obj(f), Obj(g));
    AllowlistSame(a, v, n, b, w, m);
  }

  lemma AllowlistSame(a: seq<WireEntry>, v: int, n: Option<int>, b: seq<WireEntry>, w: int, m: Option<int>)
    ensures Same(Obj(AllowlistFields(a, v, n)), Obj(AllowlistFields(b, w, m))) <==>
            v == w && n == m && SortEntries(NormalizeAll(a)) == SortEntries(NormalizeAll(b))
  {
    hide SortEntries, NormalizeAll, EntryValues;
    var f, g := AllowlistFields(a, v, n), AllowlistFields(b, w, m);
    AllowlistIsDistinct(a, v, n);
    AllowlistIsDistinct(b, w, m);
    EntriesExact(SortEntries(NormalizeAll(a)), SortEntries(NormalizeAll(b)));
    if |f| == |g| {
      SameShape(f, g);
      assert Same(f[0].value, g[0].value);
      assert Same(f[1].value, g[1].value) <==> v == w;
      assert Same(f[2].value, g[2].value) <==> SortEntries(NormalizeAll(a)) == SortEntries(NormalizeAll(b));
      if |f| == 4 {
        assert Same(f[3].value, g[3].value) <==> n == m;
      }
    } else if |f| == 4 {
      MissingKey(g, f[3].key);
    } else {
      MissingKey(f, g[3].key);
      assert Lookup(f, g[3].key).None?;
    }
  }

  lemma {:induction false} MissingKey(fields: seq<Field>, key: Text)
    requires forall i | 0 <= i < |fields| :: fields[i].key != key
    ensures Lookup(fields, key).None?
  {
    if fields != [] {
      MissingKey(fields[1..], key);
    }
  }

  // ---- the order of the entries ----

  /** The first entry with a given triple. */
  function First(entries: seq<NormalEntry>, t: Triple): Option<NormalEntry> {
    if entries == [] then None
    else if TripleOf(entries[0]) == t then Some(entries[0])
    else First(entries[1..], t)
  }

  predicate Ordered(entries: seq<NormalEntry>) {
    forall i, j | 0 <= i < j < |entries| :: !TripleBefore(TripleOf(entries[j]), TripleOf(entries[i]))
  }

  /** Insertion is stable: the new entry goes before the entries with its triple. */
  lemma {:induction false} InsertKeepsFirst(e: NormalEntry, entries: seq<NormalEntry>, t: Triple)
    ensures First(InsertEntry(e, entries), t) == if TripleOf(e) == t then Some(e) else First(entries, t)
  {
    if entries == [] || !TripleBefore(TripleOf(entries[0]), TripleOf(e)) {
      assert ([e] + entries)[1..] == entries;
    } else {
      TripleOrderIsTotal(TripleOf(entries[0]), TripleOf(e));
      InsertKeepsFirst(e, entries[1..], t);
      assert ([entries[0]] + InsertEntry(e, entries[1..]))[1..] == InsertEntry(e, entries[1..]);
    }
  }

  lemma {:induction false} SortKeepsFirst(entries: seq<NormalEntry>, t: Triple)
    ensures First(SortEntries(entries), t) == First(entries, t)
  {
    if entries != [] {
      SortKeepsFirst(entries[1..], t);
      InsertKeepsFirst(entries[0], SortEntries(entries[1..]), t);
    }
  }

  lemma {:induction false} InsertEntryAdds(e: NormalEntry, entries: seq<NormalEntry>)
    ensures multiset(InsertEntry(e, entries)) == multiset(entries) + multiset{e}
  {
    if entries != [] && TripleBefore(TripleOf(entries[0]), TripleOf(e)) {
      InsertEntryAdds(e, entries[1..]);
      assert entries == [entries[0]] + entries[1..];
    }
  }

  lemma {:induction false} InsertKeepsOrdered(e: NormalEntry, entries: seq<NormalEntry>)
    requires Ordered(entries)
    ensures Ordered(InsertEntry(e, entries))
  {
    if entries == [] {
    } else if !TripleBefore(TripleOf(entries[0]), TripleOf(e)) {
      forall j | 0 <= j < |entries|
        ensures !TripleBefore(TripleOf(entries[j]), TripleOf(e))
      {
        NotBeforeIsTransitive(TripleOf(e), TripleOf(entries[0]), TripleOf(entries[j]));
      }
    } else {
      var rest := InsertEntry(e, entries[1..]);
      InsertKeepsOrdered(e, entries[1..]);
      InsertEntryAdds(e, entries[1..]);
      TripleOrderIsTotal(TripleOf(entries[0]), TripleOf(e));
      forall j | 0 <= j < |rest|
        ensures !TripleBefore(TripleOf(rest[j]), TripleOf(entries[0]))
      {
        assert rest[j] in multiset(rest);
        assert rest[j] == e || rest[j] in entries[1..];
      }
    }
  }

  lemma NotBeforeIsTransitive(a: Triple, b: Triple, c: Triple)
    requires !TripleBefore(b, a) && (b == c || !TripleBefore(c, b))
    ensures !TripleBefore(c, a)
  {
    TripleOrderIsTotal(a, b);
    TripleOrderIsTotal(b, c);
    TripleOrderIsTotal(a, c);
    if TripleBefore(c, a) && TripleBefore(a, b) {
      TripleOrderIsTransitive(c, a, b);
    }
  }

  lemma {:induction false} SortEntriesSorts(entries: seq<NormalEntry>)
    ensures Ordered(SortEntries(entries)) && multiset(SortEntries(entries)) == multiset(entries)
  {
    if entries != [] {
      SortEntriesSorts(entries[1..]);
      InsertKeepsOrdered(entries[0], SortEntries(entries[1..]));
      InsertEntryAdds(entries[0], SortEntries(entries[1..]));
      assert entries == [entries[0]] + entries[1..];
    }
  }

  /** Entries with the same triple are the same entry. */
  predicate TriplesIdentify(entries: seq<NormalEntry>) {
    forall i, j | 0 <= i < |entries| && 0 <= j < |entries| && TripleOf(entries[i]) == TripleOf(entries[j]) ::
      entries[i] == entries[j]
  }

  /** The least triple is first in both orders. */
  lemma HeadsAgree(a: seq<NormalEntry>, b: seq<NormalEntry>)
    requires a != [] && b != [] && Ordered(a) && Ordered(b) && multiset(a) == multiset(b) && TriplesIdentify(a)
    ensures a[0] == b[0]
  {
    assert a[0] in multiset(b) && b[0] in multiset(a);
    var i :| 0 <= i < |b| && b[i] == a[0];
    var j :| 0 <= j < |a| && a[j] == b[0];
    TripleOrderIsTotal(TripleOf(a[0]), TripleOf(b[0]));
    assert 0 < i ==> !TripleBefore(TripleOf(b[i]), TripleOf(b[0]));
    assert 0 < j ==> !TripleBefore(TripleOf(a[j]), TripleOf(a[0]));
  }

  lemma TailKeeps(a: seq<NormalEntry>)
    requires a != []
    ensures a == [a[0]] + a[1..] && multiset(a[1..]) == multiset(a) - multiset{a[0]}
    ensures Ordered(a) ==> Ordered(a[1..])
    ensures TriplesIdentify(a) ==> TriplesIdentify(a[1..])
  {
    hide TripleBefore, TripleOf;
    assert a == [a[0]] + a[1..];
  }

  lemma {:induction false} OrderedIsUnique(a: seq<NormalEntry>, b: seq<NormalEntry>)
    requires Ordered(a) && Ordered(b) && multiset(a) == multiset(b) && TriplesIdentify(a)
    ensures a == b
  {
    hide Ordered, TriplesIdentify;
    assert |a| == |multiset(a)| == |multiset(b)| == |b|;
    if a != [] {
      HeadsAgree(a, b);
      TailKeeps(a);
      TailKeeps(b);
      OrderedIsUnique(a[1..], b[1..]);
    }
  }

  lemma MoveToFront(entries: seq<NormalEntry>, i: nat) returns (t: seq<NormalEntry>)
    requires i < |entries|
    ensures t != [] && t[0] == entries[i] && multiset(t) == multiset(entries)
  {
    t := [entries[i]] + (entries[..i] + entries[i + 1..]);
    assert entries == entries[..i] + ([entries[i]] + entries[i + 1..]);
  }

  /**
   The sorted entries, and with them the signed text, are independent of the order in which
   the entries arrive exactly when no two different entries share id, version and hash.
   */
  lemma EntryOrderExact(entries: seq<NormalEntry>)
    ensures (forall other | multiset(other) == multiset(entries) :: SortEntries(other) == SortEntries(entries)) <==>
            TriplesIdentify(entries)
  {
    if TriplesIdentify(entries) {
      forall other | multiset(other) == multiset(entries)
        ensures SortEntries(other) == SortEntries(entries)
      {
        SortEntriesSorts(entries);
        SortEntriesSorts(other);
        IdentifyIgnoresOrder(entries, SortEntries(entries));
        OrderedIsUnique(SortEntries(entries), SortEntries(other));
      }
    } else {
      var i, j :| 0 <= i < |entries| && 0 <= j < |entries| && TripleOf(entries[i]) == TripleOf(entries[j])
          && entries[i] != entries[j];
      var s := MoveToFront(entries, i);
      var t := MoveToFront(entries, j);
      SortKeepsFirst(s, TripleOf(entries[i]));
      SortKeepsFirst(t, TripleOf(entries[i]));
      assert SortEntries(s) != SortEntries(t);
    }
  }

  lemma IdentifyIgnoresOrder(a: seq<NormalEntry>, b: seq<NormalEntry>)
    requires TriplesIdentify(a) && multiset(a) == multiset(b)
    ensures TriplesIdentify(b)
  {
    forall i, j | 0 <= i < |b| && 0 <= j < |b| && TripleOf(b[i]) == TripleOf(b[j])
      ensures b[i] == b[j]
    {
      assert b[i] in multiset(a) && b[j] in multiset(a);
      var k :| 0 <= k < |a| && a[k] == b[i];
      var l :| 0 <= l < |a| && a[l] == b[j];
    }
  }

  lemma NormalizeWithout(b: seq<WireEntry>, i: nat)
    requires i < |b|
    ensures NormalizeAll(Without(b, i)) == Without(NormalizeAll(b), i)
  {
    hide Normalize, NormalizeAll;
  }

  lemma {:induction false} NormalizeAllPermutes(a: seq<WireEntry>, b: seq<WireEntry>)
    requires multiset(a) == multiset(b)
    ensures multiset(NormalizeAll(a)) == multiset(NormalizeAll(b))
    decreases |a|
  {
    hide Normalize, NormalizeAll, Without;
    SameLength(a, b);
    if a != [] {
      var i := FindIn(a, 0, b);
      NormalizeWithout(a, 0);
      NormalizeWithout(b, i);
      NormalizeAllPermutes(Without(a, 0), Without(b, i));
      MultisetWithout(NormalizeAll(a), 0);
      MultisetWithout(NormalizeAll(b), i);
    }
  }

  /** Entries with distinct (id, version, hash) may arrive in any order without changing the signed text. */
  lemma AllowlistIgnoresOrder(a: seq<WireEntry>, b: seq<WireEntry>, version: int, notBefore: Option<int>)
    requires multiset(a) == multiset(b) && TriplesIdentify(NormalizeAll(a))
    ensures AllowlistMessage(a, version, notBefore) == AllowlistMessage(b, version, notBefore)
  {
    hide AllowlistMessage;
    NormalizeAllPermutes(a, b);
    EntryOrderExact(NormalizeAll(a));
    AllowlistMessageExact(a, version, notBefore, b, version, notBefore);
  }

  // ---- what the allowlist text says ----

  /** The six members of an entry, under their names: absent text as empty text and the hash in lower case. */
  ghost predicate SaysEntry(read: seq<Field>, e: WireEntry) {
    && |read| == 6 && Increasing(read)
    && Lookup(read, Ascii("model_id")) == Some(Str(e.modelId))
    && Lookup(read, Ascii("model_version")) == Some(Str(if e.version.Some? then e.version.value else []))
    && Lookup(read, Ascii("model_hash")) == Some(Str(Lower(e.hash)))
    && Lookup(read, Ascii("args_hash")) == Some(Str(if e.args.Some? then e.args.value else []))
    && Lookup(read, Ascii("gpu_hash")) == Some(Str(if e.gpu.Some? then e.gpu.value else []))
    && Lookup(read, Ascii("label")) == Some(Str(if e.labelText.Some? then e.labelText.value else []))
  }

  lemma EntryReads(e: WireEntry) returns (read: seq<Field>)
    ensures Canon(Obj(EntryFields(Normalize(e)))) == Obj(read) && SaysEntry(read, e)
  {
    hide Print, Increasing, Lookup, Ascii;
    var f := EntryFields(Normalize(e));
    EntryKeysDiffer(Normalize(e));
    read := ObjectReads(TypeScript, f);
    ParsePrint(TypeScript, Obj(f));
    assert f[0].key == Ascii("model_id") && f[1].key == Ascii("model_version") && f[2].key == Ascii("model_hash");
    assert f[3].key == Ascii("args_hash") && f[4].key == Ascii("gpu_hash") && f[5].key == Ascii("label");
  }

  /** A wire entry behind each entry of the sorted list. */
  lemma SortedHasSource(entries: seq<WireEntry>, i: nat) returns (e: WireEntry)
    requires i < |SortEntries(NormalizeAll(entries))|
    ensures e in entries && SortEntries(NormalizeAll(entries))[i] == Normalize(e)
  {
    var normal := NormalizeAll(entries);
    SortEntriesSorts(normal);
    assert SortEntries(normal)[i] in multiset(SortEntries(normal));
    assert SortEntries(normal)[i] in normal;
    var j :| 0 <= j < |normal| && normal[j] == SortEntries(normal)[i];
    e := entries[j];
  }

  /**
   The signed allowlist: its kind, version and activation time, and as many entries as were given,
   each one of them.
   */
  lemma AllowlistReads(entries: seq<WireEntry>, version: int, notBefore: Option<int>)
    returns (read: seq<Field>, items: seq<Json>)
    ensures Parse(AllowlistMessage(entries, version, notBefore)) == Some(Obj(read)) && Increasing(read)
    ensures |read| == if notBefore.Some? then 4 else 3
    ensures Lookup(read, Ascii("kind")) == Some(Str(Ascii("model-allowlist/v1")))
    ensures Lookup(read, Ascii("version")) == Some(Number(version))
    ensures notBefore.Some? ==> Lookup(read, Ascii("not_before")) == Some(Number(notBefore.value))
    ensures Lookup(read, Ascii("entries")) == Some(Arr(items)) && |items| == |entries|
    ensures forall i | 0 <= i < |items| :: items[i].Obj? && exists e :: e in entries && SaysEntry(items[i].fields, e)
  {
    hide Print, Parse, Increasing, Lookup, Ascii, SortEntries, SaysEntry;
    AllowlistKeysDiffer(entries, version, notBefore);
    var f := AllowlistFields(entries, version, notBefore);
    read := ObjectReads(TypeScript, f);
    assert f[0].key == Ascii("kind") && f[1].key == Ascii("version") && f[2].key == Ascii("entries");
    assert notBefore.Some? ==> f[3].key == Ascii("not_before");
    var sorted := SortEntries(NormalizeAll(entries));
    items := CanonItems(EntryValues(sorted));
    SortKeepsLength(entries);
    forall i | 0 <= i < |items|
      ensures items[i].Obj? && exists e :: e in entries && SaysEntry(items[i].fields, e)
    {
      var e := SortedHasSource(entries, i);
      var member := EntryReads(e);
      assert items[i] == Canon(Obj(EntryFields(sorted[i])));
    }
  }

  lemma SortKeepsLength(entries: seq<WireEntry>)
    ensures |SortEntries(NormalizeAll(entries))| == |entries|
  {
    SortEntriesSorts(NormalizeAll(entries));
    SameLength(SortEntries(NormalizeAll(entries)), NormalizeAll(entries));
  }

  /** The sorted entries stand in the order of model id, then version, then hash. */
  lemma EntriesInOrder(entries: seq<NormalEntry>, i: nat, j: nat)
    requires i < j < |SortEntries(entries)|
    ensures var a, b := SortEntries(entries)[i], SortEntries(entries)[j];
            if a.modelId != b.modelId then Before(a.modelId, b.modelId)
            else if a.version != b.version then Before(a.version, b.version)
            else a.hash == b.hash || Before(a.hash, b.hash)
  {
    SortEntriesSorts(entries);
    var a, b := SortEntries(entries)[i], SortEntries(entries)[j];
    OrderIsTotal(a.modelId, b.modelId);
    OrderIsTotal(a.version, b.version);
    OrderIsTotal(a.hash, b.hash);
  }
}
