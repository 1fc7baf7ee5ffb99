/**
 Canonical JSON as the platform signs it: compact, with the keys of every object sorted. Text is
 a sequence of UTF-16 code units, the strings of the TypeScript printer; the Python printer
 escapes every unit outside printable ASCII.
 */
module CanonicalJson {
  import opened Prelude

  type CodeUnit = u: int | 0 <= u < 0x1_0000
  type Text = seq<CodeUnit>

  datatype Json =
    | Null
    | Bool(b: bool)
    | Number(n: int)
    | Str(s: Text)
    | Arr(items: seq<Json>)
    | Obj(fields: seq<Field>)

  datatype Field = Field(key: Text, value: Json)

  /** A printed member of an object. */
  datatype Part = Part(key: Text, text: Text)

  /** No object has the same key twice. */
  predicate Distinct(v: Json) {
    match v
    case Arr(items) => forall i | 0 <= i < |items| :: Distinct(items[i])
    case Obj(fields) =>
      && (forall i | 0 <= i < |fields| :: Distinct(fields[i].value))
      && DistinctKeys(fields)
    case _ => true
  }

  predicate DistinctKeys(fields: seq<Field>) {
    forall i, j | 0 <= i < j < |fields| :: fields[i].key != fields[j].key
  }

  // ---- text ----

  /** A literal of this model, all of whose characters are ASCII. */
  function Ascii(s: string): (t: Text)
    ensures |t| == |s| && forall i | 0 <= i < |s| && s[i] < 128 as char :: t[i] == s[i] as int
  {
    seq(|s|, i requires 0 <= i < |s| => if s[i] < 128 as char then s[i] as int else 63)
  }

  const QUOTE: CodeUnit := 34
  const COMMA: CodeUnit := 44
  const MINUS: CodeUnit := 45
  const ZERO: CodeUnit := 48
  const COLON: CodeUnit := 58
  const OPEN_ARRAY: CodeUnit := 91
  const BACKSLASH: CodeUnit := 92
  const CLOSE_ARRAY: CodeUnit := 93
  const LETTER_U: CodeUnit := 117
  const OPEN_OBJECT: CodeUnit := 123
  const CLOSE_OBJECT: CodeUnit := 125

  const NULL_TEXT: Text := [110, 117, 108, 108]
  const TRUE_TEXT: Text := [116, 114, 117, 101]
  const FALSE_TEXT: Text := [102, 97, 108, 115, 101]

  // ---- strings ----

  /** `JSON.stringify` keeps other characters as they are; `json.dumps` keeps only printable ASCII. */
  datatype Style = TypeScript | Python

  function HexDigit(d: int): CodeUnit
    requires 0 <= d < 16
  {
    if d < 10 then 48 + d else 87 + d
  }

  /** Four lower-case hexadecimal digits. */
  function HexDigits(u: CodeUnit): (t: Text)
    ensures |t| == 4
  {
    [HexDigit(u / 16 / 16 / 16), HexDigit(u / 16 / 16 % 16), HexDigit(u / 16 % 16), HexDigit(u % 16)]
  }

  function UnicodeEscape(u: CodeUnit): Text {
    [BACKSLASH, LETTER_U] + HexDigits(u)
  }

  /** The two-character escapes of section 7 of RFC 8259 that both printers use. */
  function ShortEscape(u: CodeUnit): Option<CodeUnit> {
    if u == 8 then Some(98)
    else if u == 9 then Some(116)
    else if u == 10 then Some(110)
    else if u == 12 then Some(102)
    else if u == 13 then Some(114)
    else if u == QUOTE || u == BACKSLASH then Some(u)
    else None
  }

  predicate IsHigh(u: CodeUnit) { 0xD800 <= u < 0xDC00 }

  predicate IsLow(u: CodeUnit) { 0xDC00 <= u < 0xE000 }

  /** Whether a unit must be written as a `\u` escape: controls, lone surrogates and, in Python, all but ASCII. */
  predicate NeedsUnicode(style: Style, u: CodeUnit, paired: bool) {
    || u < 32
    || (style == Python && 126 < u)
    || (style == TypeScript && (IsHigh(u) || IsLow(u)) && !paired)
  }

  function EscapeUnit(style: Style, u: CodeUnit, paired: bool): (t: Text)
    ensures t != []
  {
    if ShortEscape(u).Some? then [BACKSLASH, ShortEscape(u).value]
    else if NeedsUnicode(style, u, paired) then UnicodeEscape(u)
    else [u]
  }

  /** `inPair`: the first unit is the low half of a surrogate pair. */
  function Escape(style: Style, s: Text, inPair: bool): Text {
    if s == [] then []
    else
      var opensPair := !inPair && IsHigh(s[0]) && 1 < |s| && IsLow(s[1]);
      EscapeUnit(style, s[0], inPair || opensPair) + Escape(style, s[1..], opensPair)
  }

  function Quoted(style: Style, s: Text): Text {
    [QUOTE] + Escape(style, s, false) + [QUOTE]
  }

  // ---- numbers ----

  function Digits(n: nat): (t: Text)
    ensures t != []
  {
    if n < 10 then [ZERO + n] else Digits(n / 10) + [ZERO + n % 10]
  }

  function Decimal(n: int): Text {
    if n < 0 then [MINUS] + Digits(-n) else Digits(n)
  }

  // ---- the printer ----

  function InsertPart(p: Part, parts: seq<Part>): seq<Part> {
    if parts == [] || Before(p.key, parts[0].key) then [p] + parts else [parts[0]] + InsertPart(p, parts[1..])
  }

  function SortParts(parts: seq<Part>): seq<Part> {
    if parts == [] then [] else InsertPart(parts[0], SortParts(parts[1..]))
  }

  function JoinTexts(texts: seq<Text>): Text {
    if texts == [] then []
    else if |texts| == 1 then texts[0]
    else texts[0] + [COMMA] + JoinTexts(texts[1..])
  }

  function Member(style: Style, p: Part): Text {
    Quoted(style, p.key) + [COLON] + p.text
  }

  function Members(style: Style, parts: seq<Part>): seq<Text> {
    if parts == [] then [] else [Member(style, parts[0])] + Members(style, parts[1..])
  }

  /** `canonicalJsonStringify`. */
  function Print(style: Style, v: Json): Text {
    match v
    case Null => NULL_TEXT
    case Bool(b) => if b then TRUE_TEXT else FALSE_TEXT
    case Number(n) => Decimal(n)
    case Str(s) => Quoted(style, s)
    case Arr(items) => [OPEN_ARRAY] + JoinTexts(PrintItems(style, items)) + [CLOSE_ARRAY]
    case Obj(fields) => [OPEN_OBJECT] + JoinTexts(Members(style, SortParts(PrintParts(style, fields)))) + [CLOSE_OBJECT]
  }

  function PrintItems(style: Style, items: seq<Json>): (texts: seq<Text>)
    ensures |texts| == |items|
  {
    if items == [] then [] else [Print(style, items[0])] + PrintItems(style, items[1..])
  }

  function PrintParts(style: Style, fields: seq<Field>): (parts: seq<Part>)
    ensures |parts| == |fields|
  {
    if fields == [] then [] else [Part(fields[0].key, Print(style, fields[0].value))] + PrintParts(style, fields[1..])
  }

  // ---- the parser ----

  function Unhex(u: CodeUnit): Option<int> {
    if 48 <= u < 58 then Some(u - 48) else if 97 <= u < 103 then Some(u - 87) else None
  }

  function UnescapeShort(u: CodeUnit): Option<CodeUnit> {
    if u == 98 then Some(8)
    else if u == 116 then Some(9)
    else if u == 110 then Some(10)
    else if u == 102 then Some(12)
    else if u == 114 then Some(13)
    else if u == QUOTE || u == BACKSLASH then Some(u)
    else None
  }

  function UnescapeHex(s: Text): Option<CodeUnit>
    requires |s| == 4
  {
    var a, b, c, d := Unhex(s[0]), Unhex(s[1]), Unhex(s[2]), Unhex(s[3]);
    if a.Some? && b.Some? && c.Some? && d.Some?
    then Some(((a.value * 16 + b.value) * 16 + c.value) * 16 + d.value)
    else None
  }

  /** The rest of a string literal, up to and with its closing quote. */
  function ParseString(s: Text): (r: Option<(Text, Text)>)
    ensures r.Some? ==> |r.value.1| < |s|
    decreases |s|
  {
    if s == [] then None
    else if s[0] == QUOTE then Some(([], s[1..]))
    else if s[0] != BACKSLASH then Prepend(s[0], ParseString(s[1..]))
    else if |s| < 2 then None
    else if s[1] != LETTER_U then
      if UnescapeShort(s[1]).None? then None else Prepend(UnescapeShort(s[1]).value, ParseString(s[2..]))
    else if |s| < 6 || UnescapeHex(s[2..6]).None? then None
    else Prepend(UnescapeHex(s[2..6]).value, ParseString(s[6..]))
  }

  function Prepend(u: CodeUnit, r: Option<(Text, Text)>): (p: Option<(Text, Text)>)
    ensures p.Some? <==> r.Some?
    ensures p.Some? ==> p.value.0 == [u] + r.value.0 && p.value.1 == r.value.1
  {
    if r.None? then None else Some(([u] + r.value.0, r.value.1))
  }

  predicate IsDigit(u: CodeUnit) { 48 <= u < 58 }

  function ParseDigits(s: Text, n: nat): (r: (nat, Text))
    ensures |r.1| <= |s| && (s != [] && IsDigit(s[0]) ==> |r.1| < |s|)
    decreases |s|
  {
    if s == [] || !IsDigit(s[0]) then (n, s) else ParseDigits(s[1..], n * 10 + (s[0] - ZERO))
  }

  function ParseValue(s: Text): (r: Option<(Json, Text)>)
    ensures r.Some? ==> |r.value.1| < |s|
    decreases |s|, 0
  {
    if s == [] then None
    else if NULL_TEXT <= s then Some((Null, s[4..]))
    else if TRUE_TEXT <= s then Some((Bool(true), s[4..]))
    else if FALSE_TEXT <= s then Some((Bool(false), s[5..]))
    else if s[0] == QUOTE then
      var text := ParseString(s[1..]);
      if text.None? then None else Some((Str(text.value.0), text.value.1))
    else if s[0] == OPEN_ARRAY then
      if 1 < |s| && s[1] == CLOSE_ARRAY then Some((Arr([]), s[2..]))
      else
        var items := ParseItems(s[1..]);
        if items.None? then None else Some((Arr(items.value.0), items.value.1))
    else if s[0] == OPEN_OBJECT then
      if 1 < |s| && s[1] == CLOSE_OBJECT then Some((Obj([]), s[2..]))
      else
        var fields := ParseFields(s[1..]);
        if fields.None? then None else Some((Obj(fields.value.0), fields.value.1))
    else if s[0] == MINUS then
      if 1 < |s| && IsDigit(s[1]) then
        var (n, rest) := ParseDigits(s[1..], 0);
        Some((Number(0 - n), rest))
      else None
    else if IsDigit(s[0]) then
      var (n, rest) := ParseDigits(s, 0);
      Some((Number(n), rest))
    else None
  }

  function ParseItems(s: Text): (r: Option<(seq<Json>, Text)>)
    ensures r.Some? ==> |r.value.1| < |s|
    decreases |s|, 1
  {
    var first := ParseValue(s);
    if first.None? || first.value.1 == [] then None
    else
      var rest := first.value.1;
      if rest[0] == CLOSE_ARRAY then Some(([first.value.0], rest[1..]))
      else if rest[0] != COMMA then None
      else
        var others := ParseItems(rest[1..]);
        if others.None? then None else Some(([first.value.0] + others.value.0, others.value.1))
  }

  function ParseField(s: Text): (r: Option<(Field, Text)>)
    ensures r.Some? ==> |r.value.1| < |s|
    decreases |s|, 1
  {
    if s == [] || s[0] != QUOTE then None
    else
      var key := ParseString(s[1..]);
      if key.None? || key.value.1 == [] || key.value.1[0] != COLON then None
      else
        var value := ParseValue(key.value.1[1..]);
        if value.None? then None else Some((Field(key.value.0, value.value.0), value.value.1))
  }

  function ParseFields(s: Text): (r: Option<(seq<Field>, Text)>)
    ensures r.Some? ==> |r.value.1| < |s|
    decreases |s|, 2
  {
    var first := ParseField(s);
    if first.None? || first.value.1 == [] then None
    else
      var rest := first.value.1;
      if rest[0] == CLOSE_OBJECT then Some(([first.value.0], rest[1..]))
      else if rest[0] != COMMA then None
      else
        var others := ParseFields(rest[1..]);
        if others.None? then None else Some(([first.value.0] + others.value.0, others.value.1))
  }

  /** A whole document. */
  function Parse(s: Text): Option<Json> {
    var r := ParseValue(s);
    if r.Some? && r.value.1 == [] then Some(r.value.0) else None
  }

  // ---- canonical values ----

  function InsertField(f: Field, fields: seq<Field>): seq<Field> {
    if fields == [] || Before(f.key, fields[0].key) then [f] + fields else [fields[0]] + InsertField(f, fields[1..])
  }

  function SortFields(fields: seq<Field>): seq<Field> {
    if fields == [] then [] else InsertField(fields[0], SortFields(fields[1..]))
  }

  /** The same value with the members of every object in key order. */
  function Canon(v: Json): Json {
    match v
    case Arr(items) => Arr(CanonItems(items))
    case Obj(fields) => Obj(SortFields(CanonFields(fields)))
    case _ => v
  }

  function CanonItems(items: seq<Json>): (r: seq<Json>)
    ensures |r| == |items| && forall i | 0 <= i < |r| :: r[i] == Canon(items[i])
  {
    if items == [] then [] else [Canon(items[0])] + CanonItems(items[1..])
  }

  function CanonFields(fields: seq<Field>): (r: seq<Field>)
    ensures |r| == |fields| && forall i | 0 <= i < |r| :: r[i] == Field(fields[i].key, Canon(fields[i].value))
  {
    if fields == [] then [] else [Field(fields[0].key, Canon(fields[0].value))] + CanonFields(fields[1..])
  }

  /** The member of an object with a given key. */
  function Lookup(fields: seq<Field>, key: Text): Option<Json> {
    if fields == [] then None
    else if fields[0].key == key then Some(fields[0].value)
    else Lookup(fields[1..], key)
  }

  /** Equality of values that does not see the order of object members. */
  predicate Same(v: Json, w: Json) {
    match v
    case Arr(items) => w.Arr? && |items| == |w.items| && forall i | 0 <= i < |items| :: Same(items[i], w.items[i])
    case Obj(fields) =>
      && w.Obj?
      && (forall i | 0 <= i < |fields| ::
            var other := Lookup(w.fields, fields[i].key);
            other.Some? && Same(fields[i].value, other.value))
      && (forall j | 0 <= j < |w.fields| :: Lookup(fields, w.fields[j].key).Some?)
    case _ => v == w
  }
}
