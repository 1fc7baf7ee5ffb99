/** The canonical printer can be read back, so distinct values print differently and key order does not show. */
module CanonicalJsonProofs {
  import opened Prelude
  import opened CanonicalJson

  // ---- strings read back ----

  lemma HexDigitReadsBack(d: int)
    requires 0 <= d < 16
    ensures Unhex(HexDigit(d)) == Some(d)
  {
  }

  lemma HexDigitsReadBack(u: CodeUnit)
    ensures UnescapeHex(HexDigits(u)) == Some(u)
  {
    hide HexDigit, Unhex;
    var p := u / 16;
    var q := p / 16;
    assert u == p * 16 + u % 16 && p == q * 16 + p % 16 && q == q / 16 * 16 + q % 16;
    HexDigitReadsBack(q / 16);
    HexDigitReadsBack(q % 16);
    HexDigitReadsBack(p % 16);
    HexDigitReadsBack(u % 16);
  }

  lemma UnicodeEscapeReadsBack(u: CodeUnit, t: Text)
    ensures ParseString(UnicodeEscape(u) + t) == Prepend(u, ParseString(t))
  {
    hide HexDigits, UnescapeHex;
    HexDigitsReadBack(u);
    var s := UnicodeEscape(u) + t;
    assert s[2..6] == HexDigits(u);
    assert s[6..] == t;
  }

  lemma ShortEscapeReadsBack(u: CodeUnit, t: Text)
    requires ShortEscape(u).Some?
    ensures ParseString([BACKSLASH, ShortEscape(u).value] + t) == Prepend(u, ParseString(t))
  {
    hide HexDigits, UnescapeHex;
    var s := [BACKSLASH, ShortEscape(u).value] + t;
    assert s[2..] == t;
  }

  lemma PlainUnitReadsBack(u: CodeUnit, t: Text)
    requires u != QUOTE && u != BACKSLASH
    ensures ParseString([u] + t) == Prepend(u, ParseString(t))
  {
    assert ([u] + t)[1..] == t;
  }

  lemma UnitReadsBack(style: Style, u: CodeUnit, paired: bool, t: Text)
    ensures ParseString(EscapeUnit(style, u, paired) + t) == Prepend(u, ParseString(t))
  {
    hide ParseString, UnicodeEscape;
    if ShortEscape(u).Some? {
      ShortEscapeReadsBack(u, t);
    } else if NeedsUnicode(style, u, paired) {
      UnicodeEscapeReadsBack(u, t);
    } else {
      PlainUnitReadsBack(u, t);
    }
  }

  lemma QuoteEnds(rest: Text)
    ensures ParseString([QUOTE] + rest) == Some(([], rest))
  {
    assert ([QUOTE] + rest)[1..] == rest;
  }

  /** An escaped string reads back as it was, up to its closing quote. */
  lemma {:induction false} StringReadsBack(style: Style, s: Text, inPair: bool, rest: Text)
    ensures ParseString(Escape(style, s, inPair) + ([QUOTE] + rest)) == Some((s, rest))
  {
    hide EscapeUnit, ParseString;
    if s == [] {
      assert Escape(style, s, inPair) + ([QUOTE] + rest) == [QUOTE] + rest;
      QuoteEnds(rest);
    } else {
      var opensPair := !inPair && IsHigh(s[0]) && 1 < |s| && IsLow(s[1]);
      var tail := Escape(style, s[1..], opensPair) + ([QUOTE] + rest);
      StringReadsBack(style, s[1..], opensPair, rest);
      UnitReadsBack(style, s[0], inPair || opensPair, tail);
      assert Escape(style, s, inPair) + ([QUOTE] + rest) == EscapeUnit(style, s[0], inPair || opensPair) + tail;
      assert [s[0]] + s[1..] == s;
    }
  }

  // ---- numbers read back ----

  /** What may follow a value: a number ends where no digit follows. */
  predicate Ends(rest: Text) {
    rest == [] || !IsDigit(rest[0])
  }

  /** Reading the digits of `n` and then some text is reading that text from `n` on. */
  lemma {:induction false} DigitsContinue(n: nat, rest: Text)
    ensures IsDigit(Digits(n)[0])
    ensures ParseDigits(Digits(n) + rest, 0) == ParseDigits(rest, n)
  {
    if n < 10 {
      assert (Digits(n) + rest)[1..] == rest;
    } else {
      var last := [ZERO + n % 10];
      DigitsContinue(n / 10, last + rest);
      assert Digits(n) + rest == Digits(n / 10) + (last + rest);
      assert (last + rest)[1..] == rest;
      assert n / 10 * 10 + n % 10 == n;
    }
  }

  lemma NumberReadsBack(n: int, rest: Text)
    requires Ends(rest)
    ensures ParseValue(Decimal(n) + rest) == Some((Number(n), rest))
  {
    hide Digits;
    DigitsContinue(if n < 0 then -n else n, rest);
    if n < 0 {
      assert (Decimal(n) + rest)[1..] == Digits(-n) + rest;
    }
  }

  // ---- values read back ----

  /** Printed and read again, the value is in canonical form and the text behind it is untouched. */
  ghost predicate ReadsBack(style: Style, v: Json) {
    forall rest | Ends(rest) :: ParseValue(Print(style, v) + rest) == Some((Canon(v), rest))
  }

  lemma TextReadsBack(style: Style, s: Text, rest: Text)
    ensures ParseString((Quoted(style, s) + rest)[1..]) == Some((s, rest))
  {
    hide Escape, ParseString;
    StringReadsBack(style, s, false, rest);
    assert (Quoted(style, s) + rest)[1..] == Escape(style, s, false) + ([QUOTE] + rest);
  }

  lemma {:induction false} ItemsReadBack(style: Style, items: seq<Json>, rest: Text)
    requires items != [] && forall i | 0 <= i < |items| :: ReadsBack(style, items[i])
    ensures ParseItems(JoinTexts(PrintItems(style, items)) + ([CLOSE_ARRAY] + rest)) == Some((CanonItems(items), rest))
  {
    hide Print, Canon, ParseValue;
    var printed := PrintItems(style, items);
    var first := Print(style, items[0]);
    assert ReadsBack(style, items[0]);
    if |items| == 1 {
      var tail := [CLOSE_ARRAY] + rest;
      assert JoinTexts(printed) == first;
      assert Ends(tail) && tail[1..] == rest;
      assert CanonItems(items) == [Canon(items[0])];
    } else {
      var others := JoinTexts(PrintItems(style, items[1..])) + ([CLOSE_ARRAY] + rest);
      var tail := [COMMA] + others;
      ItemsReadBack(style, items[1..], rest);
      assert printed[1..] == PrintItems(style, items[1..]);
      assert JoinTexts(printed) + ([CLOSE_ARRAY] + rest) == first + tail;
      assert Ends(tail) && tail[1..] == others;
    }
  }

  function PrintedField(style: Style, f: Field): Text {
    Member(style, Part(f.key, Print(style, f.value)))
  }

  function PrintedFields(style: Style, fields: seq<Field>): Text {
    JoinTexts(Members(style, PrintParts(style, fields)))
  }

  lemma FieldReadsBack(style: Style, f: Field, rest: Text)
    requires ReadsBack(style, f.value) && Ends(rest)
    ensures ParseField(PrintedField(style, f) + rest) == Some((Field(f.key, Canon(f.value)), rest))
  {
    hide Print, Canon, ParseValue, ParseString, Escape;
    var text := Print(style, f.value);
    var tail := [COLON] + (text + rest);
    TextReadsBack(style, f.key, tail);
    assert Member(style, Part(f.key, text)) + rest == Quoted(style, f.key) + tail;
    assert tail[1..] == text + rest;
  }

  lemma PrintedFieldsSplit(style: Style, fields: seq<Field>)
    requires fields != []
    ensures PrintedFields(style, fields)
         == if |fields| == 1 then PrintedField(style, fields[0])
            else PrintedField(style, fields[0]) + [COMMA] + PrintedFields(style, fields[1..])
  {
    hide Print, Member;
    var parts := PrintParts(style, fields);
    var members := Members(style, parts);
    assert parts[0] == Part(fields[0].key, Print(style, fields[0].value))
           && parts[1..] == PrintParts(style, fields[1..]);
    assert members[0] == PrintedField(style, fields[0]) && members[1..] == Members(style, parts[1..]);
    MembersLength(style, parts);
  }

  lemma {:induction false} MembersLength(style: Style, parts: seq<Part>)
    ensures |Members(style, parts)| == |parts|
  {
    if parts != [] {
      MembersLength(style, parts[1..]);
    }
  }

  lemma {:induction false} FieldsReadBack(style: Style, fields: seq<Field>, rest: Text)
    requires fields != [] && forall i | 0 <= i < |fields| :: ReadsBack(style, fields[i].value)
    ensures ParseFields(PrintedFields(style, fields) + ([CLOSE_OBJECT] + rest)) == Some((CanonFields(fields), rest))
  {
    hide Print, Canon, ParseField, Member, PrintedField, PrintedFields, ReadsBack;
    var f := fields[0];
    PrintedFieldsSplit(style, fields);
    if |fields| == 1 {
      var tail := [CLOSE_OBJECT] + rest;
      FieldReadsBack(style, f, tail);
      assert tail[1..] == rest;
      assert CanonFields(fields) == [Field(f.key, Canon(f.value))];
    } else {
      var others := PrintedFields(style, fields[1..]) + ([CLOSE_OBJECT] + rest);
      var tail := [COMMA] + others;
      FieldsReadBack(style, fields[1..], rest);
      FieldReadsBack(style, f, tail);
      assert PrintedFields(style, fields) + ([CLOSE_OBJECT] + rest) == PrintedField(style, f) + tail;
      assert tail[1..] == others;
    }
  }

  // ---- sorting by key ----

  lemma {:induction false} InsertCommutes(style: Style, f: Field, fields: seq<Field>)
    ensures InsertPart(Part(f.key, Print(style, f.value)), PrintParts(style, fields))
              == PrintParts(style, InsertField(f, fields))
  {
    hide Print;
    if fields != [] && !Before(f.key, fields[0].key) {
      InsertCommutes(style, f, fields[1..]);
    }
  }

  /** Sorting what was printed is printing what was sorted. */
  lemma {:induction false} SortCommutes(style: Style, fields: seq<Field>)
    ensures SortParts(PrintParts(style, fields)) == PrintParts(style, SortFields(fields))
  {
    hide Print;
    if fields != [] {
      SortCommutes(style, fields[1..]);
      InsertCommutes(style, fields[0], SortFields(fields[1..]));
    }
  }

  lemma {:induction false} InsertFieldCanon(f: Field, fields: seq<Field>)
    ensures CanonFields(InsertField(f, fields)) == InsertField(Field(f.key, Canon(f.value)), CanonFields(fields))
  {
    hide Canon;
    if fields != [] && !Before(f.key, fields[0].key) {
      InsertFieldCanon(f, fields[1..]);
    }
  }

  lemma {:induction false} SortFieldsCanon(fields: seq<Field>)
    ensures CanonFields(SortFields(fields)) == SortFields(CanonFields(fields))
  {
    hide Canon;
    if fields != [] {
      SortFieldsCanon(fields[1..]);
      InsertFieldCanon(fields[0], SortFields(fields[1..]));
      assert CanonFields(fields)[1..] == CanonFields(fields[1..]);
    }
  }

  lemma {:induction false} InsertFieldMembers(f: Field, fields: seq<Field>)
    ensures |InsertField(f, fields)| == |fields| + 1
    ensures forall x :: x in InsertField(f, fields) <==> x == f || x in fields
  {
    if fields != [] && !Before(f.key, fields[0].key) {
      InsertFieldMembers(f, fields[1..]);
    }
  }

  lemma {:induction false} SortFieldsMembers(fields: seq<Field>)
    ensures |SortFields(fields)| == |fields|
    ensures forall x :: x in SortFields(fields) <==> x in fields
  {
    if fields != [] {
      SortFieldsMembers(fields[1..]);
      InsertFieldMembers(fields[0], SortFields(fields[1..]));
    }
  }

  lemma NoLiteral(s: Text)
    requires s != [] && s[0] in {OPEN_ARRAY, OPEN_OBJECT}
    ensures !(NULL_TEXT <= s) && !(TRUE_TEXT <= s) && !(FALSE_TEXT <= s)
  {
  }

  /** What follows an opening bracket is an empty array or its items. */
  lemma ArrayIsParsed(s: Text)
    ensures ParseValue([OPEN_ARRAY] + s) ==
            if s != [] && s[0] == CLOSE_ARRAY then Some((Arr([]), s[1..]))
            else if ParseItems(s).None? then None
            else Some((Arr(ParseItems(s).value.0), ParseItems(s).value.1))
  {
    hide ParseItems;
    var t := [OPEN_ARRAY] + s;
    NoLiteral(t);
    assert t[1..] == s && (s != [] ==> t[1] == s[0] && t[2..] == s[1..]);
  }

  /** What follows an opening brace is an empty object or its members. */
  lemma ObjectIsParsed(s: Text)
    ensures ParseValue([OPEN_OBJECT] + s) ==
            if s != [] && s[0] == CLOSE_OBJECT then Some((Obj([]), s[1..]))
            else if ParseFields(s).None? then None
            else Some((Obj(ParseFields(s).value.0), ParseFields(s).value.1))
  {
    hide ParseFields;
    var t := [OPEN_OBJECT] + s;
    NoLiteral(t);
    assert t[1..] == s && (s != [] ==> t[1] == s[0] && t[2..] == s[1..]);
  }

  lemma ItemsInBrackets(style: Style, items: seq<Json>, rest: Text)
    requires forall i | 0 <= i < |items| :: ReadsBack(style, items[i])
    ensures ParseValue([OPEN_ARRAY] + JoinTexts(PrintItems(style, items)) + ([CLOSE_ARRAY] + rest))
              == Some((Arr(CanonItems(items)), rest))
  {
    hide JoinTexts, ParseItems, ParseValue, ReadsBack, PrintItems, CanonItems;
    var inner := JoinTexts(PrintItems(style, items)) + ([CLOSE_ARRAY] + rest);
    assert [OPEN_ARRAY] + JoinTexts(PrintItems(style, items)) + ([CLOSE_ARRAY] + rest) == [OPEN_ARRAY] + inner;
    ArrayIsParsed(inner);
    if items == [] {
      NoItems(style);
      assert inner == [CLOSE_ARRAY] + rest;
      assert inner[1..] == rest;
    } else {
      ItemsReadBack(style, items, rest);
      ItemsDoNotClose(style, items, rest);
    }
  }

  lemma ArrayReadsBack(style: Style, items: seq<Json>)
    requires forall i | 0 <= i < |items| :: ReadsBack(style, items[i])
    ensures ReadsBack(style, Arr(items))
  {
    hide JoinTexts, PrintItems, CanonItems, ParseValue;
    forall rest | Ends(rest)
      ensures ParseValue(Print(style, Arr(items)) + rest) == Some((Canon(Arr(items)), rest))
    {
      ItemsInBrackets(style, items, rest);
      assert Print(style, Arr(items)) + rest
             == [OPEN_ARRAY] + JoinTexts(PrintItems(style, items)) + ([CLOSE_ARRAY] + rest);
    }
  }

  lemma NoItems(style: Style)
    ensures JoinTexts(PrintItems(style, [])) == [] && CanonItems([]) == []
  {
  }

  /** No printed value starts like the end of an array. */
  lemma {:induction false} ValueStarts(style: Style, v: Json)
    ensures Print(style, v) != [] && Print(style, v)[0] != CLOSE_ARRAY
  {
    if v.Number? {
      DigitsContinue(if v.n < 0 then -v.n else v.n, []);
    }
  }

  lemma ItemsDoNotClose(style: Style, items: seq<Json>, rest: Text)
    requires items != []
    ensures var inner := JoinTexts(PrintItems(style, items)) + ([CLOSE_ARRAY] + rest);
            inner != [] && inner[0] != CLOSE_ARRAY
  {
    hide Print;
    ValueStarts(style, items[0]);
  }

  lemma FieldsDoNotClose(style: Style, fields: seq<Field>, rest: Text)
    requires fields != []
    ensures var inner := PrintedFields(style, fields) + ([CLOSE_OBJECT] + rest); inner != [] && inner[0] == QUOTE
  {
    hide Print, PrintedFields;
    PrintedFieldsSplit(style, fields);
  }

  lemma MembersReadBack(style: Style, sorted: seq<Field>, rest: Text)
    requires forall i | 0 <= i < |sorted| :: ReadsBack(style, sorted[i].value)
    ensures ParseValue([OPEN_OBJECT] + PrintedFields(style, sorted) + ([CLOSE_OBJECT] + rest))
              == Some((Obj(CanonFields(sorted)), rest))
  {
    hide PrintedFields, ParseFields, ParseValue, ReadsBack, CanonFields;
    var inner := PrintedFields(style, sorted) + ([CLOSE_OBJECT] + rest);
    assert [OPEN_OBJECT] + PrintedFields(style, sorted) + ([CLOSE_OBJECT] + rest) == [OPEN_OBJECT] + inner;
    ObjectIsParsed(inner);
    if sorted == [] {
      NoMembers(style);
      assert inner == [CLOSE_OBJECT] + rest;
      assert inner[1..] == rest;
    } else {
      FieldsReadBack(style, sorted, rest);
      FieldsDoNotClose(style, sorted, rest);
    }
  }

  lemma SortedReadBack(style: Style, fields: seq<Field>)
    requires forall i | 0 <= i < |fields| :: ReadsBack(style, fields[i].value)
    ensures forall i | 0 <= i < |SortFields(fields)| :: ReadsBack(style, SortFields(fields)[i].value)
  {
    hide ReadsBack;
    SortFieldsMembers(fields);
    forall i | 0 <= i < |SortFields(fields)|
      ensures ReadsBack(style, SortFields(fields)[i].value)
    {
      assert SortFields(fields)[i] in fields;
    }
  }

  lemma ObjectIsMembers(style: Style, fields: seq<Field>)
    ensures Print(style, Obj(fields)) == [OPEN_OBJECT] + PrintedFields(style, SortFields(fields)) + [CLOSE_OBJECT]
    ensures Canon(Obj(fields)) == Obj(CanonFields(SortFields(fields)))
  {
    SortCommutes(style, fields);
    SortFieldsCanon(fields);
  }

  lemma ObjectReadsBack(style: Style, fields: seq<Field>)
    requires forall i | 0 <= i < |fields| :: ReadsBack(style, fields[i].value)
    ensures ReadsBack(style, Obj(fields))
  {
    hide Print, Canon, PrintedFields, CanonFields, SortFields, ParseValue;
    var sorted := SortFields(fields);
    SortedReadBack(style, fields);
    ObjectIsMembers(style, fields);
    forall rest | Ends(rest)
      ensures ParseValue(Print(style, Obj(fields)) + rest) == Some((Canon(Obj(fields)), rest))
    {
      hide ReadsBack;
      MembersReadBack(style, sorted, rest);
      assert Print(style, Obj(fields)) + rest
             == [OPEN_OBJECT] + PrintedFields(style, sorted) + ([CLOSE_OBJECT] + rest);
    }
  }

  lemma NoMembers(style: Style)
    ensures PrintedFields(style, []) == [] && CanonFields([]) == []
  {
  }

  lemma StringValueReadsBack(style: Style, s: Text)
    ensures ReadsBack(style, Str(s))
  {
    hide Escape, ParseString;
    forall rest | Ends(rest)
      ensures ParseValue(Print(style, Str(s)) + rest) == Some((Str(s), rest))
    {
      var t := Quoted(style, s) + rest;
      assert t[0] == QUOTE;
      assert !(NULL_TEXT <= t) && !(TRUE_TEXT <= t) && !(FALSE_TEXT <= t);
      TextReadsBack(style, s, rest);
    }
  }

  lemma NumberValueReadsBack(style: Style, n: int)
    ensures ReadsBack(style, Number(n))
  {
    forall rest | Ends(rest)
      ensures ParseValue(Print(style, Number(n)) + rest) == Some((Number(n), rest))
    {
      NumberReadsBack(n, rest);
    }
  }

  lemma LiteralReadsBack(style: Style, v: Json)
    requires v.Null? || v.Bool?
    ensures ReadsBack(style, v)
  {
    forall rest | Ends(rest)
      ensures ParseValue(Print(style, v) + rest) == Some((v, rest))
    {
      var s := Print(style, v) + rest;
      assert s[0] == Print(style, v)[0];
      assert Print(style, v) <= s && s[|Print(style, v)|..] == rest;
      assert s[0] != NULL_TEXT[0] ==> !(NULL_TEXT <= s);
      assert s[0] != TRUE_TEXT[0] ==> !(TRUE_TEXT <= s);
    }
  }

  lemma {:induction false} EveryValueReadsBack(style: Style, v: Json)
    ensures ReadsBack(style, v)
  {
    match v
    case Number(n) => NumberValueReadsBack(style, n);
    case Str(s) => StringValueReadsBack(style, s);
    case Arr(items) =>
      forall i | 0 <= i < |items|
        ensures ReadsBack(style, items[i])
      {
        EveryValueReadsBack(style, items[i]);
      }
      ArrayReadsBack(style, items);
    case Obj(fields) =>
      forall i | 0 <= i < |fields|
        ensures ReadsBack(style, fields[i].value)
      {
        EveryValueReadsBack(style, fields[i].value);
      }
      ObjectReadsBack(style, fields);
    case _ => LiteralReadsBack(style, v);
  }

  /** The left inverse: parsing a canonical document gives the value back, its object members in key order. */
  lemma ParsePrint(style: Style, v: Json)
    ensures Parse(Print(style, v)) == Some(Canon(v))
  {
    EveryValueReadsBack(style, v);
    assert Print(style, v) + [] == Print(style, v);
    assert ParseValue(Print(style, v) + []) == Some((Canon(v), []));
  }

  // ---- the text itself, in character codes ----

  /** The digits are those of ASCII. */
  lemma HexDigitExact(d: int)
    requires 0 <= d < 16
    ensures HexDigit(d) == Ascii("0123456789abcdef")[d]
  {
  }

  lemma LiteralsExact(style: Style)
    ensures Print(style, Null) == Ascii("null")
    ensures Print(style, Bool(true)) == Ascii("true") && Print(style, Bool(false)) == Ascii("false")
  {
    assert Ascii("null") == [110, 117, 108, 108];
    assert Ascii("true") == [116, 114, 117, 101];
    assert Ascii("false") == [102, 97, 108, 115, 101];
  }

  /** An array: `[`, the items with `,` between them, `]`. */
  lemma ArrayExact(style: Style, v: Json, items: seq<Json>)
    ensures Print(style, Arr([])) == [91, 93] && Print(style, Arr([v])) == [91] + Print(style, v) + [93]
    ensures items != [] ==>
              Print(style, Arr([v] + items)) == [91] + Print(style, v) + [44] + Print(style, Arr(items))[1..]
  {
    assert PrintItems(style, [v]) == [Print(style, v)];
    if items != [] {
      ArraySplits(style, v, items);
    }
  }

  lemma ArraySplits(style: Style, v: Json, items: seq<Json>)
    requires items != []
    ensures Print(style, Arr([v] + items)) == [91] + Print(style, v) + [44] + Print(style, Arr(items))[1..]
  {
    var texts := PrintItems(style, items);
    assert ([v] + items)[1..] == items;
    assert PrintItems(style, [v] + items) == [Print(style, v)] + texts;
    hide PrintItems;
    assert ([Print(style, v)] + texts)[1..] == texts;
    assert JoinTexts([Print(style, v)] + texts) == Print(style, v) + [COMMA] + JoinTexts(texts);
    assert Print(style, Arr(items)) == [OPEN_ARRAY] + JoinTexts(texts) + [CLOSE_ARRAY];
    hide JoinTexts;
    assert Print(style, Arr(items))[1..] == JoinTexts(texts) + [CLOSE_ARRAY];
  }

  /** A member: its quoted key, `:` and its value. */
  lemma MemberExact(style: Style, key: Text, text: Text)
    ensures Member(style, Part(key, text)) == Print(style, Str(key)) + [58] + text
  {
  }

  /** An object: `{`, its members in key order with `,` between them, `}`. */
  lemma ObjectExact(style: Style, f: Field, g: Field)
    requires Before(f.key, g.key)
    ensures var p, q := Part(f.key, Print(style, f.value)), Part(g.key, Print(style, g.value));
            && Print(style, Obj([])) == [123, 125]
            && Print(style, Obj([f])) == [123] + Member(style, p) + [125]
            && Print(style, Obj([g, f])) == [123] + Member(style, p) + [44] + Member(style, q) + [125]
  {
    var p, q := Part(f.key, Print(style, f.value)), Part(g.key, Print(style, g.value));
    TwoParts(style, f, g);
    TwoMembers(style, p, q);
    NoMembersToPrint(style);
    hide JoinTexts, Members, SortParts, PrintParts, Member;
    ObjectText(style, [f], Member(style, p));
    ObjectText(style, [g, f], Member(style, p) + [COMMA] + Member(style, q));
    ObjectText(style, [], []);
  }

  lemma ObjectText(style: Style, fields: seq<Field>, inner: Text)
    requires JoinTexts(Members(style, SortParts(PrintParts(style, fields)))) == inner
    ensures Print(style, Obj(fields)) == [123] + inner + [125]
  {
    hide JoinTexts, Members, SortParts, PrintParts;
  }

  lemma NoMembersToPrint(style: Style)
    ensures JoinTexts(Members(style, SortParts(PrintParts(style, [])))) == []
  {
  }

  lemma TwoParts(style: Style, f: Field, g: Field)
    requires Before(f.key, g.key)
    ensures var p, q := Part(f.key, Print(style, f.value)), Part(g.key, Print(style, g.value));
            SortParts(PrintParts(style, [f])) == [p] && SortParts(PrintParts(style, [g, f])) == [p, q]
  {
    hide Print;
    OrderIsTotal(f.key, g.key);
    var p, q := Part(f.key, Print(style, f.value)), Part(g.key, Print(style, g.value));
    assert [g, f][1..] == [f] && [f][1..] == [];
    assert PrintParts(style, [f]) == [p] && PrintParts(style, [g, f]) == [q] + [p];
    assert [q, p][1..] == [p] && [p][1..] == [];
    assert SortParts([p]) == [p];
    assert SortParts([q, p]) == InsertPart(q, [p]) == [p] + InsertPart(q, []) == [p, q];
  }

  lemma TwoMembers(style: Style, p: Part, q: Part)
    ensures JoinTexts(Members(style, [p])) == Member(style, p)
    ensures JoinTexts(Members(style, [p, q])) == Member(style, p) + [COMMA] + Member(style, q)
  {
    hide Member;
    assert [p, q][1..] == [q] && [q][1..] == [] && [p][1..] == [];
    assert Members(style, [q]) == [Member(style, q)] && Members(style, [p]) == [Member(style, p)];
    assert Members(style, [p, q]) == [Member(style, p), Member(style, q)];
    assert [Member(style, p), Member(style, q)][1..] == [Member(style, q)];
  }

  /** Decimal digits, the most significant first, and `-` in front of a negative number. */
  lemma NumberExact(style: Style, n: nat)
    ensures n < 10 ==> Print(style, Number(n)) == [HexDigit(n)]
    ensures 10 <= n ==> Print(style, Number(n)) == Print(style, Number(n / 10)) + [HexDigit(n % 10)]
    ensures 0 < n ==> Print(style, Number(0 - n)) == [45] + Print(style, Number(n))
  {
    assert 10 <= n ==> Digits(n) == Digits(n / 10) + [ZERO + n % 10];
  }

  /** How a unit of a string is written: as itself, in two characters or in six. */
  lemma UnitExact(style: Style, u: CodeUnit, paired: bool)
    ensures EscapeUnit(style, u, paired)
         == if u == 34 then [92, 34]
            else if u == 92 then [92, 92]
            else if u == 8 then [92, 98]
            else if u == 9 then [92, 116]
            else if u == 10 then [92, 110]
            else if u == 12 then [92, 102]
            else if u == 13 then [92, 114]
            else if u < 32 || (style == Python && 126 < u) || (style == TypeScript && 0xD800 <= u < 0xE000 && !paired)
            then [92, 117, HexDigit(u / 4096), HexDigit(u / 256 % 16), HexDigit(u / 16 % 16), HexDigit(u % 16)]
            else [u]
  {
    hide HexDigit;
    assert u / 16 / 16 / 16 == u / 4096 && u / 16 / 16 == u / 256;
  }

  /** A string is quoted; its units are paired if they are the halves of a surrogate pair. */
  lemma StringExact(style: Style, u: CodeUnit, v: CodeUnit)
    ensures Print(style, Str([])) == [34, 34]
    ensures Print(style, Str([u])) == [34] + EscapeUnit(style, u, false) + [34]
    ensures var pair := 0xD800 <= u < 0xDC00 <= v < 0xE000;
            Print(style, Str([u, v])) == [34] + EscapeUnit(style, u, pair) + EscapeUnit(style, v, pair) + [34]
  {
    var pair := 0xD800 <= u < 0xDC00 <= v < 0xE000;
    EscapeOne(style, u, false);
    EscapeOne(style, v, pair);
    EscapeTwo(style, u, v);
    hide EscapeUnit, Escape;
    EscapeNone(style);
  }

  lemma EscapeNone(style: Style)
    ensures Escape(style, [], false) == []
  {
  }

  lemma EscapeOne(style: Style, u: CodeUnit, inPair: bool)
    ensures Escape(style, [u], inPair) == EscapeUnit(style, u, inPair)
  {
    hide EscapeUnit;
    assert [u][1..] == [];
    assert Escape(style, [u], inPair) == EscapeUnit(style, u, inPair) + Escape(style, [], false);
  }

  lemma EscapeTwo(style: Style, u: CodeUnit, v: CodeUnit)
    ensures var pair := 0xD800 <= u < 0xDC00 <= v < 0xE000;
            Escape(style, [u, v], false) == EscapeUnit(style, u, pair) + Escape(style, [v], pair)
  {
    hide EscapeUnit;
    assert [u, v][1..] == [v];
  }
}
