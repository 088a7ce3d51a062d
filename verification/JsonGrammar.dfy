/** JSON texts by the grammar of RFC 8259, written down from its sections 2 to 7, and what cJSON_Parse makes of any text. */
module JsonGrammar {
  import opened Prelude
  import opened JsonText
  import opened JsonParse
  import opened JsonMeaning
  import opened JsonNumerals

  /** A string literal: by the tokens of the grammar; or one that parse_string takes although the grammar does not allow it. */
  datatype Quote = Proper(ts: seq<Token>) | Loose(body: Text, value: Text)

  /** A value as it is written, with the white space inside it. */
  datatype Doc =
    | Word(t: Json)
    | Numeric(n: Numeral)
    | Textual(q: Quote)
    | List(blank: Text, elems: Elems)
    | Record(blank: Text, fields: Fields)

  datatype Elems = NoElems | Elem(before: Text, value: Doc, after: Text, next: Elems)

  datatype Fields =
    NoFields | Field(before: Text, name: Quote, middle: Text, behind: Text, value: Doc, after: Text, next: Fields)

  // ----- the text of a document, with rest behind it

  function QuoteText(q: Quote, rest: Text): Text {
    [0x22] + if q.Proper? then Literal(q.ts, rest) else q.body + rest
  }

  /** null, false and true. */
  function WordText(t: Json): Text {
    match t
    case Null => [0x6E, 0x75, 0x6C, 0x6C]
    case False => [0x66, 0x61, 0x6C, 0x73, 0x65]
    case True => [0x74, 0x72, 0x75, 0x65]
    case _ => []
  }

  /** Brackets and commas make an array, braces, colons and commas an object. */
  function DocText(d: Doc, rest: Text): Text
    decreases d, 0
  {
    match d
    case Word(t) => WordText(t) + rest
    case Numeric(n) => NumeralText(n, rest)
    case Textual(q) => QuoteText(q, rest)
    case List(blank, elems) => [0x5B] + (blank + ElemsText(elems, [0x5D] + rest))
    case Record(blank, fields) => [0x7B] + (blank + FieldsText(fields, [0x7D] + rest))
  }

  function ElemsText(elems: Elems, rest: Text): Text
    decreases elems, 0
  {
    match elems
    case NoElems => rest
    case Elem(before, value, after, next) => before + DocText(value, after + MoreElems(next, rest))
  }

  function MoreElems(elems: Elems, rest: Text): Text
    decreases elems, 1
  {
    if elems.NoElems? then rest else [0x2C] + ElemsText(elems, rest)
  }

  function FieldsText(fields: Fields, rest: Text): Text
    decreases fields, 0
  {
    match fields
    case NoFields => rest
    case Field(before, name, middle, behind, value, after, next) =>
      before + QuoteText(name, middle + ([0x3A] + (behind + DocText(value, after + MoreFields(next, rest)))))
  }

  function MoreFields(fields: Fields, rest: Text): Text
    decreases fields, 1
  {
    if fields.NoFields? then rest else [0x2C] + FieldsText(fields, rest)
  }

  // ----- the tree of a document

  function QuoteValue(q: Quote): Text {
    if q.Proper? then Forms(Taken(q.ts)) else q.value
  }

  function Tree(d: Doc): Json {
    match d
    case Word(t) => t
    case Numeric(n) => Num(Meant(n))
    case Textual(q) => Str(QuoteValue(q))
    case List(_, elems) => Arr(Children(elems))
    case Record(_, fields) => Obj(Entries(fields))
  }

  function Children(elems: Elems): Items {
    if elems.NoElems? then NoItems else Item(Tree(elems.value), Children(elems.next))
  }

  function Entries(fields: Fields): Members {
    if fields.NoFields? then NoMembers else Member(QuoteValue(fields.name), Tree(fields.value), Entries(fields.next))
  }

  // ----- what parse_value takes

  /** White space, which skip takes any control character for. */
  predicate Blank(s: Text) {
    forall k :: 0 <= k < |s| ==> 0 < s[k] <= 32
  }

  ghost predicate IsQuote(q: Quote, rest: Text) {
    match q
    case Proper(ts) => Tokens(ts)
    case Loose(body, value) => !WellFormed(body + rest) && String([0x22] + (body + rest)) == Ok(value, rest)
  }

  /** d is written by the rules, in front of rest; a number ends there. */
  ghost predicate Fits(d: Doc, rest: Text) {
    match d
    case Word(t) => t.Null? || t.False? || t.True?
    case Numeric(n) => IsNumeral(n) && Ends(n, rest)
    case Textual(q) => IsQuote(q, rest)
    case List(blank, elems) => Blank(blank) && FitElems(elems, [0x5D] + rest)
    case Record(blank, fields) => Blank(blank) && FitFields(fields, [0x7D] + rest)
  }

  ghost predicate FitElems(elems: Elems, rest: Text) {
    match elems
    case NoElems => true
    case Elem(before, value, after, next) =>
      Blank(before) && Blank(after) && Fits(value, after + MoreElems(next, rest)) && FitElems(next, rest)
  }

  ghost predicate FitFields(fields: Fields, rest: Text) {
    match fields
    case NoFields => true
    case Field(before, name, middle, behind, value, after, next) =>
      var inner := after + MoreFields(next, rest);
      && Blank(before) && Blank(middle) && Blank(behind) && Blank(after)
      && IsQuote(name, middle + ([0x3A] + (behind + DocText(value, inner))))
      && Fits(value, inner) && FitFields(next, rest)
  }

  // ----- white space

  predicate Bare(text: Text) {
    Peek(text) == 0 || Peek(text) > 32
  }

  lemma {:induction false} BlankSkipped(s: Text, text: Text)
    requires Blank(s)
    ensures Skip(s + text) == Skip(text)
    decreases |s|
  {
    if s == [] {
      assert s + text == text;
    } else {
      assert (s + text)[1..] == s[1..] + text;
      BlankSkipped(s[1..], text);
    }
  }

  lemma BlankOff(s: Text, text: Text)
    requires Blank(s) && Bare(text)
    ensures Skip(s + text) == text
  {
    BlankSkipped(s, text);
  }

  lemma {:induction false} BlankOf(text: Text) returns (s: Text)
    ensures Blank(s) && text == s + Skip(text) && Bare(Skip(text))
    decreases |text|
  {
    if Bare(text) {
      s := [];
    } else {
      var more := BlankOf(text[1..]);
      s := [text[0]] + more;
      assert text == [text[0]] + (more + Skip(text[1..]));
    }
  }

  // ----- every document is read

  /** The first byte of a document says what it is. */
  lemma DocStart(d: Doc, rest: Text)
    requires Fits(d, rest)
    ensures var c := Peek(DocText(d, rest));
            && c > 32 && c != RBRACKET && c != RBRACE
            && (d.Textual? <==> c == QUOTE) && (d.Numeric? <==> c == MINUS || IsDigit(c))
            && (d.List? <==> c == LBRACKET) && (d.Record? <==> c == LBRACE)
  {
    if d.Numeric? {
      NumeralRead(d.n, rest);
    }
  }

  lemma WordRead(t: Json, rest: Text)
    requires t.Null? || t.False? || t.True?
    ensures Value(WordText(t) + rest) == Ok(t, rest)
  {
    var text := WordText(t) + rest;
    assert text[|WordText(t)|..] == rest && text[..|WordText(t)|] == WordText(t);
    assert t.Null? ==> WordText(t) == NULL_TEXT;
    assert t.False? ==> WordText(t) == FALSE_TEXT && text[0] != NULL_TEXT[0];
    assert t.True? ==> WordText(t) == TRUE_TEXT && text[0] != NULL_TEXT[0] && text[0] != FALSE_TEXT[0];
  }

  lemma QuoteRead(q: Quote, rest: Text)
    requires IsQuote(q, rest)
    ensures String(QuoteText(q, rest)) == Ok(QuoteValue(q), rest)
  {
    if q.Proper? {
      StringTaken(q.ts, rest);
    }
  }

  /** parse_value on a document: its tree, and the text behind it. */
  lemma {:induction false} DocRead(d: Doc, rest: Text)
    requires Fits(d, rest)
    ensures Value(DocText(d, rest)) == Ok(Tree(d), rest)
    decreases d, 0
  {
    hide String, Number, Array, Object, QuoteText, NumeralText, ElemsText, FieldsText;
    DocStart(d, rest);
    match d
    case Word(t) => WordRead(t, rest);
    case Numeric(n) => NumeralRead(n, rest);
    case Textual(q) => QuoteRead(q, rest);
    case List(blank, elems) => ListRead(blank, elems, rest);
    case Record(blank, fields) => RecordRead(blank, fields, rest);
  }

  lemma {:induction false} ListRead(blank: Text, elems: Elems, rest: Text)
    requires Blank(blank) && FitElems(elems, [0x5D] + rest)
    ensures Array([0x5B] + (blank + ElemsText(elems, [0x5D] + rest))) == Ok(Arr(Children(elems)), rest)
    decreases elems, 2
  {
    var close, inner := [0x5D] + rest, ElemsText(elems, [0x5D] + rest);
    var text := [0x5B] + (blank + inner);
    assert text[1..] == blank + inner && close[1..] == rest;
    if elems.NoElems? {
      BlankOff(blank, close);
    } else {
      BlankSkipped(blank, inner);
      ElemsStart(elems, close);
      ElemsRead(elems, close);
      ElementsSkipped(inner);
    }
  }

  lemma ElemsStart(elems: Elems, rest: Text)
    requires elems.Elem? && FitElems(elems, rest)
    ensures var v := DocText(elems.value, elems.after + MoreElems(elems.next, rest));
            Skip(ElemsText(elems, rest)) == v && Peek(v) != RBRACKET
  {
    var tail := elems.after + MoreElems(elems.next, rest);
    DocStart(elems.value, tail);
    BlankOff(elems.before, DocText(elems.value, tail));
  }

  lemma ElementsSkipped(text: Text)
    ensures Elements(Skip(text)) == Elements(text)
  {
    var s := BlankOf(text);
  }

  lemma {:induction false} ElemsRead(elems: Elems, rest: Text)
    requires elems.Elem? && FitElems(elems, rest) && Peek(rest) == RBRACKET
    ensures Elements(ElemsText(elems, rest)) == Ok(Children(elems), rest)
    decreases elems, 1
  {
    hide Fits, DocText, Value, Skip;
    var more := MoreElems(elems.next, rest);
    ElemsStart(elems, rest);
    DocRead(elems.value, elems.after + more);
    BlankOff(elems.after, more);
    if elems.next.Elem? {
      assert more[1..] == ElemsText(elems.next, rest);
      ElemsRead(elems.next, rest);
    }
  }

  lemma {:induction false} RecordRead(blank: Text, fields: Fields, rest: Text)
    requires Blank(blank) && FitFields(fields, [0x7D] + rest)
    ensures Object([0x7B] + (blank + FieldsText(fields, [0x7D] + rest))) == Ok(Obj(Entries(fields)), rest)
    decreases fields, 2
  {
    var close, inner := [0x7D] + rest, FieldsText(fields, [0x7D] + rest);
    var text := [0x7B] + (blank + inner);
    assert text[1..] == blank + inner && close[1..] == rest;
    if fields.NoFields? {
      BlankOff(blank, close);
    } else {
      BlankSkipped(blank, inner);
      FieldStart(fields, close);
      FieldsRead(fields, close);
      PairsSkipped(inner);
    }
  }

  lemma FieldStart(fields: Fields, rest: Text)
    requires fields.Field? && FitFields(fields, rest)
    ensures var inner := fields.after + MoreFields(fields.next, rest);
            var name := QuoteText(fields.name, fields.middle + ([0x3A] + (fields.behind + DocText(fields.value, inner))));
            Skip(FieldsText(fields, rest)) == name && Peek(name) == QUOTE
  {
    var inner := fields.after + MoreFields(fields.next, rest);
    BlankOff(fields.before, QuoteText(fields.name, fields.middle + ([0x3A] + (fields.behind + DocText(fields.value, inner)))));
  }

  lemma PairsSkipped(text: Text)
    ensures Pairs(Skip(text)) == Pairs(text)
  {
    var s := BlankOf(text);
    assert Pair(Skip(text)) == Pair(text);
  }

  lemma {:induction false} FieldRead(fields: Fields, rest: Text)
    requires fields.Field? && FitFields(fields, rest)
    ensures Pair(FieldsText(fields, rest))
         == Ok((QuoteValue(fields.name), Tree(fields.value)), fields.after + MoreFields(fields.next, rest))
    decreases fields, 0
  {
    hide Fits, DocText, Value, Skip, String, QuoteText, FieldsText, IsQuote;
    var inner := fields.after + MoreFields(fields.next, rest);
    var value := DocText(fields.value, inner);
    var colon := [0x3A] + (fields.behind + value);
    FieldStart(fields, rest);
    QuoteRead(fields.name, fields.middle + colon);
    BlankOff(fields.middle, colon);
    assert colon[1..] == fields.behind + value;
    DocStart(fields.value, inner);
    BlankOff(fields.behind, value);
    DocRead(fields.value, inner);
  }

  lemma {:induction false} FieldsRead(fields: Fields, rest: Text)
    requires fields.Field? && FitFields(fields, rest) && Peek(rest) == RBRACE
    ensures Pairs(FieldsText(fields, rest)) == Ok(Entries(fields), rest)
    decreases fields, 1
  {
    hide Fits, DocText, Pair, Skip;
    var more := MoreFields(fields.next, rest);
    FieldRead(fields, rest);
    BlankOff(fields.after, more);
    if fields.next.Field? {
      assert more[1..] == FieldsText(fields.next, rest);
      FieldsRead(fields.next, rest);
    }
  }

  // ----- whatever is read is a document

  lemma QuoteOf(text: Text) returns (q: Quote)
    requires String(text).Ok?
    ensures var r := String(text); IsQuote(q, r.rest) && text == QuoteText(q, r.rest) && QuoteValue(q) == r.value
  {
    var r, inner := String(text), text[1..];
    assert text == [0x22] + inner;
    if WellFormed(inner) {
      var ts, rest := Tokenized(inner);
      StringTaken(ts, rest);
      q := Proper(ts);
    } else {
      StringSuffix(text);
      var body := inner[..|inner| - |r.rest|];
      assert inner == body + r.rest;
      q := Loose(body, r.value);
    }
  }

  /** What parse_string leaves is the end of the text. */
  lemma StringSuffix(text: Text)
    requires String(text).Ok?
    ensures var rest := String(text).rest; |rest| < |text| && text[|text| - |rest|..] == rest
  {
    BodySuffix(text[1..]);
  }

  lemma {:induction false} BodySuffix(text: Text)
    requires Body(text).Ok?
    ensures var rest := Body(text).rest; |rest| <= |text| && text[|text| - |rest|..] == rest
    decreases |text|
  {
    if Peek(text) != QUOTE && Peek(text) != 0 {
      hide Char;
      BodySuffix(text[Char(text).value.1..]);
    }
  }

  lemma {:induction false} DocOf(text: Text) returns (d: Doc)
    requires Value(text).Ok?
    ensures var r := Value(text); Fits(d, r.rest) && text == DocText(d, r.rest) && Tree(d) == r.value
    decreases |text|, 1
  {
    hide String, Number, Array, Object, Skip;
    if StartsWith(text, NULL_TEXT) || StartsWith(text, FALSE_TEXT) || StartsWith(text, TRUE_TEXT) {
      d := Word(Value(text).value);
      assert text == WordText(d.t) + Value(text).rest;
    } else if Peek(text) == QUOTE {
      var q := QuoteOf(text);
      d := Textual(q);
    } else if Peek(text) == MINUS || IsDigit(Peek(text)) {
      var n, rest := NumeralOf(text);
      NumeralRead(n, rest);
      d := Numeric(n);
    } else if Peek(text) == LBRACKET {
      d := ListOf(text);
    } else {
      d := RecordOf(text);
    }
  }

  lemma {:induction false} ListOf(text: Text) returns (d: Doc)
    requires Peek(text) == LBRACKET && Array(text).Ok?
    ensures var r := Array(text); Fits(d, r.rest) && text == DocText(d, r.rest) && Tree(d) == r.value
    decreases |text|, 0
  {
    hide Skip, Elements, ElemsText, FitElems, Blank, Fits, DocText, Tree;
    var t, rest := Skip(text[1..]), Array(text).rest;
    var blank := BlankOf(text[1..]);
    assert text == [0x5B] + (blank + t);
    var elems := NoElems;
    if Peek(t) == RBRACKET {
      NoElemsFit([0x5D] + rest);
      assert t == [0x5D] + rest;
    } else {
      elems := ElemsOf(t);
      assert Elements(t).rest == [0x5D] + rest;
    }
    ListFits(blank, elems, rest);
    d := List(blank, elems);
  }

  lemma NoElemsFit(rest: Text)
    ensures FitElems(NoElems, rest) && ElemsText(NoElems, rest) == rest && Children(NoElems) == NoItems
  {
  }

  lemma ListFits(blank: Text, elems: Elems, rest: Text)
    requires Blank(blank) && FitElems(elems, [0x5D] + rest)
    ensures var d := List(blank, elems);
            && Fits(d, rest) && Tree(d) == Arr(Children(elems))
            && DocText(d, rest) == [0x5B] + (blank + ElemsText(elems, [0x5D] + rest))
  {
  }

  lemma {:induction false} ElemsOf(text: Text) returns (elems: Elems)
    requires Elements(text).Ok?
    ensures var r := Elements(text); FitElems(elems, r.rest) && text == ElemsText(elems, r.rest) && Children(elems) == r.value
    decreases |text|, 2
  {
    hide Skip, Value, Fits, DocText;
    var before := BlankOf(text);
    var v := DocOf(Skip(text));
    var tail := Value(Skip(text)).rest;
    var t := Skip(tail);
    var after := BlankOf(tail);
    if Peek(t) != COMMA {
      elems := Elem(before, v, after, NoElems);
    } else {
      var next := ElemsOf(t[1..]);
      ElementsSome(t[1..]);
      assert t == [0x2C] + t[1..];
      elems := Elem(before, v, after, next);
    }
  }

  lemma ElementsSome(text: Text)
    ensures Elements(text).Ok? ==> Elements(text).value.Item?
  {
  }

  lemma {:induction false} RecordOf(text: Text) returns (d: Doc)
    requires Peek(text) == LBRACE && Object(text).Ok?
    ensures var r := Object(text); Fits(d, r.rest) && text == DocText(d, r.rest) && Tree(d) == r.value
    decreases |text|, 0
  {
    hide Skip, Pairs, FieldsText, FitFields, Blank, Fits, DocText, Tree;
    var t, rest := Skip(text[1..]), Object(text).rest;
    var blank := BlankOf(text[1..]);
    assert text == [0x7B] + (blank + t);
    var fields := NoFields;
    if Peek(t) == RBRACE {
      NoFieldsFit([0x7D] + rest);
      assert t == [0x7D] + rest;
    } else {
      fields := FieldsOf(t);
      assert Pairs(t).rest == [0x7D] + rest;
    }
    RecordFits(blank, fields, rest);
    d := Record(blank, fields);
  }

  lemma NoFieldsFit(rest: Text)
    ensures FitFields(NoFields, rest) && FieldsText(NoFields, rest) == rest && Entries(NoFields) == NoMembers
  {
  }

  lemma RecordFits(blank: Text, fields: Fields, rest: Text)
    requires Blank(blank) && FitFields(fields, [0x7D] + rest)
    ensures var d := Record(blank, fields);
            && Fits(d, rest) && Tree(d) == Obj(Entries(fields))
            && DocText(d, rest) == [0x7B] + (blank + FieldsText(fields, [0x7D] + rest))
  {
  }

  /** The parts of a member that was read. */
  lemma {:induction false} FieldOf(text: Text) returns (before: Text, name: Quote, middle: Text, behind: Text, d: Doc)
    requires Pair(text).Ok?
    ensures Blank(before) && Blank(middle) && Blank(behind)
    ensures var Ok((s, v), rest) := Pair(text);
            var colon := middle + ([0x3A] + (behind + DocText(d, rest)));
            && text == before + QuoteText(name, colon) && IsQuote(name, colon) && QuoteValue(name) == s
            && Fits(d, rest) && Tree(d) == v
    decreases |text|, 3
  {
    hide Skip, Value, Fits, DocText, String, QuoteText, IsQuote;
    before := BlankOf(text);
    name := QuoteOf(Skip(text));
    var t := String(Skip(text)).rest;
    middle := BlankOf(t);
    var u := Skip(t);
    assert u == [0x3A] + u[1..];
    behind := BlankOf(u[1..]);
    d := DocOf(Skip(u[1..]));
  }

  lemma {:induction false} FieldsOf(text: Text) returns (fields: Fields)
    requires Pairs(text).Ok?
    ensures var r := Pairs(text); FitFields(fields, r.rest) && text == FieldsText(fields, r.rest) && Entries(fields) == r.value
    decreases |text|, 4
  {
    hide Skip, Pair, Fits, DocText, QuoteText, IsQuote;
    var before, name, middle, behind, d := FieldOf(text);
    var tail := Pair(text).rest;
    var t := Skip(tail);
    var after := BlankOf(tail);
    if Peek(t) != COMMA {
      fields := Field(before, name, middle, behind, d, after, NoFields);
    } else {
      var next := FieldsOf(t[1..]);
      PairsSome(t[1..]);
      assert t == [0x2C] + t[1..];
      fields := Field(before, name, middle, behind, d, after, next);
    }
  }

  lemma PairsSome(text: Text)
    ensures Pairs(text).Ok? ==> Pairs(text).value.Member?
  {
  }

  // ----- the parser and the grammar

  /** A document in front of rest spells the text and stands for the tree. */
  ghost predicate Spelled(d: Doc, text: Text, t: Json, rest: Text) {
    Fits(d, rest) && text == DocText(d, rest) && Tree(d) == t
  }

  /** parse_value returns a tree and the text behind it if and only if a document says so. */
  lemma ValueIff(text: Text, t: Json, rest: Text)
    ensures Value(text) == Ok(t, rest) <==> exists d :: Spelled(d, text, t, rest)
  {
    hide Value, Fits, DocText;
    if Value(text) == Ok(t, rest) {
      var d := DocOf(text);
      assert Spelled(d, text, t, rest);
    }
    if d :| Spelled(d, text, t, rest) {
      DocRead(d, rest);
    }
  }

  /** parse_value fails on all other texts, but those with an escape that it steps over blindly. */
  lemma FailIff(text: Text)
    requires !Value(text).Astray?
    ensures Value(text).Fail? <==> !exists d, t, rest :: Spelled(d, text, t, rest)
  {
    hide Value, Spelled;
    if Value(text).Ok? {
      ValueIff(text, Value(text).value, Value(text).rest);
    }
    if d, t, rest :| Spelled(d, text, t, rest) {
      ValueIff(text, t, rest);
    }
  }

  /** A whole text: a document with white space around it. */
  ghost predicate Entire(text: Text, before: Text, d: Doc, after: Text, t: Json) {
    Blank(before) && Blank(after) && Spelled(d, DocText(d, after), t, after) && text == before + DocText(d, after)
  }

  /** With require_null_terminated cJSON_ParseWithOpts returns a tree if and only if the whole text is a document of it. */
  lemma WholeTextIff(text: Text, t: Json)
    ensures var v := Value(Skip(text));
            v.Ok? && v.value == t && Skip(v.rest) == [] <==> exists before, d, after :: Entire(text, before, d, after, t)
  {
    hide Value, Fits, DocText, Skip;
    var v := Value(Skip(text));
    if v.Ok? && v.value == t && Skip(v.rest) == [] {
      var before := BlankOf(text);
      var d := DocOf(Skip(text));
      var after := BlankOf(v.rest);
      assert after == v.rest;
      assert Entire(text, before, d, after, t);
    }
    if before, d, after :| Entire(text, before, d, after, t) {
      DocStart(d, after);
      BlankOff(before, DocText(d, after));
      DocRead(d, after);
      assert after + [] == after;
      BlankOff(after, []);
    }
  }

  // ----- texts that the grammar allows

  predicate StandardBlank(s: Text) {
    forall k :: 0 <= k < |s| ==> s[k] in {0x20, 0x09, 0x0A, 0x0D}
  }

  ghost predicate StandardQuote(q: Quote) {
    q.Proper? && Tokens(q.ts)
  }

  /** A document by the grammar of RFC 8259. */
  ghost predicate Rfc(d: Doc) {
    match d
    case Word(t) => t.Null? || t.False? || t.True?
    case Numeric(n) => Standard(n)
    case Textual(q) => StandardQuote(q)
    case List(blank, elems) => StandardBlank(blank) && RfcElems(elems)
    case Record(blank, fields) => StandardBlank(blank) && RfcFields(fields)
  }

  ghost predicate RfcElems(elems: Elems) {
    match elems
    case NoElems => true
    case Elem(before, value, after, next) => StandardBlank(before) && Rfc(value) && StandardBlank(after) && RfcElems(next)
  }

  ghost predicate RfcFields(fields: Fields) {
    match fields
    case NoFields => true
    case Field(before, name, middle, behind, value, after, next) =>
      && StandardBlank(before) && StandardQuote(name) && StandardBlank(middle)
      && StandardBlank(behind) && Rfc(value) && StandardBlank(after) && RfcFields(next)
  }

  /** No number goes on in such a text. */
  predicate Closes(rest: Text) {
    NoFigure(rest) && Peek(rest) != 0x2E && Peek(rest) != 0x65 && Peek(rest) != 0x45
  }

  lemma StandardEnds(n: Numeral, rest: Text)
    requires Standard(n) && Closes(rest)
    ensures Ends(n, rest)
  {
    if n.frac == [] && n.power.NoPower? {
    } else if n.frac == [] {
      assert Peek(PowerText(n.power, rest)) == n.power.letter;
    }
  }

  lemma BlankCloses(s: Text, rest: Text)
    requires StandardBlank(s) && Closes(rest)
    ensures Blank(s) && Closes(s + rest)
  {
  }

  lemma {:induction false} RfcFits(d: Doc, rest: Text)
    requires Rfc(d) && Closes(rest)
    ensures Fits(d, rest)
    decreases d
  {
    match d
    case Numeric(n) => StandardEnds(n, rest);
    case List(blank, elems) =>
      BlankCloses(blank, [0x5D]);
      RfcFitElems(elems, [0x5D] + rest);
    case Record(blank, fields) =>
      BlankCloses(blank, [0x7D]);
      RfcFitFields(fields, [0x7D] + rest);
    case _ =>
  }

  lemma {:induction false} RfcFitElems(elems: Elems, rest: Text)
    requires RfcElems(elems) && Closes(rest)
    ensures FitElems(elems, rest)
    decreases elems
  {
    if elems.Elem? {
      var more := MoreElems(elems.next, rest);
      BlankCloses(elems.before, more);
      BlankCloses(elems.after, more);
      RfcFits(elems.value, elems.after + more);
      RfcFitElems(elems.next, rest);
    }
  }

  lemma {:induction false} RfcFitFields(fields: Fields, rest: Text)
    requires RfcFields(fields) && Closes(rest)
    ensures FitFields(fields, rest)
    decreases fields
  {
    if fields.Field? {
      var more := MoreFields(fields.next, rest);
      BlankCloses(fields.before, more);
      BlankCloses(fields.middle, more);
      BlankCloses(fields.behind, more);
      BlankCloses(fields.after, more);
      RfcFits(fields.value, fields.after + more);
      RfcFitFields(fields.next, rest);
    }
  }

  /** cJSON_Parse reads every JSON text of RFC 8259 to its end, as the tree that its document stands for. */
  lemma RfcParsed(before: Text, d: Doc, after: Text)
    requires StandardBlank(before) && Rfc(d) && StandardBlank(after)
    ensures Value(Skip(before + DocText(d, after))) == Ok(Tree(d), after) && Skip(after) == []
  {
    BlankCloses(before, []);
    BlankCloses(after, []);
    assert after + [] == after;
    RfcFits(d, after);
    DocStart(d, after);
    DocRead(d, after);
    BlankOff(before, DocText(d, after));
    BlankOff(after, []);
  }
}
