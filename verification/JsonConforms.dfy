/** What cJSON prints is a JSON text of RFC 8259: the document that each printed tree spells. */
module JsonConforms {
  import opened Prelude
  import opened JsonText
  import opened JsonUnicode
  import opened JsonMeaning
  import opened JsonNumerals
  import opened JsonGrammar
  import JsonParse
  import JsonRoundTrip

  // ----- numbers

  function DigitsOf(n: nat): (ds: seq<Digit>)
    ensures ds != [] && (n > 0 ==> ds[0] != 0)
  {
    if n < 10 then [n] else DigitsOf(n / 10) + [n % 10]
  }

  function IntNumeral(n: int): Numeral {
    Numeral(n < 0, n == 0, if n == 0 then [] else DigitsOf(if n < 0 then -n else n), [], NoPower)
  }

  lemma {:induction false} FiguresLast(ds: seq<Digit>, d: Digit)
    ensures Figures(ds + [d]) == Figures(ds) + [Figure(d)]
  {
    if ds != [] {
      assert (ds + [d])[1..] == ds[1..] + [d];
      FiguresLast(ds[1..], d);
    }
  }

  lemma {:induction false} DigitsSpelled(n: nat)
    ensures Figures(DigitsOf(n)) == Digits(n) && Units(DigitsOf(n)) == n
  {
    if n < 10 {
      assert DigitsOf(n)[1..] == [] && DigitsOf(n)[..0] == [];
    } else {
      DigitsSpelled(n / 10);
      FiguresLast(DigitsOf(n / 10), n % 10);
      UnitsNext(DigitsOf(n / 10), n % 10);
    }
  }

  lemma IntSpelled(n: int, rest: Text)
    ensures Standard(IntNumeral(n)) && NumeralText(IntNumeral(n), rest) == Decimal(n) + rest && Meant(IntNumeral(n)) == n as real
  {
    DigitsSpelled(if n < 0 then -n else n);
    var m := Digits(if n < 0 then -n else n);
    if n == 0 {
      assert Figures([]) + rest == rest && m == [0x30];
    }
    assert [] + m + rest == m + rest && [] + (m + rest) == m + rest;
  }

  // ----- strings

  function TokenOf(c: byte): Token {
    if ShortEscape(c) != 0 then Letter(ShortEscape(c)) else if c < 32 then Hex(HexText(c), c) else Raw(c)
  }

  function TokensOf(s: Text): seq<Token> {
    if s == [] then [] else [TokenOf(s[0])] + TokensOf(s[1..])
  }

  lemma HexSpelled(c: byte)
    requires c < 32
    ensures Spells(HexText(c), c)
    ensures [BACKSLASH, 117] + HexText(c) == [BACKSLASH, 117, ZERO, ZERO, HexDigit(c / 16), HexDigit(c % 16)]
  {
    hide Spells, Hex4;
    HexInverse(c);
    HexIsHex(c);
    SpelledHex4(HexText(c), c);
  }

  lemma HexIsHex(u: nat)
    requires u < 0x10000
    ensures Hex4Ahead(HexText(u))
  {
    HexDigitInverse(u / 16 / 16 / 16);
    HexDigitInverse(u / 16 / 16 % 16);
    HexDigitInverse(u / 16 % 16);
    HexDigitInverse(u % 16);
  }

  lemma ByteSpelled(c: byte)
    requires c != 0
    ensures IsToken(TokenOf(c)) && JsonMeaning.Spelling(TokenOf(c)) == EscapeByte(c)
  {
    hide Spells, HexText, HexDigit;
    if ShortEscape(c) == 0 && c < 32 {
      HexSpelled(c);
    }
  }

  lemma {:induction false} StringSpelled(s: Text, rest: Text)
    requires NulFree(s)
    ensures Tokens(TokensOf(s)) && Literal(TokensOf(s), rest) == Escape(s) + [QUOTE] + rest
  {
    if s != [] {
      hide TokenOf, EscapeByte, IsToken;
      ByteSpelled(s[0]);
      StringSpelled(s[1..], rest);
      assert TokensOf(s)[1..] == TokensOf(s[1..]);
    }
  }

  lemma QuoteSpelled(s: Text, rest: Text)
    requires NulFree(s)
    ensures var q := Proper(TokensOf(s)); StandardQuote(q) && QuoteText(q, rest) == Quoted(s) + rest && QuoteValue(q) == s
  {
    hide Escape, Literal, Taken, Forms, JsonParse.String, TokensOf;
    StringSpelled(s, rest);
    StringTaken(TokensOf(s), rest);
    JsonRoundTrip.StringRoundTrip(s, rest);
    assert [QUOTE] + (Escape(s) + [QUOTE] + rest) == Quoted(s) + rest;
  }

  // ----- trees

  function NewLine(fmt: bool, n: int): Text {
    IfFmt(fmt, [LF] + Tabs(n))
  }

  /** The document that a tree is printed as. */
  function Written(t: Json, depth: nat, fmt: bool): Doc
    requires Printable(t)
    decreases t, 0
  {
    match t
    case Num(v) => Numeric(IntNumeral(v.Floor))
    case Str(s) => Textual(Proper(TokensOf(s)))
    case Arr(items) => List([], WrittenItems(items, depth, fmt, []))
    case Obj(members) =>
      Record(if members.NoMembers? then NewLine(fmt, depth - 1) else [], WrittenMembers(members, depth + 1, fmt))
    case _ => Word(t)
  }

  function WrittenItems(items: Items, depth: nat, fmt: bool, before: Text): Elems
    requires PrintableItems(items)
    decreases items, 0
  {
    match items
    case NoItems => NoElems
    case Item(t, next) => Elem(before, Written(t, depth + 1, fmt), [], WrittenItems(next, depth, fmt, IfFmt(fmt, [SPACE])))
  }

  function WrittenMembers(members: Members, depth: nat, fmt: bool): Fields
    requires PrintableMembers(members)
    decreases members, 0
  {
    match members
    case NoMembers => NoFields
    case Member(name, t, next) =>
      Field(NewLine(fmt, depth), Proper(TokensOf(name)), [], IfFmt(fmt, [TAB]), Written(t, depth, fmt),
            if next.NoMembers? then NewLine(fmt, depth - 1) else [], WrittenMembers(next, depth, fmt))
  }

  lemma BlankLine(fmt: bool, n: int)
    ensures StandardBlank(NewLine(fmt, n)) && StandardBlank(IfFmt(fmt, [TAB])) && StandardBlank(IfFmt(fmt, [SPACE]))
    ensures StandardBlank([])
  {
  }

  lemma {:induction false} WrittenRfc(t: Json, depth: nat, fmt: bool)
    requires Printable(t)
    ensures Rfc(Written(t, depth, fmt)) && Tree(Written(t, depth, fmt)) == t
    decreases t, 0
  {
    BlankLine(fmt, depth - 1);
    match t
    case Num(v) => IntSpelled(v.Floor, []);
    case Str(s) => QuoteSpelled(s, []);
    case Arr(items) => ItemsRfc(items, depth, fmt, []);
    case Obj(members) => MembersRfc(members, depth + 1, fmt);
    case _ =>
  }

  lemma {:induction false} ItemsRfc(items: Items, depth: nat, fmt: bool, before: Text)
    requires PrintableItems(items) && StandardBlank(before)
    ensures RfcElems(WrittenItems(items, depth, fmt, before)) && Children(WrittenItems(items, depth, fmt, before)) == items
    decreases items, 0
  {
    hide Rfc, Written;
    BlankLine(fmt, 0);
    if items.Item? {
      WrittenRfc(items.head, depth + 1, fmt);
      ItemsRfc(items.next, depth, fmt, IfFmt(fmt, [SPACE]));
    }
  }

  lemma {:induction false} MembersRfc(members: Members, depth: nat, fmt: bool)
    requires PrintableMembers(members)
    ensures RfcFields(WrittenMembers(members, depth, fmt)) && Entries(WrittenMembers(members, depth, fmt)) == members
    decreases members, 0
  {
    hide Rfc, Written, TokensOf, NewLine;
    BlankLine(fmt, depth);
    BlankLine(fmt, depth - 1);
    if members.Member? {
      QuoteSpelled(members.name, []);
      WrittenRfc(members.value, depth, fmt);
      MembersRfc(members.next, depth, fmt);
    }
  }

  lemma {:induction false} WrittenText(t: Json, depth: nat, fmt: bool, rest: Text)
    requires Printable(t)
    ensures DocText(Written(t, depth, fmt), rest) == Print(t, depth, fmt) + rest
    decreases t, 0
  {
    match t
    case Num(v) => IntSpelled(v.Floor, rest);
    case Str(s) => QuoteSpelled(s, rest);
    case Arr(items) => ArrayText(items, depth, fmt, rest);
    case Obj(members) => ObjectText(members, depth, fmt, rest);
    case _ =>
  }

  lemma {:induction false} ArrayText(items: Items, depth: nat, fmt: bool, rest: Text)
    requires PrintableItems(items)
    ensures DocText(Written(Arr(items), depth, fmt), rest) == Print(Arr(items), depth, fmt) + rest
    decreases items, 1
  {
    var close := [RBRACKET] + rest;
    hide Print, PrintItems, WrittenItems, ElemsText;
    ItemsText(items, depth, fmt, [], close);
    NoText(ElemsText(WrittenItems(items, depth, fmt, []), close));
    NoText(PrintItems(items, depth, fmt) + close);
    ArrayParts(items, depth, fmt, rest);
  }

  lemma {:induction false} ItemsText(items: Items, depth: nat, fmt: bool, before: Text, rest: Text)
    requires PrintableItems(items)
    ensures items.Item? ==>
              ElemsText(WrittenItems(items, depth, fmt, before), rest) == before + (PrintItems(items, depth, fmt) + rest)
    ensures items.NoItems? ==> ElemsText(WrittenItems(items, depth, fmt, before), rest) == PrintItems(items, depth, fmt) + rest
    decreases items, 0
  {
    hide DocText, Print, Written;
    if items.NoItems? {
      NoText(rest);
    } else {
      var space := IfFmt(fmt, [SPACE]);
      var more := MoreElems(WrittenItems(items.next, depth, fmt, space), rest);
      WrittenText(items.head, depth + 1, fmt, more);
      ItemsText(items.next, depth, fmt, space, rest);
      ItemsParts(items, depth, fmt, rest);
      NoText(more);
      CommaText(items.next, depth, fmt, rest);
    }
  }

  lemma CommaText(next: Items, depth: nat, fmt: bool, rest: Text)
    requires PrintableItems(next)
    ensures ItemEnd(next, fmt) + (PrintItems(next, depth, fmt) + rest)
         == if next.NoItems? then rest else [COMMA] + (IfFmt(fmt, [SPACE]) + (PrintItems(next, depth, fmt) + rest))
  {
    if next.NoItems? {
      NoText(rest);
    } else {
      Gathered([COMMA], IfFmt(fmt, [SPACE]), PrintItems(next, depth, fmt) + rest);
    }
  }

  lemma {:induction false} ObjectText(members: Members, depth: nat, fmt: bool, rest: Text)
    requires PrintableMembers(members)
    ensures DocText(Written(Obj(members), depth, fmt), rest) == Print(Obj(members), depth, fmt) + rest
    decreases members, 1
  {
    var close := [RBRACE] + rest;
    if members.NoMembers? {
      assert Print(Obj(members), depth, fmt) + rest == [LBRACE] + (NewLine(fmt, depth - 1) + close);
    } else {
      hide DocText, Print, PrintMembers, WrittenMembers;
      MembersText(members, depth + 1, fmt, close);
      ObjectParts(members, depth, fmt, rest);
      RecordText(members, depth, fmt, rest);
    }
  }

  lemma RecordText(members: Members, depth: nat, fmt: bool, rest: Text)
    requires PrintableMembers(members) && members.Member?
    ensures DocText(Written(Obj(members), depth, fmt), rest)
         == [LBRACE] + FieldsText(WrittenMembers(members, depth + 1, fmt), [RBRACE] + rest)
  {
    NoText(FieldsText(WrittenMembers(members, depth + 1, fmt), [RBRACE] + rest));
  }

  /** Members, from the line feed behind the opening brace to the closing one. */
  lemma {:induction false} MembersText(members: Members, depth: nat, fmt: bool, rest: Text)
    requires members.Member? && PrintableMembers(members) && depth > 0
    ensures FieldsText(WrittenMembers(members, depth, fmt), rest)
         == IfFmt(fmt, [LF]) + (PrintMembers(members, depth, fmt) + (IfFmt(fmt, Tabs(depth - 1)) + rest))
    decreases members, 0
  {
    hide DocText, Print, Written, QuoteText, Tabs;
    var name, next := members.name, members.next;
    var tail := IfFmt(fmt, Tabs(depth - 1)) + rest;
    var after: Text := if next.NoMembers? then NewLine(fmt, depth - 1) else [];
    var inner := after + MoreFields(WrittenMembers(next, depth, fmt), rest);
    var value := Print(members.value, depth, fmt) + inner;
    WrittenText(members.value, depth, fmt, inner);
    QuoteSpelled(name, [] + ([COLON] + (IfFmt(fmt, [TAB]) + value)));
    NoText([COLON] + (IfFmt(fmt, [TAB]) + value));
    MembersParts(members, depth, fmt, tail);
    NameParts(name, depth, fmt, value);
    LineText(fmt, depth, Quoted(name) + ([COLON] + (IfFmt(fmt, [TAB]) + value)));
    if next.NoMembers? {
      LineText(fmt, depth - 1, rest);
      NoMore(depth, fmt, tail);
    } else {
      MembersText(next, depth, fmt, rest);
      NextText(next, depth, fmt, rest, tail);
    }
  }

  lemma LineText(fmt: bool, n: int, rest: Text)
    ensures NewLine(fmt, n) + rest == IfFmt(fmt, [LF]) + (IfFmt(fmt, Tabs(n)) + rest)
  {
    hide Tabs;
    if fmt {
      Gathered([LF], Tabs(n), rest);
    } else {
      NoText(rest);
    }
  }

  lemma NoMore(depth: nat, fmt: bool, rest: Text)
    ensures MemberEnd(NoMembers, fmt) + (PrintMembers(NoMembers, depth, fmt) + rest) == IfFmt(fmt, [LF]) + rest
  {
    NoText(rest);
  }

  lemma NextText(next: Members, depth: nat, fmt: bool, rest: Text, tail: Text)
    requires next.Member? && PrintableMembers(next)
    requires FieldsText(WrittenMembers(next, depth, fmt), rest) == IfFmt(fmt, [LF]) + (PrintMembers(next, depth, fmt) + tail)
    ensures [] + MoreFields(WrittenMembers(next, depth, fmt), rest)
         == MemberEnd(next, fmt) + (PrintMembers(next, depth, fmt) + tail)
  {
    hide FieldsText, PrintMembers;
    NoText(MoreFields(WrittenMembers(next, depth, fmt), rest));
    Gathered([COMMA], IfFmt(fmt, [LF]), PrintMembers(next, depth, fmt) + tail);
  }

  /** Both printed forms of every tree are texts of the grammar, and stand for the tree. */
  lemma PrintedIsRfc(t: Json, fmt: bool)
    requires Printable(t)
    ensures exists d :: Rfc(d) && Tree(d) == t && DocText(d, []) == Print(t, 0, fmt)
  {
    WrittenRfc(t, 0, fmt);
    WrittenText(t, 0, fmt, []);
    assert Print(t, 0, fmt) + [] == Print(t, 0, fmt);
  }
}
