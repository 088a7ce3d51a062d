/** Parsing a printed tree gives the tree back, and consumes exactly its text. */
module JsonRoundTrip {
  import opened Prelude
  import opened JsonText
  import opened JsonUnicode
  import opened JsonParse

  // ----- numbers

  /** What may follow a number without being taken for a part of it. */
  predicate NumberEnds(rest: Text) {
    var c := Peek(rest);
    !IsDigit(c) && c != DOT && c != 101 && c != 69
  }

  lemma {:induction false} ScanDigits(n: nat, tail: Text)
    ensures Scan(Digits(n) + tail, 0) == Scan(tail, n)
  {
    if n < 10 {
      assert (Digits(n) + tail)[1..] == tail;
    } else {
      var d: byte := ZERO + n % 10;
      ScanDigits(n / 10, [d] + tail);
      assert Digits(n) + tail == Digits(n / 10) + ([d] + tail);
      assert ([d] + tail)[1..] == tail;
    }
  }

  lemma WholeDigits(n: nat, rest: Text)
    requires !IsDigit(Peek(rest))
    ensures Whole(Digits(n) + rest) == (n, rest)
  {
    var text := Digits(n) + rest;
    assert text[0] == Digits(n)[0];
    if n == 0 {
      assert text[1..] == rest;
    } else {
      ScanDigits(n, rest);
    }
  }

  lemma WholeValue(n: int)
    ensures NumberValue(n < 0, if n < 0 then -n else n, 0) == n as real
  {
    assert Pow10(0) == 1.0;
  }

  /** A whole number in front of such a text is the number read. */
  lemma WholeNumber(text: Text, m: nat, rest: Text)
    requires NumberEnds(rest) && (Peek(text) == MINUS || IsDigit(Peek(text)))
    requires Whole(if Peek(text) == MINUS then text[1..] else text) == (m, rest)
    ensures Number(text) == Ok(Num(NumberValue(Peek(text) == MINUS, m, 0)), rest)
  {
    hide Whole, NumberValue;
  }

  lemma NumberRoundTrip(n: int, rest: Text)
    requires NumberEnds(rest)
    ensures var text := Decimal(n) + rest;
            (Peek(text) == MINUS || IsDigit(Peek(text))) && Number(text) == Ok(Num(n as real), rest)
  {
    hide Scan, Digits, NumberValue, Number, Whole;
    var m := if n < 0 then -n else n;
    var text := Decimal(n) + rest;
    WholeDigits(m, rest);
    if n < 0 {
      assert text[1..] == Digits(m) + rest;
    } else {
      assert text[0] == Digits(m)[0];
    }
    WholeNumber(text, m, rest);
    WholeValue(n);
  }

  // ----- strings

  lemma CharRoundTrip(c: byte, tail: Text)
    requires c != 0
    ensures var text := EscapeByte(c) + tail;
            Peek(text) != 0 && Peek(text) != QUOTE && Char(text) == Some(([c], |EscapeByte(c)|))
  {
    var text := EscapeByte(c) + tail;
    hide Hex4;
    if ShortEscape(c) == 0 && c < 32 {
      assert text[2..][..4] == HexText(c);
      HexInverse(c);
    }
  }

  lemma {:induction false} BodyRoundTrip(s: Text, rest: Text)
    requires NulFree(s)
    ensures Body(Escape(s) + [QUOTE] + rest) == Ok(s, [QUOTE] + rest)
  {
    hide EscapeByte, Char;
    var text := Escape(s) + [QUOTE] + rest;
    if s == [] {
      assert text == [QUOTE] + rest;
    } else {
      var tail := Escape(s[1..]) + [QUOTE] + rest;
      assert text == EscapeByte(s[0]) + tail;
      assert text[|EscapeByte(s[0])|..] == tail;
      CharRoundTrip(s[0], tail);
      BodyRoundTrip(s[1..], rest);
      assert s == [s[0]] + s[1..];
    }
  }

  lemma StringRoundTrip(s: Text, rest: Text)
    requires NulFree(s)
    ensures String(Quoted(s) + rest) == Ok(s, rest)
  {
    var text, inner, end := Quoted(s) + rest, Escape(s) + [QUOTE] + rest, [QUOTE] + rest;
    assert text[0] == QUOTE && text[1..] == inner;
    assert end[1..] == rest;
    BodyRoundTrip(s, rest);
  }

  // ----- white space

  lemma SkipNone(text: Text)
    requires Peek(text) > 32
    ensures Skip(text) == text
  {
  }

  lemma {:induction false} SkipTabs(n: int, text: Text)
    ensures Skip(Tabs(n) + text) == Skip(text)
  {
    if n <= 0 {
      assert Tabs(n) + text == text;
    } else {
      assert (Tabs(n) + text)[1..] == Tabs(n - 1) + text;
      SkipTabs(n - 1, text);
    }
  }

  lemma SkipOne(c: byte, text: Text)
    requires 0 < c <= 32
    ensures Skip([c] + text) == Skip(text)
  {
    assert ([c] + text)[1..] == text;
  }

  // ----- trees

  lemma PrintStart(t: Json, depth: nat, fmt: bool, rest: Text)
    requires Printable(t)
    ensures Peek(Print(t, depth, fmt) + rest) > 32
    ensures Peek(Print(t, depth, fmt) + rest) == QUOTE <==> t.Str?
    ensures Peek(Print(t, depth, fmt) + rest) == LBRACKET <==> t.Arr?
    ensures Peek(Print(t, depth, fmt) + rest) == LBRACE <==> t.Obj?
    ensures Peek(Print(t, depth, fmt) + rest) != RBRACKET && Peek(Print(t, depth, fmt) + rest) != RBRACE
    ensures Print(t, depth, fmt) != []
  {
    var text := Print(t, depth, fmt);
    assert text[0] == (text + rest)[0];
  }

  lemma {:induction false} ValueRoundTrip(t: Json, depth: nat, fmt: bool, rest: Text)
    requires Printable(t) && NumberEnds(rest)
    ensures Value(Print(t, depth, fmt) + rest) == Ok(t, rest)
    decreases t, 0
  {
    var text := Print(t, depth, fmt) + rest;
    PrintStart(t, depth, fmt, rest);
    match t
    case Null => assert text[4..] == rest;
    case False => assert text[5..] == rest;
    case True => assert text[4..] == rest;
    case Num(v) => NumberRoundTrip(v.Floor, rest);
    case Str(s) => StringRoundTrip(s, rest);
    case Arr(items) => ArrayRoundTrip(items, depth, fmt, rest);
    case Obj(members) => ObjectRoundTrip(members, depth, fmt, rest);
  }

  lemma {:induction false} ArrayRoundTrip(items: Items, depth: nat, fmt: bool, rest: Text)
    requires PrintableItems(items)
    ensures var text := Print(Arr(items), depth, fmt) + rest;
            Peek(text) == LBRACKET && Array(text) == Ok(Arr(items), rest)
    decreases items, 1
  {
    var text := Print(Arr(items), depth, fmt) + rest;
    if items.NoItems? {
      assert text[1..] == [RBRACKET] + rest;
    } else {
      var inner := PrintItems(items, depth, fmt) + ([RBRACKET] + rest);
      assert text[1..] == inner;
      ItemsStart(items, depth, fmt, [RBRACKET] + rest);
      ElementsRoundTrip(items, depth, fmt, [RBRACKET] + rest);
    }
    assert ([RBRACKET] + rest)[1..] == rest;
  }

  lemma ItemsStart(items: Items, depth: nat, fmt: bool, rest: Text)
    requires items.Item? && PrintableItems(items)
    ensures Peek(PrintItems(items, depth, fmt) + rest) > 32 && Peek(PrintItems(items, depth, fmt) + rest) != RBRACKET
  {
    PrintStart(items.head, depth + 1, fmt, []);
    assert (PrintItems(items, depth, fmt) + rest)[0] == Print(items.head, depth + 1, fmt)[0];
  }

  lemma {:induction false} ElementsRoundTrip(items: Items, depth: nat, fmt: bool, rest: Text)
    requires items.Item? && PrintableItems(items) && Peek(rest) == RBRACKET
    ensures Elements(PrintItems(items, depth, fmt) + rest) == Ok(items, rest)
    decreases items, 0
  {
    hide Print, PrintItems, Value, Skip;
    var text, tail := PrintItems(items, depth, fmt) + rest, PrintItems(items.next, depth, fmt) + rest;
    var after := ItemEnd(items.next, fmt) + tail;
    ItemsParts(items, depth, fmt, rest);
    AfterItem(items.next, depth, fmt, rest);
    SkipNone(after);
    PrintStart(items.head, depth + 1, fmt, after);
    SkipNone(text);
    ValueRoundTrip(items.head, depth + 1, fmt, after);
    if items.next.Item? {
      assert after[1..] == IfFmt(fmt, [SPACE]) + tail;
      ElementsRoundTrip(items.next, depth, fmt, rest);
      ElementsSkip(fmt, tail);
    }
  }

  /** Behind an item comes the end of the array or a comma. */
  lemma AfterItem(next: Items, depth: nat, fmt: bool, rest: Text)
    requires PrintableItems(next) && Peek(rest) == RBRACKET
    ensures var after := ItemEnd(next, fmt) + (PrintItems(next, depth, fmt) + rest);
            NumberEnds(after) && if next.NoItems? then after == rest else Peek(after) == COMMA
  {
  }

  lemma ElementsSkip(fmt: bool, text: Text)
    ensures Elements(IfFmt(fmt, [SPACE]) + text) == Elements(text)
  {
    if fmt {
      SkipOne(SPACE, text);
    } else {
      assert IfFmt(fmt, [SPACE]) + text == text;
    }
  }

  lemma EmptyObject(depth: nat, fmt: bool, rest: Text)
    ensures var text := Print(Obj(NoMembers), depth, fmt) + rest;
            Peek(text) == LBRACE && Object(text) == Ok(Obj(NoMembers), rest)
  {
    var text, end := Print(Obj(NoMembers), depth, fmt) + rest, [RBRACE] + rest;
    var a := IfFmt(fmt, [LF] + Tabs(depth - 1));
    assert text[1..] == a + end by {
      assert text == [LBRACE] + (a + end);
    }
    SkipNone(end);
    SkipIndent(fmt, depth - 1, end);
  }

  lemma ObjectText(members: Members, depth: nat, fmt: bool, rest: Text)
    requires members.Member? && PrintableMembers(members)
    ensures var text := Print(Obj(members), depth, fmt) + rest;
            && Peek(text) == LBRACE
            && text[1..] == IfFmt(fmt, [LF])
                            + (PrintMembers(members, depth + 1, fmt) + (IfFmt(fmt, Tabs(depth)) + ([RBRACE] + rest)))
  {
    ObjectParts(members, depth, fmt, rest);
  }

  lemma {:induction false} ObjectRoundTrip(members: Members, depth: nat, fmt: bool, rest: Text)
    requires PrintableMembers(members)
    ensures var text := Print(Obj(members), depth, fmt) + rest;
            Peek(text) == LBRACE && Object(text) == Ok(Obj(members), rest)
    decreases members, 1
  {
    if members.NoMembers? {
      EmptyObject(depth, fmt, rest);
    } else {
      var end := [RBRACE] + rest;
      var close := IfFmt(fmt, Tabs(depth)) + end;
      SkipNone(end);
      SkipIfTabs(fmt, depth, end);
      PairsRoundTrip(members, depth + 1, fmt, close, end);
      MembersStart(members, depth + 1, fmt, close);
      ObjectText(members, depth, fmt, rest);
      ObjectOf(Print(Obj(members), depth, fmt) + rest, fmt, PrintMembers(members, depth + 1, fmt) + close, members, end);
    }
  }

  lemma ObjectOf(text: Text, fmt: bool, inner: Text, members: Members, end: Text)
    requires Peek(text) == LBRACE && text[1..] == IfFmt(fmt, [LF]) + inner && Peek(Skip(inner)) == QUOTE
    requires Pairs(inner) == Ok(members, end) && Peek(end) == RBRACE
    ensures Object(text) == Ok(Obj(members), end[1..])
  {
    SkipIfOne(fmt, LF, inner);
    PairsSkip(inner);
  }

  lemma SkipIfOne(fmt: bool, c: byte, text: Text)
    requires 0 < c <= 32
    ensures Skip(IfFmt(fmt, [c]) + text) == Skip(text)
  {
    if fmt {
      SkipOne(c, text);
    } else {
      assert IfFmt(fmt, [c]) + text == text;
    }
  }

  lemma SkipIfTabs(fmt: bool, n: int, text: Text)
    ensures Skip(IfFmt(fmt, Tabs(n)) + text) == Skip(text)
  {
    if fmt {
      SkipTabs(n, text);
    } else {
      assert IfFmt(fmt, Tabs(n)) + text == text;
    }
  }

  lemma SkipIndent(fmt: bool, n: int, text: Text)
    ensures Skip(IfFmt(fmt, [LF] + Tabs(n)) + text) == Skip(text)
  {
    if fmt {
      assert [LF] + Tabs(n) + text == [LF] + (Tabs(n) + text);
      SkipOne(LF, Tabs(n) + text);
      SkipTabs(n, text);
    } else {
      assert IfFmt(fmt, [LF] + Tabs(n)) + text == text;
    }
  }

  lemma {:induction false} SkipTwice(text: Text)
    ensures Skip(Skip(text)) == Skip(text)
  {
    if Peek(text) != 0 && Peek(text) <= 32 {
      SkipTwice(text[1..]);
    }
  }

  /** White space in front of a member changes nothing. */
  lemma PairsSkip(text: Text)
    ensures Pairs(Skip(text)) == Pairs(text)
  {
    SkipTwice(text);
    assert Pair(Skip(text)) == Pair(text);
  }

  lemma MembersStart(members: Members, depth: nat, fmt: bool, rest: Text)
    requires members.Member? && PrintableMembers(members)
    ensures Peek(Skip(PrintMembers(members, depth, fmt) + rest)) == QUOTE
  {
    var text := PrintMembers(members, depth, fmt) + rest;
    var tail := text[|IfFmt(fmt, Tabs(depth))|..];
    assert text == IfFmt(fmt, Tabs(depth)) + tail;
    assert tail[0] == QUOTE;
    SkipIfTabs(fmt, depth, tail);
    SkipNone(tail);
  }

  lemma PairOf(text: Text, name: Text, t1: Text, v: Json, rest: Text)
    requires String(Skip(text)) == Ok(name, t1) && Peek(t1) == COLON && Value(Skip(t1[1..])) == Ok(v, rest)
    ensures Pair(text) == Ok((name, v), rest)
  {
  }

  lemma {:induction false} PairRoundTrip(name: Text, t: Json, depth: nat, fmt: bool, rest: Text)
    requires NulFree(name) && Printable(t) && NumberEnds(rest)
    ensures Pair(MemberName(name, depth, fmt) + (Print(t, depth, fmt) + rest)) == Ok((name, t), rest)
    decreases t, 1
  {
    var value := Print(t, depth, fmt) + rest;
    var colon := [COLON] + (IfFmt(fmt, [TAB]) + value);
    var quoted := Quoted(name) + colon;
    var text := MemberName(name, depth, fmt) + value;
    NameParts(name, depth, fmt, value);
    assert String(Skip(text)) == Ok(name, colon) by {
      SkipIfTabs(fmt, depth, quoted);
      SkipNone(quoted);
      StringRoundTrip(name, colon);
    }
    assert Value(Skip(colon[1..])) == Ok(t, rest) by {
      assert colon[1..] == IfFmt(fmt, [TAB]) + value;
      SkipIfOne(fmt, TAB, value);
      PrintStart(t, depth, fmt, rest);
      SkipNone(value);
      ValueRoundTrip(t, depth, fmt, rest);
    }
    PairOf(text, name, colon, t, rest);
  }

  lemma PairsOf(text: Text, name: Text, v: Json, t1: Text, next: Members, end: Text)
    requires Pair(text) == Ok((name, v), t1)
    requires if next.NoMembers? then Skip(t1) == end && Peek(end) != COMMA
             else Peek(t1) == COMMA && Pairs(t1[1..]) == Ok(next, end)
    ensures Pairs(text) == Ok(Member(name, v, next), end)
  {
  }

  lemma MemberEndText(next: Members, fmt: bool, tail: Text)
    ensures var after := MemberEnd(next, fmt) + tail;
            if next.NoMembers? then after == IfFmt(fmt, [LF]) + tail
            else Peek(after) == COMMA && after[1..] == IfFmt(fmt, [LF]) + tail
  {
  }

  lemma {:induction false} PairsRoundTrip(members: Members, depth: nat, fmt: bool, rest: Text, end: Text)
    requires members.Member? && PrintableMembers(members) && NumberEnds(rest) && Skip(rest) == end && Peek(end) == RBRACE
    ensures Pairs(PrintMembers(members, depth, fmt) + rest) == Ok(members, end)
    decreases members, 0
  {
    var tail := PrintMembers(members.next, depth, fmt) + rest;
    var after := MemberEnd(members.next, fmt) + tail;
    MembersParts(members, depth, fmt, rest);
    MemberEndText(members.next, fmt, tail);
    PairRoundTrip(members.name, members.value, depth, fmt, after);
    if members.next.NoMembers? {
      assert tail == rest;
      SkipIfOne(fmt, LF, rest);
    } else {
      PairsRoundTrip(members.next, depth, fmt, rest, end);
      PairsIndent(fmt, tail);
    }
    PairsOf(PrintMembers(members, depth, fmt) + rest, members.name, members.value, after, members.next, end);
  }

  lemma PairsIndent(fmt: bool, text: Text)
    ensures Pairs(IfFmt(fmt, [LF]) + text) == Pairs(text)
  {
    SkipIfOne(fmt, LF, text);
    PairsSkip(text);
    PairsSkip(IfFmt(fmt, [LF]) + text);
  }

  /** cJSON_Parse undoes cJSON_Print and cJSON_PrintUnformatted. */
  lemma ParsePrint(t: Json, fmt: bool)
    requires Printable(t)
    ensures Value(Skip(Print(t, 0, fmt))) == Ok(t, [])
  {
    ValueRoundTrip(t, 0, fmt, []);
    assert Print(t, 0, fmt) + [] == Print(t, 0, fmt);
    PrintStart(t, 0, fmt, []);
    SkipNone(Print(t, 0, fmt));
  }

  /** So two trees with the same text are the same tree, however they were formatted. */
  lemma PrintInjective(t: Json, u: Json, f: bool, g: bool)
    requires Printable(t) && Printable(u) && Print(t, 0, f) == Print(u, 0, g)
    ensures t == u
  {
    ParsePrint(t, f);
    ParsePrint(u, g);
  }
}
