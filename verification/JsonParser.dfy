/** The parser as it runs: positions in one text, digit loops, and child chains that grow at their end. */
module JsonParser {
  import opened Prelude
  import opened JsonText
  import opened JsonParse
  import opened JsonLiterals
  import opened JsonStrings
  import opened JsonJoin

  /** skip */
  method SkipBlank(text: Text, start: nat) returns (at: nat)
    requires start <= |text|
    ensures start <= at <= |text| && text[at..] == Skip(text[start..])
  {
    at := start;
    while At(text, at) != 0 && At(text, at) <= 32
      invariant start <= at <= |text| && Skip(text[at..]) == Skip(text[start..])
      decreases |text| - at
    {
      assert text[at..][1..] == text[at + 1..];
      at := at + 1;
    }
  }

  // ----- numbers

  /** A digit loop of parse_number. */
  method ScanDigits(text: Text, start: nat, n0: nat) returns (n: nat, at: nat)
    requires start <= |text|
    ensures start <= at <= |text| && Scan(text[start..], n0) == (n, text[at..])
  {
    n, at := n0, start;
    while IsDigit(At(text, at))
      invariant start <= at <= |text| && Scan(text[at..], n) == Scan(text[start..], n0)
      decreases |text| - at
    {
      assert text[at..][1..] == text[at + 1..];
      n := n * 10 + (At(text, at) - ZERO);
      at := at + 1;
    }
  }

  method ParseWhole(text: Text, start: nat) returns (n: nat, at: nat)
    requires start <= |text|
    ensures start <= at <= |text| && Whole(text[start..]) == (n, text[at..])
  {
    n, at := 0, start;
    if At(text, at) == ZERO {
      assert text[at..][1..] == text[at + 1..];
      at := at + 1;
    }
    if IsDigit(At(text, at)) && At(text, at) != ZERO {
      n, at := ScanDigits(text, at, 0);
    }
  }

  method ParseFraction(text: Text, start: nat, n0: nat) returns (n: nat, scale: nat, at: nat)
    requires start <= |text|
    ensures start <= at <= |text| && Fraction(text[start..], n0) == (n, scale, text[at..])
  {
    n, scale, at := n0, 0, start;
    if At(text, at) == DOT {
      assert text[at..][1..] == text[at + 1..];
      if IsDigit(At(text, at + 1)) {
        n, at := ScanDigits(text, at + 1, n0);
        scale := at - start - 1;
      }
    }
  }

  method ParseExponent(text: Text, start: nat) returns (e: int, at: nat)
    requires start <= |text|
    ensures start <= at <= |text| && Exponent(text[start..]) == (e, text[at..])
  {
    e, at := 0, start;
    if At(text, at) == 101 || At(text, at) == 69 {
      ghost var t := text[start..];
      assert t[1..] == text[start + 1..];
      at := at + 1;
      var sign: int := 1;
      if At(text, at) == PLUS {
        at := at + 1;
        assert t[2..] == text[at..];
      } else if At(text, at) == MINUS {
        sign, at := -1, at + 1;
        assert t[2..] == text[at..];
      }
      var n;
      n, at := ScanDigits(text, at, 0);
      e := sign * n;
    }
  }

  /** parse_number */
  method ParseNumber(text: Text, start: nat) returns (t: Json, end: nat)
    requires start <= |text| && (Peek(text[start..]) == MINUS || IsDigit(Peek(text[start..])))
    ensures start <= end <= |text| && Number(text[start..]) == Ok(t, text[end..])
  {
    hide Whole, Fraction, Exponent, NumberValue;
    var neg, at := false, start;
    if At(text, at) == MINUS {
      assert text[at..][1..] == text[at + 1..];
      neg, at := true, at + 1;
    }
    var n, m, scale, e;
    n, at := ParseWhole(text, at);
    m, scale, at := ParseFraction(text, at, n);
    e, at := ParseExponent(text, at);
    t, end := Num(NumberValue(neg, m, e - scale)), at;
  }

  // ----- child chains

  function ConcatItems(a: Items, b: Items): Items {
    match a
    case NoItems => b
    case Item(t, next) => Item(t, ConcatItems(next, b))
  }

  function AttachItems(a: Items, r: Parsed<Items>): Parsed<Items> {
    if r.Ok? then Ok(ConcatItems(a, r.value), r.rest) else r
  }

  /** What Elements finds behind a value and white space. */
  function MoreItems(text: Text): Parsed<Items> {
    if Peek(text) == COMMA then Elements(text[1..]) else Ok(NoItems, text)
  }

  lemma {:induction false} ConcatItemsTwice(a: Items, b: Items, c: Items)
    ensures ConcatItems(ConcatItems(a, b), c) == ConcatItems(a, ConcatItems(b, c))
  {
    if a.Item? {
      ConcatItemsTwice(a.next, b, c);
    }
  }

  /** After one more value the chain is one longer. */
  lemma ElementsStep(acc: Items, text: Text)
    requires Value(Skip(text)).Ok?
    ensures var Ok(v, rest) := Value(Skip(text));
            AttachItems(acc, Elements(text)) == AttachItems(ConcatItems(acc, Item(v, NoItems)), MoreItems(Skip(rest)))
  {
    var Ok(v, rest) := Value(Skip(text));
    var more := MoreItems(Skip(rest));
    if more.Ok? {
      ConcatItemsTwice(acc, Item(v, NoItems), more.value);
    }
  }

  function ConcatMembers(a: Members, b: Members): Members {
    match a
    case NoMembers => b
    case Member(name, t, next) => Member(name, t, ConcatMembers(next, b))
  }

  function AttachMembers(a: Members, r: Parsed<Members>): Parsed<Members> {
    if r.Ok? then Ok(ConcatMembers(a, r.value), r.rest) else r
  }

  function MoreMembers(text: Text): Parsed<Members> {
    if Peek(text) == COMMA then Pairs(text[1..]) else Ok(NoMembers, text)
  }

  lemma {:induction false} ConcatMembersTwice(a: Members, b: Members, c: Members)
    ensures ConcatMembers(ConcatMembers(a, b), c) == ConcatMembers(a, ConcatMembers(b, c))
  {
    if a.Member? {
      ConcatMembersTwice(a.next, b, c);
    }
  }

  lemma PairsStep(acc: Members, text: Text)
    requires Pair(text).Ok?
    ensures AttachMembers(acc, Pairs(text))
         == AttachMembers(ConcatMembers(acc, Member(Pair(text).value.0, Pair(text).value.1, NoMembers)),
                          MoreMembers(Skip(Pair(text).rest)))
  {
    var Ok((name, v), rest) := Pair(text);
    var more := MoreMembers(Skip(rest));
    if more.Ok? {
      ConcatMembersTwice(acc, Member(name, v, NoMembers), more.value);
    }
  }

  // ----- values

  /** r and at say what spec says, except where a failure lies. */
  ghost predicate Agrees<T>(text: Text, r: Option<T>, at: nat, spec: Parsed<T>) {
    if r.Some? then at <= |text| && spec == Ok(r.value, text[at..]) else spec.Fail?
  }

  /** parse_string, and the C string that it allocated. */
  method ParseName(text: Text, start: nat) returns (r: Option<Text>, at: nat)
    requires start <= |text| && NulFree(text) && !String(text[start..]).Astray?
    ensures Agrees(text, r, at, String(text[start..]))
  {
    var out, end := ParseString(text, start);
    if out == null {
      return None, start;
    }
    StringNulFree(text[start..]);
    var n := StrLen(out, String(text[start..]).value);
    r, at := Some(out[..n]), end;
  }

  /** parse_value: the tree and the position behind it, or NULL. */
  method ParseValue(text: Text, start: nat) returns (r: Option<Json>, at: nat)
    requires start <= |text| && NulFree(text) && !Value(text[start..]).Astray?
    ensures Agrees(text, r, at, Value(text[start..]))
    decreases |text| - start, 1
  {
    ghost var t := text[start..];
    if StartsWith(text[start..], NULL_TEXT) {
      assert t[4..] == text[start + 4..];
      return Some(Null), start + 4;
    }
    if StartsWith(text[start..], FALSE_TEXT) {
      assert t[5..] == text[start + 5..];
      return Some(False), start + 5;
    }
    if StartsWith(text[start..], TRUE_TEXT) {
      assert t[4..] == text[start + 4..];
      return Some(True), start + 4;
    }
    var c := At(text, start);
    if c == QUOTE {
      var s;
      s, at := ParseName(text, start);
      r := if s.Some? then Some(Str(s.value)) else None;
    } else if c == MINUS || IsDigit(c) {
      var n;
      n, at := ParseNumber(text, start);
      r := Some(n);
    } else if c == LBRACKET {
      r, at := ParseArray(text, start);
    } else if c == LBRACE {
      r, at := ParseObject(text, start);
    } else {
      r, at := None, start;
    }
  }

  /** parse_array */
  method ParseArray(text: Text, start: nat) returns (r: Option<Json>, at: nat)
    requires start <= |text| && NulFree(text) && Peek(text[start..]) == LBRACKET && !Array(text[start..]).Astray?
    ensures Agrees(text, r, at, Array(text[start..]))
    decreases |text| - start, 0
  {
    assert text[start..][1..] == text[start + 1..];
    at := SkipBlank(text, start + 1);
    if At(text, at) == RBRACKET {
      assert text[at..][1..] == text[at + 1..];
      return Some(Arr(NoItems)), at + 1;
    }
    var items;
    items, at := ParseElements(text, at);
    if items.Some? && At(text, at) == RBRACKET {
      assert text[at..][1..] == text[at + 1..];
      return Some(Arr(items.value)), at + 1;
    }
    r := None;
  }

  /** One item: skip, parse_value, skip, and the value becomes the last of the chain. */
  method ParseItem(text: Text, start: nat, chain: Items) returns (r: Option<Items>, at: nat)
    requires start <= |text| && NulFree(text) && !Elements(text[start..]).Astray?
    ensures at <= |text| && (r.None? ==> Elements(text[start..]).Fail?)
    ensures r.Some? ==>
              start < at && AttachItems(chain, Elements(text[start..])) == AttachItems(r.value, MoreItems(text[at..]))
    decreases |text| - start, 2
  {
    at := SkipBlank(text, start);
    var t, end := ParseValue(text, at);
    if t.None? {
      return None, at;
    }
    ElementsStep(chain, text[start..]);
    assert Value(text[at..]).rest == text[end..];
    at := SkipBlank(text, end);
    r := Some(ConcatItems(chain, Item(t.value, NoItems)));
  }

  /** The loop of parse_array that builds the child chain. */
  method ParseElements(text: Text, start: nat) returns (r: Option<Items>, at: nat)
    requires start <= |text| && NulFree(text) && !Elements(text[start..]).Astray?
    ensures Agrees(text, r, at, Elements(text[start..])) && at <= |text|
    decreases |text| - start, 3
  {
    ghost var spec := Elements(text[start..]);
    assert AttachItems(NoItems, spec) == spec;
    r, at := ParseItem(text, start, NoItems);
    while r.Some? && At(text, at) == COMMA
      invariant at <= |text| && (r.None? ==> spec.Fail?)
      invariant r.Some? ==> start < at && spec == AttachItems(r.value, MoreItems(text[at..]))
      decreases r.Some?, |text| - at
    {
      assert text[at..][1..] == text[at + 1..];
      r, at := ParseItem(text, at + 1, r.value);
    }
    if r.Some? {
      ConcatItemsNone(r.value);
    }
  }

  lemma {:induction false} ConcatItemsNone(a: Items)
    ensures ConcatItems(a, NoItems) == a
  {
    if a.Item? {
      ConcatItemsNone(a.next);
    }
  }

  /** parse_object */
  method ParseObject(text: Text, start: nat) returns (r: Option<Json>, at: nat)
    requires start <= |text| && NulFree(text) && Peek(text[start..]) == LBRACE && !Object(text[start..]).Astray?
    ensures Agrees(text, r, at, Object(text[start..]))
    decreases |text| - start, 0
  {
    assert text[start..][1..] == text[start + 1..];
    at := SkipBlank(text, start + 1);
    if At(text, at) == RBRACE {
      assert text[at..][1..] == text[at + 1..];
      return Some(Obj(NoMembers)), at + 1;
    }
    var members;
    members, at := ParsePairs(text, at);
    if members.Some? && At(text, at) == RBRACE {
      assert text[at..][1..] == text[at + 1..];
      return Some(Obj(members.value)), at + 1;
    }
    r := None;
  }

  /** The colon and the value that belong to a name. */
  method ParseLabelled(text: Text, start: nat, name: Text) returns (r: Option<(Text, Json)>, at: nat)
    requires start <= |text| && NulFree(text) && !Labelled(name, text[start..]).Astray?
    ensures Agrees(text, r, at, Labelled(name, text[start..])) && at <= |text|
    decreases |text| - start, 2
  {
    if At(text, start) != COLON {
      return None, start;
    }
    assert text[start..][1..] == text[start + 1..];
    at := SkipBlank(text, start + 1);
    var t, end := ParseValue(text, at);
    if t.None? {
      return None, at;
    }
    r, at := Some((name, t.value)), end;
  }

  /** A name, a colon and a value. */
  method ParsePair(text: Text, start: nat) returns (r: Option<(Text, Json)>, at: nat)
    requires start <= |text| && NulFree(text) && !Pair(text[start..]).Astray?
    ensures Agrees(text, r, at, Pair(text[start..])) && at <= |text|
    decreases |text| - start, 3
  {
    at := SkipBlank(text, start);
    var name, end := ParseName(text, at);
    if name.None? {
      return None, at;
    }
    at := SkipBlank(text, end);
    r, at := ParseLabelled(text, at, name.value);
  }

  /** One member, which becomes the last of the chain. */
  method ParseMember(text: Text, start: nat, chain: Members) returns (r: Option<Members>, at: nat)
    requires start <= |text| && NulFree(text) && !Pairs(text[start..]).Astray?
    ensures at <= |text| && (r.None? ==> Pairs(text[start..]).Fail?)
    ensures r.Some? ==>
              start < at && AttachMembers(chain, Pairs(text[start..])) == AttachMembers(r.value, MoreMembers(text[at..]))
    decreases |text| - start, 4
  {
    var pair, end := ParsePair(text, start);
    if pair.None? {
      return None, start;
    }
    PairsStep(chain, text[start..]);
    at := SkipBlank(text, end);
    r := Some(ConcatMembers(chain, Member(pair.value.0, pair.value.1, NoMembers)));
  }

  /** The loop of parse_object that builds the child chain. */
  method ParsePairs(text: Text, start: nat) returns (r: Option<Members>, at: nat)
    requires start <= |text| && NulFree(text) && !Pairs(text[start..]).Astray?
    ensures Agrees(text, r, at, Pairs(text[start..])) && at <= |text|
    decreases |text| - start, 5
  {
    ghost var spec := Pairs(text[start..]);
    assert AttachMembers(NoMembers, spec) == spec;
    r, at := ParseMember(text, start, NoMembers);
    while r.Some? && At(text, at) == COMMA
      invariant at <= |text| && (r.None? ==> spec.Fail?)
      invariant r.Some? ==> start < at && spec == AttachMembers(r.value, MoreMembers(text[at..]))
      decreases r.Some?, |text| - at
    {
      assert text[at..][1..] == text[at + 1..];
      r, at := ParseMember(text, at + 1, r.value);
    }
    if r.Some? {
      ConcatMembersNone(r.value);
    }
  }

  lemma {:induction false} ConcatMembersNone(a: Members)
    ensures ConcatMembers(a, NoMembers) == a
  {
    if a.Member? {
      ConcatMembersNone(a.next);
    }
  }

  /** cJSON_ParseWithOpts without the end pointer: the tree, or NULL. */
  method Parse(text: Text, requireEnd: bool) returns (r: Option<Json>)
    requires NulFree(text) && !Value(Skip(text)).Astray?
    ensures var v := Value(Skip(text));
            r == if v.Ok? && (requireEnd ==> Skip(v.rest) == []) then Some(v.value) else None
  {
    assert text[0..] == text;
    var at := SkipBlank(text, 0);
    r, at := ParseValue(text, at);
    if r.Some? && requireEnd {
      at := SkipBlank(text, at);
      if At(text, at) != 0 {
        r := None;
      }
    }
  }
}
