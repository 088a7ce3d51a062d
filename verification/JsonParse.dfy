/** The cJSON parser as functions on the text that is still ahead, and the proof that it undoes the printer. */
module JsonParse {
  import opened Prelude
  import opened JsonText
  import opened JsonUnicode

  /**
   * What a parsing function returns: a value and the text behind it; the place of a failure (ep); or Astray, for a string
   * literal with an escape that the source steps over blindly (see Plain4), whose behaviour is not modelled.
   */
  datatype Parsed<+T> = Ok(value: T, rest: Text) | Fail(at: Text) | Astray

  /** *text, where the end of the text reads as the terminator. */
  function Peek(text: Text): byte {
    if text == [] then 0 else text[0]
  }

  function Skip(text: Text): (r: Text)
    ensures |r| <= |text|
  {
    if Peek(text) != 0 && Peek(text) <= 32 then Skip(text[1..]) else text
  }

  predicate IsDigit(c: byte) {
    ZERO <= c < ZERO + 10
  }

  // ----- numbers

  /** The digit loops: n times ten plus the digit, as long as there are digits. */
  function Scan(text: Text, n: nat): (r: (nat, Text))
    ensures |r.1| <= |text| && (IsDigit(Peek(text)) ==> |r.1| < |text|)
  {
    if IsDigit(Peek(text)) then Scan(text[1..], n * 10 + (Peek(text) - ZERO)) else (n, text)
  }

  function Pow10(e: int): real
    decreases if e < 0 then -e else e
  {
    if e == 0 then 1.0 else if e > 0 then 10.0 * Pow10(e - 1) else Pow10(e + 1) / 10.0
  }

  /** The part of a number before the fraction. */
  function Whole(text: Text): (r: (nat, Text))
    ensures |r.1| <= |text| && (IsDigit(Peek(text)) ==> |r.1| < |text|)
  {
    var t := if Peek(text) == ZERO then text[1..] else text;
    if IsDigit(Peek(t)) && Peek(t) != ZERO then Scan(t, 0) else (0, t)
  }

  /** The digits behind a dot continue the number; their count is the scale. */
  function Fraction(text: Text, n: nat): (r: (nat, nat, Text))
    ensures |r.2| <= |text|
  {
    if Peek(text) == DOT && IsDigit(Peek(text[1..])) then
      var (m, t) := Scan(text[1..], n);
      (m, |text| - 1 - |t|, t)
    else (n, 0, text)
  }

  function Exponent(text: Text): (r: (int, Text))
    ensures |r.1| <= |text|
  {
    if Peek(text) == 101 || Peek(text) == 69 then
      var neg := Peek(text[1..]) == MINUS;
      var t := if neg || Peek(text[1..]) == PLUS then text[2..] else text[1..];
      var (e, t') := Scan(t, 0);
      (if neg then 0 - (e as int) else e, t')
    else (0, text)
  }

  /** Sign, digits and exponent make the value. */
  function NumberValue(neg: bool, m: nat, e: int): real {
    (if neg then -1.0 else 1.0) * m as real * Pow10(e)
  }

  /** parse_number */
  function Number(text: Text): (r: Parsed<Json>)
    requires Peek(text) == MINUS || IsDigit(Peek(text))
    ensures r.Ok? && |r.rest| < |text|
  {
    var neg := Peek(text) == MINUS;
    var (n, t1) := Whole(if neg then text[1..] else text);
    var (m, scale, t2) := Fraction(t1, n);
    var (e, t3) := Exponent(t2);
    Ok(Num(NumberValue(neg, m, e - scale)), t3)
  }

  // ----- strings

  /** Four bytes that both passes of parse_string treat alike: none ends the text, the literal, or starts an escape. */
  predicate Plain4(text: Text) {
    |text| >= 4 && forall k :: 0 <= k < 4 ==> text[k] != 0 && text[k] != QUOTE && text[k] != BACKSLASH
  }

  /** Behind a \u: the bytes it stands for and how many bytes of text they take. */
  function Unicode(text: Text): (r: Option<(seq<byte>, nat)>)
    ensures r.Some? ==> r.value.1 <= |text| && |r.value.0| <= 4
  {
    if !Plain4(text) then None
    else
      var u := Hex4(text[..4]);
      if LowSurrogate(u) || u == 0 then Some(([], 4))
      else if HighSurrogate(u) then
        if Peek(text[4..]) != BACKSLASH || Peek(text[5..]) != 117 then Some(([], 4))
        else if !Plain4(text[6..]) then None
        else
          var u2 := Hex4(text[6..10]);
          Some((if LowSurrogate(u2) then Utf8(Combine(u, u2)) else [], 10))
      else Some((Utf8(u), 4))
  }

  /** The byte for the letter of a two-character escape; other letters stand for themselves. */
  function Unescape(c: byte): byte {
    match c
    case 98 => 8
    case 102 => 12
    case 110 => 10
    case 114 => 13
    case 116 => 9
    case _ => c
  }

  /** One turn of the second loop of parse_string: the bytes stored and the number of bytes read. */
  function Char(text: Text): (r: Option<(seq<byte>, nat)>)
    requires Peek(text) != 0
    ensures r.Some? ==> 0 < r.value.1 <= |text|
  {
    if text[0] != BACKSLASH then Some(([text[0]], 1))
    else if Peek(text[1..]) == 0 then None
    else if text[1] != 117 then Some(([Unescape(text[1])], 2))
    else match Unicode(text[2..])
      case None => None
      case Some((bytes, n)) => Some((bytes, 2 + n))
  }

  /** The second loop: the decoded bytes up to the closing quote or the end of the text. */
  function Body(text: Text): (r: Parsed<Text>)
    ensures r.Ok? ==> |r.rest| <= |text| && (Peek(r.rest) == 0 || Peek(r.rest) == QUOTE)
    ensures !r.Fail?
    decreases |text|
  {
    if Peek(text) == QUOTE || Peek(text) == 0 then Ok([], text)
    else match Char(text)
      case None => Astray
      case Some((bytes, n)) => Prepend(bytes, Body(text[n..]))
  }

  function Prepend(bytes: Text, r: Parsed<Text>): Parsed<Text> {
    if r.Ok? then Ok(bytes + r.value, r.rest) else r
  }

  /** The first loop: the length it allocates for the decoded bytes. */
  function Count(text: Text): nat
    decreases |text|
  {
    if Peek(text) == QUOTE || Peek(text) == 0 then 0
    else if text[0] == BACKSLASH && |text| > 1 then 1 + Count(text[2..])
    else 1 + Count(text[1..])
  }

  /** parse_string */
  function String(text: Text): (r: Parsed<Text>)
    ensures r.Ok? ==> |r.rest| < |text|
  {
    if Peek(text) != QUOTE then Fail(text)
    else match Body(text[1..])
      case Ok(s, rest) => Ok(s, if Peek(rest) == QUOTE then rest[1..] else rest)
      case r => r
  }

  // ----- values

  predicate StartsWith(text: Text, s: Text) {
    s <= text
  }

  /** parse_value */
  function Value(text: Text): (r: Parsed<Json>)
    ensures r.Ok? ==> |r.rest| < |text|
    decreases |text|, 1
  {
    if StartsWith(text, NULL_TEXT) then Ok(Null, text[4..])
    else if StartsWith(text, FALSE_TEXT) then Ok(False, text[5..])
    else if StartsWith(text, TRUE_TEXT) then Ok(True, text[4..])
    else if Peek(text) == QUOTE then
      match String(text)
      case Ok(s, rest) => Ok(Str(s), rest)
      case Fail(at) => Fail(at)
      case Astray => Astray
    else if Peek(text) == MINUS || IsDigit(Peek(text)) then Number(text)
    else if Peek(text) == LBRACKET then Array(text)
    else if Peek(text) == LBRACE then Object(text)
    else Fail(text)
  }

  /** parse_array */
  function Array(text: Text): (r: Parsed<Json>)
    requires Peek(text) == LBRACKET
    ensures r.Ok? ==> |r.rest| < |text|
    decreases |text|, 0
  {
    var t := Skip(text[1..]);
    if Peek(t) == RBRACKET then Ok(Arr(NoItems), t[1..])
    else match Elements(t)
      case Ok(items, rest) => if Peek(rest) == RBRACKET then Ok(Arr(items), rest[1..]) else Fail(rest)
      case Fail(at) => Fail(at)
      case Astray => Astray
  }

  /** A value, and further ones as long as a comma follows. */
  function Elements(text: Text): (r: Parsed<Items>)
    ensures r.Ok? ==> |r.rest| <= |text|
    decreases |text|, 2
  {
    match Value(Skip(text))
    case Fail(at) => Fail(at)
    case Astray => Astray
    case Ok(v, rest) =>
      var t := Skip(rest);
      if Peek(t) != COMMA then Ok(Item(v, NoItems), t)
      else match Elements(t[1..])
        case Ok(items, rest') => Ok(Item(v, items), rest')
        case r => r
  }

  /** parse_object */
  function Object(text: Text): (r: Parsed<Json>)
    requires Peek(text) == LBRACE
    ensures r.Ok? ==> |r.rest| < |text|
    decreases |text|, 0
  {
    var t := Skip(text[1..]);
    if Peek(t) == RBRACE then Ok(Obj(NoMembers), t[1..])
    else match Pairs(t)
      case Ok(members, rest) => if Peek(rest) == RBRACE then Ok(Obj(members), rest[1..]) else Fail(rest)
      case Fail(at) => Fail(at)
      case Astray => Astray
  }

  /** A name, a colon and a value. */
  function Pair(text: Text): (r: Parsed<(Text, Json)>)
    ensures r.Ok? ==> |r.rest| < |text|
    decreases |text|, 3
  {
    match String(Skip(text))
    case Fail(at) => Fail(at)
    case Astray => Astray
    case Ok(name, rest) => Labelled(name, Skip(rest))
  }

  /** The colon and the value that belong to a name. */
  function Labelled(name: Text, text: Text): (r: Parsed<(Text, Json)>)
    ensures r.Ok? ==> |r.rest| < |text|
    decreases |text|, 2
  {
    if Peek(text) != COLON then Fail(text)
    else match Value(Skip(text[1..]))
      case Ok(v, rest) => Ok((name, v), rest)
      case Fail(at) => Fail(at)
      case Astray => Astray
  }

  function Pairs(text: Text): (r: Parsed<Members>)
    ensures r.Ok? ==> |r.rest| <= |text|
    decreases |text|, 4
  {
    match Pair(text)
    case Fail(at) => Fail(at)
    case Astray => Astray
    case Ok((name, v), rest) =>
      var t := Skip(rest);
      if Peek(t) != COMMA then Ok(Member(name, v, NoMembers), t)
      else match Pairs(t[1..])
        case Ok(members, rest') => Ok(Member(name, v, members), rest')
        case r => r
  }
}
