/** What a string literal means by section 7 of RFC 8259, written down from the grammar, and what parse_string makes of it. */
module JsonMeaning {
  import opened Prelude
  import opened JsonText
  import opened JsonUnicode
  import opened JsonParse
  import opened JsonLiterals

  // ----- four hex digits

  const LOWER_DIGITS := "0123456789abcdef"
  const UPPER_DIGITS := "0123456789ABCDEF"

  /** c is the hex digit of value d, in either case. */
  predicate SpellsDigit(c: byte, d: nat)
    requires d < 16
  {
    c == LOWER_DIGITS[d] as int || c == UPPER_DIGITS[d] as int
  }

  /** The four bytes spell u. */
  predicate Spells(h: seq<byte>, u: nat) {
    && |h| == 4 && u < 0x1_0000
    && SpellsDigit(h[0], u / 16 / 16 / 16) && SpellsDigit(h[1], u / 16 / 16 % 16)
    && SpellsDigit(h[2], u / 16 % 16) && SpellsDigit(h[3], u % 16)
  }

  lemma SpelledDigit(c: byte, d: nat)
    requires d < 16
    ensures SpellsDigit(c, d) <==> IsHex(c) && HexValue(c) == d
  {
    assert LOWER_DIGITS[d] as int == if d < 10 then 48 + d else 87 + d;
    assert UPPER_DIGITS[d] as int == if d < 10 then 48 + d else 55 + d;
  }

  predicate Hex4Ahead(text: Text) {
    |text| >= 4 && IsHex(text[0]) && IsHex(text[1]) && IsHex(text[2]) && IsHex(text[3])
  }

  lemma LastDigit(x: nat, d: nat, u: nat)
    requires d < 16
    ensures u == x * 16 + d <==> x == u / 16 && d == u % 16
  {
  }

  /** parse_hex4 reads every spelling, and nothing else as a number but zero. */
  lemma SpelledHex4(h: seq<byte>, u: nat)
    ensures Spells(h, u) <==> |h| == 4 && Hex4Ahead(h) && Hex4(h) == u
  {
    hide HexValue, IsHex, SpellsDigit;
    if |h| == 4 && u < 0x1_0000 {
      if Hex4Ahead(h) {
        var a, b := HexValue(h[0]), HexValue(h[0]) * 16 + HexValue(h[1]);
        LastDigit(a, HexValue(h[1]), u / 16 / 16);
        LastDigit(b, HexValue(h[2]), u / 16);
        LastDigit(b * 16 + HexValue(h[2]), HexValue(h[3]), u);
      }
      SpelledDigit(h[0], u / 16 / 16 / 16);
      SpelledDigit(h[1], u / 16 / 16 % 16);
      SpelledDigit(h[2], u / 16 % 16);
      SpelledDigit(h[3], u % 16);
    }
  }

  lemma HexIsPlain(h: seq<byte>, rest: Text)
    requires |h| == 4 && Hex4Ahead(h)
    ensures Plain4(h + rest) && (h + rest)[..4] == h && (h + rest)[4..] == rest
  {
  }

  // ----- escapes

  /** The two-character escapes. */
  function Named(letter: byte): Option<nat> {
    match letter
    case 34 => Some(0x22)  // quotation mark
    case 92 => Some(0x5C)  // reverse solidus
    case 47 => Some(0x2F)  // solidus
    case 98 => Some(0x08)  // b: backspace
    case 102 => Some(0x0C) // f: form feed
    case 110 => Some(0x0A) // n: line feed
    case 114 => Some(0x0D) // r: carriage return
    case 116 => Some(0x09) // t: tab
    case _ => None
  }

  /** The code point that two surrogates stand for (section 2.2 of RFC 2781). */
  function Paired(hi: nat, lo: nat): (u: nat)
    requires HighSurrogate(hi) && LowSurrogate(lo)
    ensures 0x1_0000 <= u < 0x11_0000
  {
    (hi - 0xD800) * 0x400 + (lo - 0xDC00) + 0x1_0000
  }

  lemma PairedIsCombined(hi: nat, lo: nat)
    requires HighSurrogate(hi) && LowSurrogate(lo)
    ensures Combine(hi, lo) == Paired(hi, lo)
  {
  }

  /** The escapes of code point u: one \u, or two for a surrogate pair, with digits in any case. */
  ghost predicate Escapes(t: Text, u: nat) {
    if u < 0x1_0000 then |t| == 6 && t[..2] == [BACKSLASH, 117] && Spells(t[2..], u)
    else
      && |t| == 12 && t[..2] == t[6..8] == [BACKSLASH, 117]
      && exists hi, lo :: HighSurrogate(hi) && LowSurrogate(lo) && Paired(hi, lo) == u && Spells(t[2..6], hi) && Spells(t[8..], lo)
  }

  predicate EscapeAhead(text: Text) {
    |text| > 1 && text[0] == BACKSLASH && text[1] == 117
  }

  lemma Behind(h: seq<byte>, next: Text, n: nat)
    requires n <= |next|
    ensures (h + next)[|h| + n..] == next[n..]
  {
  }

  lemma BasicEscape(h: seq<byte>, u: nat, rest: Text)
    requires Spells(h, u)
    ensures LowSurrogate(u) || u == 0 ==> Unicode(h + rest) == Some(([], 4))
    ensures HighSurrogate(u) && !EscapeAhead(rest) ==> Unicode(h + rest) == Some(([], 4))
    ensures Scalar(u) && u != 0 ==> Unicode(h + rest) == Some((Utf8(u), 4))
  {
    hide Utf8, Hex4, Spells;
    SpelledHex4(h, u);
    HexIsPlain(h, rest);
    assert rest != [] ==> (h + rest)[5..] == rest[1..];
  }

  lemma PairEscape(h: seq<byte>, hi: nat, l: seq<byte>, lo: nat, rest: Text)
    requires Spells(h, hi) && HighSurrogate(hi) && Spells(l, lo)
    ensures var text := h + ([BACKSLASH, 117] + (l + rest));
            Unicode(text) == Some((if LowSurrogate(lo) then Utf8(Paired(hi, lo)) else [], 10))
  {
    hide Utf8, Hex4, Spells, Combine;
    var next := [BACKSLASH, 117] + (l + rest);
    SpelledHex4(h, hi);
    SpelledHex4(l, lo);
    HexIsPlain(h, next);
    HexIsPlain(l, rest);
    var text := h + next;
    Behind(h, next, 1);
    Behind(h, next, 2);
    assert next[2..] == l + rest;
    assert text[6..10] == (l + rest)[..4];
    if LowSurrogate(lo) {
      PairedIsCombined(hi, lo);
    }
  }

  /**
   * The escapes of a code point other than zero, surrogate pairs included, decode to its UTF-8 form;
   * and that form decodes to the code point.
   */
  lemma EscapeMeansCodePoint(t: Text, u: nat, rest: Text)
    requires Scalar(u) && u != 0 && Escapes(t, u)
    ensures var text := t + rest; Peek(text) != 0 && Char(text) == Some((Utf8(u), |t|)) && Decode(Utf8(u)) == Some(u)
  {
    hide Utf8, Decode, Spells, Unicode;
    Utf8Decodes(u);
    var text := t + rest;
    if u < 0x1_0000 {
      BasicEscape(t[2..], u, rest);
      assert text[2..] == t[2..] + rest;
    } else {
      var hi, lo :| HighSurrogate(hi) && LowSurrogate(lo) && Paired(hi, lo) == u && Spells(t[2..6], hi) && Spells(t[8..], lo);
      PairEscape(t[2..6], hi, t[8..], lo, rest);
      assert t == t[..2] + t[2..6] + t[6..8] + t[8..];
      assert text[2..] == t[2..6] + ([BACKSLASH, 117] + (t[8..] + rest));
    }
  }

  /** A surrogate without its other half stands for nothing; a high one takes the escape behind it along. */
  lemma LoneSurrogate(h: seq<byte>, u: nat, l: seq<byte>, v: nat, rest: Text)
    requires Spells(h, u) && Spells(l, v) && !LowSurrogate(v)
    ensures LowSurrogate(u) || (HighSurrogate(u) && !EscapeAhead(rest)) ==>
              Char([BACKSLASH, 117] + (h + rest)) == Some(([], 6))
    ensures HighSurrogate(u) ==> Char([BACKSLASH, 117] + (h + ([BACKSLASH, 117] + (l + rest)))) == Some(([], 12))
  {
    hide Spells, Unicode;
    BasicEscape(h, u, rest);
    if HighSurrogate(u) {
      PairEscape(h, u, l, v, rest);
    }
  }

  // ----- whole literals

  /** An element of a literal: a byte that stands for itself, a two-character escape, or four digits that spell u. */
  datatype Token = Raw(c: byte) | Letter(c: byte) | Hex(h: seq<byte>, u: nat)

  /** By the grammar: unescaped is everything but control characters, the quotation mark and the reverse solidus. */
  predicate IsToken(t: Token) {
    match t
    case Raw(c) => c >= 0x20 && c != 0x22 && c != 0x5C
    case Letter(c) => Named(c).Some?
    case Hex(h, u) => Spells(h, u)
  }

  /** The UTF-8 form of an unescaped code point consists of bytes that stand for themselves. */
  lemma UnescapedPoint(u: nat)
    requires Scalar(u) && u >= 0x20 && u != 0x22 && u != 0x5C
    ensures forall c :: c in Utf8(u) ==> IsToken(Raw(c))
  {
    hide Utf8;
    Utf8Decodes(u);
  }

  function Spelling(t: Token): Text {
    match t
    case Raw(c) => [c]
    case Letter(c) => [BACKSLASH, c]
    case Hex(h, _) => [BACKSLASH, 117] + h
  }

  ghost predicate Tokens(ts: seq<Token>) {
    forall t :: t in ts ==> IsToken(t)
  }

  /** The text of a literal behind its first quotation mark, with rest behind the last one. */
  function Literal(ts: seq<Token>, rest: Text): Text {
    if ts == [] then [QUOTE] + rest else Spelling(ts[0]) + Literal(ts[1..], rest)
  }

  /** A byte of a code point that stands for itself, an escaped code point, or a surrogate without its other half. */
  datatype Unit = Byte(c: byte) | Point(u: nat) | Lone(u: nat)

  /** Whether the first two tokens are a surrogate pair. */
  predicate PairAhead(ts: seq<Token>) {
    |ts| > 1 && ts[0].Hex? && ts[1].Hex? && HighSurrogate(ts[0].u) && LowSurrogate(ts[1].u)
  }

  /** What the first tokens mean. */
  function First(ts: seq<Token>): Unit
    requires ts != []
  {
    if PairAhead(ts) then Point(Paired(ts[0].u, ts[1].u))
    else
      match ts[0]
      case Raw(c) => Byte(c)
      case Letter(c) => Point(if Named(c).Some? then Named(c).value else 0)
      case Hex(_, u) => if HighSurrogate(u) || LowSurrogate(u) then Lone(u) else Point(u)
  }

  /** How many tokens that takes. */
  function Span(ts: seq<Token>): (k: nat)
    requires ts != []
    ensures 0 < k <= |ts|
  {
    if PairAhead(ts) then 2 else 1
  }

  /** What a literal means. */
  function Meaning(ts: seq<Token>): seq<Unit> {
    if ts == [] then [] else [First(ts)] + Meaning(ts[Span(ts)..])
  }

  /** How many tokens one turn of the loop of parse_string passes: a high surrogate takes the escape behind it along. */
  function Pass(ts: seq<Token>): (k: nat)
    requires ts != []
    ensures 0 < k <= |ts|
  {
    if ts[0].Hex? && HighSurrogate(ts[0].u) && |ts| > 1 && ts[1].Hex? then 2 else 1
  }

  /** Zeros and surrogates without their other half are dropped. */
  function Kept(x: Unit): seq<Unit> {
    if x == Point(0) || x.Lone? then [] else [x]
  }

  /** What parse_string takes the literal for. */
  function Taken(ts: seq<Token>): seq<Unit> {
    if ts == [] then [] else Kept(First(ts)) + Taken(ts[Pass(ts)..])
  }

  function Form(x: Unit): Text {
    match x
    case Byte(c) => [c]
    case Point(u) => if u < 0x11_0000 then Utf8(u) else []
    case Lone(_) => []
  }

  /** The UTF-8 forms, one behind the other. */
  function Forms(xs: seq<Unit>): Text {
    if xs == [] then [] else Form(xs[0]) + Forms(xs[1..])
  }

  lemma LetterRead(c: byte, more: Text)
    requires Named(c).Some?
    ensures Char([BACKSLASH, c] + more) == Some((Utf8(Named(c).value), 2)) && ([BACKSLASH, c] + more)[2..] == more
  {
  }

  lemma HexRead(h: seq<byte>, u: nat, more: Text)
    requires Spells(h, u) && !(HighSurrogate(u) && EscapeAhead(more))
    ensures var text := [BACKSLASH, 117] + h + more;
            Char(text) == Some((if Scalar(u) && u != 0 then Utf8(u) else [], 6)) && text[6..] == more
  {
    hide Spells, Unicode, Utf8;
    SpelledHex4(h, u);
    BasicEscape(h, u, more);
    assert ([BACKSLASH, 117] + h + more)[2..] == h + more;
  }

  lemma PairRead(h: seq<byte>, u: nat, l: seq<byte>, v: nat, more: Text)
    requires Spells(h, u) && HighSurrogate(u) && Spells(l, v)
    ensures var text := [BACKSLASH, 117] + h + ([BACKSLASH, 117] + l + more);
            && Char(text) == Some((if LowSurrogate(v) then Utf8(Paired(u, v)) else [], 12)) && text[12..] == more
  {
    hide Spells, Unicode, Utf8, Paired;
    SpelledHex4(h, u);
    SpelledHex4(l, v);
    PairEscape(h, u, l, v, more);
    assert ([BACKSLASH, 117] + h + ([BACKSLASH, 117] + l + more))[2..] == h + ([BACKSLASH, 117] + (l + more));
  }

  /** No spelling but that of a \u begins like one. */
  lemma NoEscapeAhead(ts: seq<Token>, rest: Text)
    requires Tokens(ts) && !(ts != [] && ts[0].Hex?)
    ensures !EscapeAhead(Literal(ts, rest))
  {
    var text := Literal(ts, rest);
    if ts != [] {
      assert IsToken(ts[0]) && text[0] == Spelling(ts[0])[0];
      assert ts[0].Letter? ==> text[1] == ts[0].c != 117;
    }
  }

  lemma TokenRead(ts: seq<Token>, rest: Text)
    requires Tokens(ts) && ts != []
    ensures var text := Literal(ts, rest);
            && Peek(text) != 0 && Peek(text) != QUOTE
            && Char(text).Some? && Char(text).value.0 == Forms(Kept(First(ts)))
            && text[Char(text).value.1..] == Literal(ts[Pass(ts)..], rest)
  {
    hide Utf8, Paired, Spells, Char;
    var t, more := ts[0], Literal(ts[1..], rest);
    assert IsToken(t);
    match t
    case Raw(c) => RawRead(c, more);
    case Letter(c) => LetterRead(c, more);
    case Hex(h, u) =>
      if Pass(ts) == 2 {
        assert IsToken(ts[1]);
        PairRead(h, u, ts[1].h, ts[1].u, Literal(ts[2..], rest));
      } else {
        if HighSurrogate(u) {
          NoEscapeAhead(ts[1..], rest);
        }
        HexRead(h, u, more);
      }
  }

  lemma RawRead(c: byte, more: Text)
    requires c != 0 && c != BACKSLASH
    ensures Char([c] + more) == Some(([c], 1)) && ([c] + more)[1..] == more
  {
  }

  lemma FormsOfKept(x: Unit, xs: seq<Unit>)
    ensures Forms(Kept(x) + xs) == Forms(Kept(x)) + Forms(xs)
  {
    if Kept(x) == [] {
      assert Kept(x) + xs == xs;
    } else {
      assert ([x] + xs)[1..] == xs && Forms([x]) == Form(x) + [] == Form(x);
    }
  }

  /** parse_string on the literal of any tokens: it is read to its last quotation mark, and what comes out are the UTF-8 forms. */
  lemma {:induction false} LiteralTaken(ts: seq<Token>, rest: Text)
    requires Tokens(ts)
    ensures Body(Literal(ts, rest)) == Ok(Forms(Taken(ts)), [QUOTE] + rest)
    decreases |ts|
  {
    if ts != [] {
      TokenRead(ts, rest);
      LiteralTaken(ts[Pass(ts)..], rest);
      FormsOfKept(First(ts), Taken(ts[Pass(ts)..]));
    }
  }

  // ----- when that is what the literal means

  /** The literal has no zero and no surrogate without its other half. */
  ghost predicate Clean(xs: seq<Unit>) {
    forall x :: x in xs ==> x != Point(0) && !x.Lone?
  }

  lemma TailMembers(x: Unit, xs: seq<Unit>)
    ensures forall y :: y in [x] + xs <==> y == x || y in xs
  {
  }

  lemma {:induction false} TakenClean(ts: seq<Token>)
    ensures Clean(Taken(ts))
    decreases |ts|
  {
    if ts != [] {
      TakenClean(ts[Pass(ts)..]);
    }
  }

  /** The loop passes what has no lone surrogate unit by unit. */
  lemma SameStep(ts: seq<Token>)
    requires ts != [] && !First(ts).Lone?
    ensures Pass(ts) == Span(ts)
  {
  }

  /** Unit by unit, a literal is taken for what it means if and only if that has no zero and no lone surrogate. */
  lemma {:induction false} TakenMeansIff(ts: seq<Token>)
    ensures Taken(ts) == Meaning(ts) <==> Clean(Meaning(ts))
    decreases |ts|
  {
    TakenClean(ts);
    if !Clean(Meaning(ts)) {
      assert Taken(ts) != Meaning(ts);
    } else if ts != [] {
      hide First, Pass, Span;
      TailMembers(First(ts), Meaning(ts[Span(ts)..]));
      SameStep(ts);
      TakenMeansIff(ts[Span(ts)..]);
    }
  }

  /** Every surrogate has its other half: the literal stands for a sequence of code points. */
  ghost predicate Unbroken(xs: seq<Unit>) {
    forall x :: x in xs ==> !x.Lone?
  }

  /** Each zero costs one byte. */
  lemma {:induction false} ZerosMissing(ts: seq<Token>)
    requires Unbroken(Meaning(ts))
    ensures |Forms(Taken(ts))| <= |Forms(Meaning(ts))|
    ensures Point(0) in Meaning(ts) ==> |Forms(Taken(ts))| < |Forms(Meaning(ts))|
    decreases |ts|
  {
    if ts != [] {
      hide First, Pass, Span, Utf8;
      TailMembers(First(ts), Meaning(ts[Span(ts)..]));
      SameStep(ts);
      ZerosMissing(ts[Span(ts)..]);
      FormsOfKept(First(ts), Taken(ts[Pass(ts)..]));
      assert |Form(Point(0))| > 0;
    }
  }

  /**
   * A literal stands for code points and parse_string returns their UTF-8 form, and the text behind the literal, if and
   * only if no code point is zero and no surrogate lacks its other half.  The grammar allows both.
   */
  lemma StringMeansIff(ts: seq<Token>, rest: Text)
    requires Tokens(ts)
    ensures Unbroken(Meaning(ts)) && String([QUOTE] + Literal(ts, rest)) == Ok(Forms(Meaning(ts)), rest) <==> Clean(Meaning(ts))
  {
    StringTaken(ts, rest);
    TakenMeansIff(ts);
    if Unbroken(Meaning(ts)) {
      ZerosMissing(ts);
    }
  }

  lemma StringTaken(ts: seq<Token>, rest: Text)
    requires Tokens(ts)
    ensures String([QUOTE] + Literal(ts, rest)) == Ok(Forms(Taken(ts)), rest)
  {
    LiteralTaken(ts, rest);
    assert ([QUOTE] + Literal(ts, rest))[1..] == Literal(ts, rest);
    assert ([QUOTE] + rest)[1..] == rest;
  }

  // ----- well-formed literals

  /** The rest of a string literal by the grammar in section 7 of RFC 8259, up to its closing quote. */
  predicate WellFormed(text: Text)
    decreases |text|
  {
    var c := Peek(text);
    if c == QUOTE then true
    else if c == BACKSLASH then
      var e := Peek(text[1..]);
      if e == QUOTE || e == BACKSLASH || e == SLASH || e == 98 || e == 102 || e == 110 || e == 114 || e == 116 then
        WellFormed(text[2..])
      else e == 117 && |text| >= 6 && IsHex(text[2]) && IsHex(text[3]) && IsHex(text[4]) && IsHex(text[5])
           && WellFormed(text[6..])
    else c >= 0x20 && WellFormed(text[1..])
  }

  /** A text is a literal by the grammar if and only if it is spelled by tokens. */
  lemma WellFormedIff(text: Text)
    ensures WellFormed(text) <==> exists ts, rest :: Tokens(ts) && text == Literal(ts, rest)
  {
    if WellFormed(text) {
      var ts, rest := Tokenized(text);
    }
    if exists ts, rest :: Tokens(ts) && text == Literal(ts, rest) {
      var ts, rest :| Tokens(ts) && text == Literal(ts, rest);
      LiteralWellFormed(ts, rest);
    }
  }

  lemma {:induction false} Tokenized(text: Text) returns (ts: seq<Token>, rest: Text)
    requires WellFormed(text)
    ensures Tokens(ts) && text == Literal(ts, rest)
    decreases |text|
  {
    if Peek(text) == QUOTE {
      ts, rest := [], text[1..];
    } else {
      var t := FirstToken(text);
      hide IsToken, WellFormed, Spelling;
      var more;
      more, rest := Tokenized(text[|Spelling(t)|..]);
      ts := [t] + more;
      assert text == Spelling(t) + text[|Spelling(t)|..];
      assert ts[1..] == more;
    }
  }

  lemma FirstToken(text: Text) returns (t: Token)
    requires WellFormed(text) && Peek(text) != QUOTE
    ensures IsToken(t) && Spelling(t) <= text && WellFormed(text[|Spelling(t)|..])
  {
    hide Hex4, Spells, IsHex;
    if text[0] != BACKSLASH {
      t := Raw(text[0]);
    } else if text[1] != 117 {
      t := Letter(text[1]);
    } else {
      var h := text[2..6];
      SpelledHex4(h, Hex4(h));
      t := Hex(h, Hex4(h));
      assert text[..6] == [BACKSLASH, 117] + h;
    }
  }

  lemma {:induction false} LiteralWellFormed(ts: seq<Token>, rest: Text)
    requires Tokens(ts)
    ensures WellFormed(Literal(ts, rest))
  {
    if ts != [] {
      assert IsToken(ts[0]);
      var text, more := Literal(ts, rest), Literal(ts[1..], rest);
      LiteralWellFormed(ts[1..], rest);
      match ts[0]
      case Hex(h, u) =>
        SpelledHex4(h, u);
        assert text[6..] == more;
      case Letter(_) => assert text[2..] == more;
      case Raw(_) =>
    }
  }

  /** So every literal of the grammar is read up to its closing quote, and what comes out is known. */
  lemma WellFormedMeans(text: Text)
    requires WellFormed(text)
    ensures exists ts, rest :: Tokens(ts) && text == Literal(ts, rest) && Body(text) == Ok(Forms(Taken(ts)), [QUOTE] + rest)
  {
    var ts, rest := Tokenized(text);
    LiteralTaken(ts, rest);
  }

  // ----- what print_string_ptr writes

  /** The quoted form of every C string is a literal of the grammar. */
  lemma {:induction false} QuotedIsLiteral(s: Text, rest: Text)
    requires NulFree(s)
    ensures WellFormed(Escape(s) + [QUOTE] + rest)
  {
    var more := if s == [] then [] else Escape(s[1..]) + [QUOTE] + rest;
    if s != [] {
      QuotedIsLiteral(s[1..], rest);
      assert Escape(s) + [QUOTE] + rest == EscapeByte(s[0]) + more;
      EscapeByteWellFormed(s[0], more);
    }
  }

  lemma EscapeByteWellFormed(c: byte, more: Text)
    requires c != 0 && WellFormed(more)
    ensures WellFormed(EscapeByte(c) + more)
  {
    var text := EscapeByte(c) + more;
    assert text[|EscapeByte(c)|..] == more;
  }
}
