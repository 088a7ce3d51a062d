/** What a number means by section 6 of RFC 8259, written down from its digits, and what parse_number makes of it. */
module JsonNumerals {
  import opened Prelude
  import opened JsonText
  import opened JsonParse

  type Digit = d: nat | d < 10

  /** The characters 0 to 9. */
  function Figure(d: Digit): byte {
    0x30 + (d as int)
  }

  function Figures(ds: seq<Digit>): Text {
    if ds == [] then [] else [Figure(ds[0])] + Figures(ds[1..])
  }

  /** "e" or "E", a sign or none, and the digits. */
  datatype Power = NoPower | Power(letter: byte, sign: Text, digits: seq<Digit>)

  /** A minus or none; a zero or none, and digits that do not begin with one; digits behind a point, or no point; a power. */
  datatype Numeral = Numeral(neg: bool, zero: bool, digits: seq<Digit>, frac: seq<Digit>, power: Power)

  predicate IsPower(p: Power) {
    p.NoPower? || ((p.letter == 0x65 || p.letter == 0x45) && (p.sign == [] || p.sign == [0x2B] || p.sign == [0x2D]))
  }

  /** What parse_number takes: also a zero in front of other digits, no digit behind a minus, and no digit in a power. */
  predicate IsNumeral(n: Numeral) {
    && (n.neg || n.zero || n.digits != []) && (n.digits != [] ==> n.digits[0] != 0)
    && IsPower(n.power)
  }

  /** What the grammar of section 6 allows. */
  predicate Standard(n: Numeral) {
    && IsNumeral(n) && n.zero == (n.digits == [])
    && (n.power.Power? ==> n.power.digits != [])
  }

  // ----- the text of a numeral, with rest behind it

  function PowerText(p: Power, rest: Text): Text {
    if p.NoPower? then rest else [p.letter] + (p.sign + (Figures(p.digits) + rest))
  }

  function FracText(ds: seq<Digit>, rest: Text): Text {
    if ds == [] then rest else [0x2E] + (Figures(ds) + rest)
  }

  function WholeText(n: Numeral, rest: Text): Text {
    (if n.zero then [0x30] else []) + (Figures(n.digits) + rest)
  }

  function NumeralText(n: Numeral, rest: Text): Text {
    (if n.neg then [0x2D] else []) + WholeText(n, FracText(n.frac, PowerText(n.power, rest)))
  }

  // ----- where a numeral ends

  predicate NoFigure(text: Text) {
    !(0x30 <= Peek(text) <= 0x39)
  }

  /** The digits in front of rest are all there are. */
  predicate WholeEnds(n: Numeral, rest: Text) {
    NoFigure(rest) || (n.digits == [] && n.zero && Peek(rest) == 0x30)
  }

  predicate FracEnds(ds: seq<Digit>, rest: Text) {
    if ds == [] then !(Peek(rest) == 0x2E && !NoFigure(rest[1..])) else NoFigure(rest)
  }

  predicate PowerEnds(p: Power, rest: Text) {
    if p.NoPower? then Peek(rest) != 0x65 && Peek(rest) != 0x45
    else NoFigure(rest) && (p.sign == [] && p.digits == [] ==> Peek(rest) != 0x2B && Peek(rest) != 0x2D)
  }

  /** No longer numeral begins the text. */
  predicate Ends(n: Numeral, rest: Text) {
    && PowerEnds(n.power, rest) && FracEnds(n.frac, PowerText(n.power, rest))
    && WholeEnds(n, FracText(n.frac, PowerText(n.power, rest)))
  }

  // ----- what it means

  /** The number that digits write. */
  function Units(ds: seq<Digit>): nat {
    if ds == [] then 0 else 10 * Units(ds[..|ds| - 1]) + ds[|ds| - 1]
  }

  /** The tenths, hundredths and so on that digits behind a point write. */
  function Tenths(ds: seq<Digit>): real {
    if ds == [] then 0.0 else (ds[0] as real + Tenths(ds[1..])) / 10.0
  }

  /** v with its point moved by e places. */
  function Shifted(v: real, e: int): real
    decreases if e < 0 then -e else e
  {
    if e == 0 then v else if e > 0 then Shifted(v * 10.0, e - 1) else Shifted(v / 10.0, e + 1)
  }

  function Places(p: Power): int {
    if p.NoPower? then 0 else if p.sign == [0x2D] then 0 - (Units(p.digits) as int) else Units(p.digits)
  }

  function Meant(n: Numeral): real {
    var v := Shifted(Units(n.digits) as real + Tenths(n.frac), Places(n.power));
    if n.neg then -v else v
  }

  // ----- powers of ten

  lemma Pow10Next(e: int)
    ensures Pow10(e + 1) == 10.0 * Pow10(e)
  {
  }

  lemma {:induction false} ShiftedIsProduct(v: real, e: int)
    ensures Shifted(v, e) == v * Pow10(e)
    decreases if e < 0 then -e else e
  {
    if e > 0 {
      ShiftedIsProduct(v * 10.0, e - 1);
      Regroup(v, 10.0, Pow10(e - 1));
    } else if e < 0 {
      ShiftedIsProduct(v / 10.0, e + 1);
      Pow10Next(e);
      Regroup(v / 10.0, 10.0, Pow10(e));
    }
  }

  lemma Regroup(a: real, b: real, c: real)
    ensures a * b * c == a * (b * c)
  {
  }

  lemma {:induction false} Pow10Split(n: nat, e: int)
    ensures Pow10(n) * Pow10(e - n) == Pow10(e)
  {
    if n > 0 {
      Pow10Split(n - 1, e);
      Pow10Next(e - n);
      Regroup(Pow10(n - 1), 10.0, Pow10(e - n));
    }
  }

  lemma PowerOfNone()
    ensures Pow10(0) == 1.0
  {
  }

  lemma PlaceStep(u: real, d: real, t: real, p: real)
    ensures (10.0 * u + d + t) * p == (u + (d + t) / 10.0) * (10.0 * p)
  {
    var w := (d + t) / 10.0;
    assert 10.0 * u + d + t == (u + w) * 10.0;
    Regroup(u + w, 10.0, p);
  }

  /** Digits behind a point make a number of the digits in front when the point is moved behind them. */
  lemma {:induction false} UnitsAndTenths(a: seq<Digit>, b: seq<Digit>)
    ensures Units(a + b) as real == (Units(a) as real + Tenths(b)) * Pow10(|b|)
    decreases |b|
  {
    hide Units, Pow10;
    if b == [] {
      assert a + b == a;
      PowerOfNone();
    } else {
      var a', p := a + [b[0]], Pow10(|b| - 1);
      assert a + b == a' + b[1..];
      UnitsAndTenths(a', b[1..]);
      UnitsNext(a, b[0]);
      PlaceStep(Units(a) as real, b[0] as real, Tenths(b[1..]), p);
      Pow10Next(|b| - 1);
    }
  }

  lemma UnitsNext(a: seq<Digit>, d: Digit)
    ensures Units(a + [d]) == 10 * Units(a) + d && Units(a + [d]) as real == 10.0 * Units(a) as real + d as real
  {
    assert (a + [d])[..|a|] == a;
  }

  /** What parse_number computes is what the numeral means. */
  lemma ValueMeant(n: Numeral)
    ensures NumberValue(n.neg, Units(n.digits + n.frac), Places(n.power) - |n.frac|) == Meant(n)
  {
    hide Units, Tenths, Pow10, Places, Shifted;
    var v, k, e := Units(n.digits) as real + Tenths(n.frac), |n.frac|, Places(n.power);
    UnitsAndTenths(n.digits, n.frac);
    Pow10Split(k, e);
    Regroup(v, Pow10(k), Pow10(e - k));
    ShiftedIsProduct(v, e);
    Signed(Units(n.digits + n.frac) as real, Pow10(e - k));
  }

  lemma Signed(m: real, p: real)
    ensures -1.0 * m * p == -(m * p) && 1.0 * m * p == m * p
  {
  }

  // ----- parse_number reads numerals

  lemma FigureScanned(a: seq<Digit>, d: Digit, tail: Text)
    ensures Scan([Figure(d)] + tail, Units(a)) == Scan(tail, Units(a + [d]))
  {
    hide Units;
    UnitsNext(a, d);
    assert ([Figure(d)] + tail)[1..] == tail;
  }

  lemma {:induction false} FiguresScanned(a: seq<Digit>, ds: seq<Digit>, rest: Text)
    requires NoFigure(rest)
    ensures Scan(Figures(ds) + rest, Units(a)) == (Units(a + ds), rest)
    decreases |ds|
  {
    hide Units;
    if ds == [] {
      assert Figures(ds) + rest == rest && a + ds == a;
    } else {
      hide Scan;
      var tail := Figures(ds[1..]) + rest;
      assert Figures(ds) + rest == [Figure(ds[0])] + tail && a + ds == a + [ds[0]] + ds[1..];
      FigureScanned(a, ds[0], tail);
      FiguresScanned(a + [ds[0]], ds[1..], rest);
    }
  }

  lemma FiguresStart(ds: seq<Digit>, rest: Text)
    requires ds != []
    ensures Peek(Figures(ds) + rest) == Figure(ds[0])
  {
  }

  lemma WholeRead(n: Numeral, rest: Text)
    requires IsNumeral(n) && WholeEnds(n, rest)
    ensures Whole(WholeText(n, rest)) == (Units(n.digits), rest)
  {
    hide Scan;
    var inner := Figures(n.digits) + rest;
    assert n.zero ==> WholeText(n, rest)[1..] == inner;
    assert !n.zero ==> WholeText(n, rest) == inner;
    if n.digits == [] {
      assert inner == rest;
    } else {
      FiguresStart(n.digits, rest);
      FiguresScanned([], n.digits, rest);
      assert [] + n.digits == n.digits;
    }
  }

  lemma FracRead(a: seq<Digit>, ds: seq<Digit>, rest: Text)
    requires FracEnds(ds, rest)
    ensures Fraction(FracText(ds, rest), Units(a)) == (Units(a + ds), |ds|, rest)
  {
    hide Scan;
    if ds == [] {
      assert a + ds == a;
    } else {
      var text, inner := FracText(ds, rest), Figures(ds) + rest;
      assert text[1..] == inner;
      FiguresStart(ds, rest);
      FiguresScanned(a, ds, rest);
      FiguresCount(ds);
    }
  }

  lemma {:induction false} FiguresCount(ds: seq<Digit>)
    ensures |Figures(ds)| == |ds|
  {
    if ds != [] {
      FiguresCount(ds[1..]);
    }
  }

  /** The sign, if there is one, and what is behind it. */
  lemma SignRead(sign: Text, inner: Text)
    requires sign == [] || sign == [PLUS] || sign == [MINUS]
    requires sign == [] ==> Peek(inner) != PLUS && Peek(inner) != MINUS
    ensures var t := sign + inner;
            && (Peek(t) == MINUS <==> sign == [MINUS]) && (Peek(t) == PLUS <==> sign == [PLUS])
            && (if sign == [] then t else t[1..]) == inner
  {
  }

  lemma ExponentRead(text: Text, sign: Text, inner: Text)
    requires (Peek(text) == 101 || Peek(text) == 69) && text[1..] == sign + inner
    requires sign == [] || sign == [PLUS] || sign == [MINUS]
    requires sign == [] ==> Peek(inner) != PLUS && Peek(inner) != MINUS
    ensures var (e, rest) := Scan(inner, 0); Exponent(text) == (if sign == [MINUS] then 0 - (e as int) else e, rest)
  {
    hide Scan;
    SignRead(sign, inner);
    assert sign != [] ==> text[2..] == text[1..][1..];
  }

  lemma PowerRead(p: Power, rest: Text)
    requires IsPower(p) && PowerEnds(p, rest)
    ensures Exponent(PowerText(p, rest)) == (Places(p), rest)
  {
    if p.Power? {
      hide Scan, Exponent, Figures, Units;
      var inner, text := Figures(p.digits) + rest, PowerText(p, rest);
      assert text[1..] == p.sign + inner;
      PowerStart(p, rest);
      ExponentRead(text, p.sign, inner);
      NoUnits();
      FiguresScanned([], p.digits, rest);
      assert [] + p.digits == p.digits;
    }
  }

  lemma NoUnits()
    ensures Units([]) == 0
  {
  }

  /** Without a sign, no byte behind the letter looks like one. */
  lemma PowerStart(p: Power, rest: Text)
    requires p.Power? && PowerEnds(p, rest)
    ensures p.sign == [] ==> Peek(Figures(p.digits) + rest) != PLUS && Peek(Figures(p.digits) + rest) != MINUS
  {
    if p.digits != [] {
      FiguresStart(p.digits, rest);
    } else {
      assert Figures(p.digits) + rest == rest;
    }
  }

  /** parse_number on a numeral: its value, and the text behind it. */
  lemma NumeralRead(n: Numeral, rest: Text)
    requires IsNumeral(n) && Ends(n, rest)
    ensures var text := NumeralText(n, rest);
            (Peek(text) == MINUS || IsDigit(Peek(text))) && Number(text) == Ok(Num(Meant(n)), rest)
  {
    hide IsPower, PowerText, FracText, Whole, Fraction, Exponent, Units, NumberValue, Meant, Places;
    var text, t2 := NumeralText(n, rest), PowerText(n.power, rest);
    var t1 := FracText(n.frac, t2);
    NumeralStart(n, rest);
    WholeRead(n, t1);
    FracRead(n.digits, n.frac, t2);
    PowerRead(n.power, rest);
    ValueMeant(n);
  }

  lemma NumeralStart(n: Numeral, rest: Text)
    requires IsNumeral(n)
    ensures var text := NumeralText(n, rest);
            && (if n.neg then Peek(text) == MINUS else IsDigit(Peek(text)))
            && (if n.neg then text[1..] else text) == WholeText(n, FracText(n.frac, PowerText(n.power, rest)))
  {
    hide FracText, PowerText;
    if n.digits != [] {
      FiguresStart(n.digits, FracText(n.frac, PowerText(n.power, rest)));
    }
  }

  // ----- whatever parse_number reads is a numeral

  lemma {:induction false} Figured(text: Text) returns (ds: seq<Digit>, rest: Text)
    ensures text == Figures(ds) + rest && NoFigure(rest) && (NoFigure(text) ==> ds == [])
    ensures ds != [] ==> text[0] == Figure(ds[0])
    decreases |text|
  {
    if NoFigure(text) {
      ds, rest := [], text;
    } else {
      var more;
      more, rest := Figured(text[1..]);
      ds := [text[0] - 0x30] + more;
      assert ds[1..] == more;
      assert text == [text[0]] + text[1..];
    }
  }

  lemma WholeOf(text: Text) returns (zero: bool, ds: seq<Digit>, rest: Text)
    ensures text == (if zero then [0x30] else []) + (Figures(ds) + rest) && (ds != [] ==> ds[0] != 0)
    ensures NoFigure(rest) || (ds == [] && zero && Peek(rest) == 0x30)
    ensures !NoFigure(text) ==> zero || ds != []
  {
    zero := Peek(text) == 0x30;
    var t := if zero then text[1..] else text;
    assert text == (if zero then [0x30] else []) + t;
    if 0x31 <= Peek(t) <= 0x39 {
      ds, rest := Figured(t);
      assert ds == [] ==> t == rest;
    } else {
      ds, rest := [], t;
      assert Figures(ds) + rest == t;
    }
  }

  lemma FracOf(text: Text) returns (ds: seq<Digit>, rest: Text)
    ensures text == FracText(ds, rest) && FracEnds(ds, rest)
  {
    if Peek(text) == 0x2E && !NoFigure(text[1..]) {
      ds, rest := Figured(text[1..]);
      assert text == [0x2E] + text[1..];
    } else {
      ds, rest := [], text;
    }
  }

  lemma PowerOf(text: Text) returns (p: Power, rest: Text)
    ensures text == PowerText(p, rest) && IsPower(p) && PowerEnds(p, rest)
  {
    if Peek(text) == 0x65 || Peek(text) == 0x45 {
      var t, c := text[1..], Peek(text[1..]);
      var sign: Text := if c == 0x2B || c == 0x2D then [c] else [];
      var ds;
      ds, rest := Figured(t[|sign|..]);
      p := Power(text[0], sign, ds);
      assert t == sign + t[|sign|..];
      assert text == [text[0]] + t;
      assert sign == [] && ds == [] ==> t == rest;
    } else {
      p, rest := NoPower, text;
    }
  }

  lemma NumeralOf(text: Text) returns (n: Numeral, rest: Text)
    requires Peek(text) == MINUS || IsDigit(Peek(text))
    ensures IsNumeral(n) && Ends(n, rest) && text == NumeralText(n, rest)
  {
    var neg := Peek(text) == 0x2D;
    var t := if neg then text[1..] else text;
    assert text == (if neg then [0x2D] else []) + t;
    var zero, ds, t1 := WholeOf(t);
    var frac, t2 := FracOf(t1);
    var power;
    power, rest := PowerOf(t2);
    n := Numeral(neg, zero, ds, frac, power);
  }

  /**
   * parse_number returns a value and a rest if and only if a numeral with that value is in front of the rest, and no
   * longer one is in front of a shorter rest.
   */
  lemma NumberIff(text: Text, v: real, rest: Text)
    requires Peek(text) == MINUS || IsDigit(Peek(text))
    ensures Number(text) == Ok(Num(v), rest)
       <==> exists n :: IsNumeral(n) && Ends(n, rest) && text == NumeralText(n, rest) && v == Meant(n)
  {
    hide Number, NumeralText, IsNumeral, Ends, Meant;
    if Number(text) == Ok(Num(v), rest) {
      var n, rest' := NumeralOf(text);
      NumeralRead(n, rest');
    }
    if exists n :: IsNumeral(n) && Ends(n, rest) && text == NumeralText(n, rest) && v == Meant(n) {
      var n :| IsNumeral(n) && Ends(n, rest) && text == NumeralText(n, rest) && v == Meant(n);
      NumeralRead(n, rest);
    }
  }
}
