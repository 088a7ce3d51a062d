/** The UTF-16 escapes of cJSON strings and their transcoding to UTF-8. */
module JsonUnicode {
  import opened Prelude
  import opened JsonText

  // ----- parse_hex4

  predicate IsHex(c: byte) {
    ZERO <= c < ZERO + 10 || 65 <= c <= 70 || 97 <= c <= 102
  }

  function HexValue(c: byte): (r: nat)
    requires IsHex(c)
    ensures r < 16
  {
    if c < ZERO + 10 then c - ZERO else if c <= 70 then 10 + c - 65 else 10 + c - 97
  }

  /** The value of four hex digits; 0 if one of them is none. */
  function Hex4(h: seq<byte>): (r: nat)
    requires |h| == 4
    ensures r < 0x10000
  {
    if IsHex(h[0]) && IsHex(h[1]) && IsHex(h[2]) && IsHex(h[3]) then
      ((HexValue(h[0]) * 16 + HexValue(h[1])) * 16 + HexValue(h[2])) * 16 + HexValue(h[3])
    else 0
  }

  /** "%04x" */
  function HexText(u: nat): (r: seq<byte>)
    requires u < 0x10000
    ensures |r| == 4
  {
    [HexDigit(u / 16 / 16 / 16), HexDigit(u / 16 / 16 % 16), HexDigit(u / 16 % 16), HexDigit(u % 16)]
  }

  lemma HexInverse(u: nat)
    requires u < 0x10000
    ensures Hex4(HexText(u)) == u
  {
    HexDigitInverse(u / 16 / 16 / 16);
    HexDigitInverse(u / 16 / 16 % 16);
    HexDigitInverse(u / 16 % 16);
    HexDigitInverse(u % 16);
  }

  lemma HexDigitInverse(d: nat)
    requires d < 16
    ensures IsHex(HexDigit(d)) && HexValue(HexDigit(d)) == d
  {
  }

  // ----- UTF-8

  /** A code point that UTF-8 can carry: below 0x110000 and no surrogate (section 3 of RFC 3629). */
  predicate Scalar(u: nat) {
    u < 0x11_0000 && !(0xD800 <= u < 0xE000)
  }

  /** The length that parse_string chooses. */
  function Utf8Length(u: nat): nat {
    if u < 0x80 then 1 else if u < 0x800 then 2 else if u < 0x1_0000 then 3 else 4
  }

  const FIRST_BYTE_MARK: seq<nat> := [0x00, 0x00, 0xC0, 0xE0, 0xF0, 0xF8, 0xFC]

  /** The bytes that the fall-through switch stores: n - 1 continuation bytes from the back, then the marked lead byte. */
  function Trail(u: nat, n: nat, mark: nat): (r: seq<byte>)
    requires n >= 1
    ensures |r| == n
  {
    if n == 1 then [(u + mark) % 256] else Trail(u / 0x40, n - 1, mark) + [0x80 + u % 0x40]
  }

  function Utf8(u: nat): (r: seq<byte>)
    requires u < 0x11_0000
    ensures |r| == Utf8Length(u)
  {
    Trail(u, Utf8Length(u), FIRST_BYTE_MARK[Utf8Length(u)])
  }

  predicate Continuation(b: byte) {
    0x80 <= b < 0xC0
  }

  /** The payload bits of a lead byte (less its mark) and of continuation bytes. */
  function Join2(a: int, b: int): int { (a - 0xC0) * 0x40 + (b - 0x80) }
  function Join3(a: int, b: int, c: int): int { (a - 0xE0) * 0x1000 + (b - 0x80) * 0x40 + (c - 0x80) }
  function Join4(a: int, b: int, c: int, d: int): int {
    (a - 0xF0) * 0x4_0000 + (b - 0x80) * 0x1000 + (c - 0x80) * 0x40 + (d - 0x80)
  }

  /** A decoder for one code point, from section 3 of RFC 3629; it refuses overlong forms and surrogates. */
  function Decode(s: seq<byte>): Option<int> {
    if |s| == 1 && s[0] < 0x80 then Some(s[0])
    else if |s| == 2 && 0xC2 <= s[0] < 0xE0 && Continuation(s[1]) then Some(Join2(s[0], s[1]))
    else if |s| == 3 && 0xE0 <= s[0] < 0xF0 && Continuation(s[1]) && Continuation(s[2]) then
      var u := Join3(s[0], s[1], s[2]);
      if u >= 0x800 && Scalar(u) then Some(u) else None
    else if |s| == 4 && 0xF0 <= s[0] < 0xF5 && Continuation(s[1]) && Continuation(s[2]) && Continuation(s[3]) then
      var u := Join4(s[0], s[1], s[2], s[3]);
      if 0x1_0000 <= u && Scalar(u) then Some(u) else None
    else None
  }

  /** The transcoder's bytes are exactly the UTF-8 form of the code point. */
  lemma Utf8Decodes(u: nat)
    requires Scalar(u)
    ensures Decode(Utf8(u)) == Some(u)
  {
    var m := FIRST_BYTE_MARK[Utf8Length(u)];
    if u < 0x80 {
    } else if u < 0x800 {
      assert Trail(u / 0x40, 1, m) == [u / 0x40 + m];
    } else if u < 0x1_0000 {
      var v := u / 0x40;
      assert Trail(v / 0x40, 1, m) == [v / 0x40 + m];
      assert Trail(v, 2, m) == [v / 0x40 + m, 0x80 + v % 0x40];
    } else {
      FourBytesDecode(u);
    }
  }

  lemma FourBytesDecode(u: nat)
    requires 0x1_0000 <= u < 0x11_0000
    ensures Decode(Utf8(u)) == Some(u)
  {
    var m, v, w := FIRST_BYTE_MARK[4], u / 0x40, u / 0x40 / 0x40;
    assert Trail(w / 0x40, 1, m) == [w / 0x40 + m];
    assert Trail(w, 2, m) == [w / 0x40 + m, 0x80 + w % 0x40];
    assert Trail(v, 3, m) == [w / 0x40 + m, 0x80 + w % 0x40, 0x80 + v % 0x40];
  }

  lemma LastSextet(x: int, b: int, u: int)
    requires u == x * 0x40 + (b - 0x80) && 0x80 <= b < 0xC0
    ensures u / 0x40 == x && 0x80 + u % 0x40 == b
  {
  }

  /** No other bytes decode to the code point. */
  lemma Utf8Unique(s: seq<byte>, u: nat)
    ensures Decode(s) == Some(u) <==> Scalar(u) && s == Utf8(u)
  {
    if Decode(s) == Some(u) {
      var m := FIRST_BYTE_MARK[|s|];
      assert |s| == Utf8Length(u);
      if |s| == 2 {
        LastSextet(s[0] - 0xC0, s[1], u);
        assert Trail(u / 0x40, 1, m) == [u / 0x40 + m];
      } else if |s| == 3 {
        ThreeBytesUnique(s, u);
      } else if |s| == 4 {
        FourBytesUnique(s, u);
      }
    } else if Scalar(u) {
      Utf8Decodes(u);
    }
  }

  lemma ThreeBytesUnique(s: seq<byte>, u: nat)
    requires |s| == 3 && Decode(s) == Some(u)
    ensures s == Utf8(u)
  {
    var m, v := FIRST_BYTE_MARK[3], u / 0x40;
    var a: int := s[0] - 0xE0;
    LastSextet(a * 0x40 + (s[1] - 0x80), s[2], u);
    LastSextet(a, s[1], v);
    assert Trail(v / 0x40, 1, m) == [s[0]];
    assert Trail(v, 2, m) == [s[0], s[1]];
  }

  lemma FourBytesUnique(s: seq<byte>, u: nat)
    requires |s| == 4 && Decode(s) == Some(u)
    ensures s == Utf8(u)
  {
    var m, v, w := FIRST_BYTE_MARK[4], u / 0x40, u / 0x40 / 0x40;
    var a: int := s[0] - 0xF0;
    var b: int := a * 0x40 + (s[1] - 0x80);
    LastSextet(b * 0x40 + (s[2] - 0x80), s[3], u);
    LastSextet(b, s[2], v);
    LastSextet(a, s[1], w);
    assert Trail(w / 0x40, 1, m) == [s[0]];
    assert Trail(w, 2, m) == [s[0], s[1]];
    assert Trail(v, 3, m) == [s[0], s[1], s[2]];
  }

  // ----- UTF-16

  predicate HighSurrogate(u: nat) {
    0xD800 <= u < 0xDC00
  }

  predicate LowSurrogate(u: nat) {
    0xDC00 <= u < 0xE000
  }

  /** How parse_string combines two halves. */
  function Combine(hi: nat, lo: nat): (u: nat)
    ensures 0x1_0000 <= u < 0x11_0000
  {
    0x1_0000 + hi % 0x400 * 0x400 + lo % 0x400
  }

  /** Combining undoes the split into surrogates. */
  lemma CombineInverse(u: nat)
    requires 0x1_0000 <= u < 0x11_0000
    ensures var v := u - 0x1_0000;
            HighSurrogate(0xD800 + v / 0x400) && LowSurrogate(0xDC00 + v % 0x400)
            && Combine(0xD800 + v / 0x400, 0xDC00 + v % 0x400) == u
  {
  }
}
