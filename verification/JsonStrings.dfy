/** parse_string and print_string_ptr as the loops over text and output arrays that they are. */
module JsonStrings {
  import opened Prelude
  import opened JsonText
  import opened JsonUnicode
  import opened JsonParse
  import opened JsonLiterals

  // ----- parse_string

  /** text[at], the terminator at the end. */
  function At(text: Text, at: nat): (c: byte)
    requires at <= |text|
    ensures c == Peek(text[at..])
  {
    if at < |text| then text[at] else 0
  }

  /** The first pass: how long the string will be, roughly. */
  method CountPass(text: Text, start: nat) returns (len: nat)
    requires start <= |text| && Steady(text[start..])
    ensures len == Count(text[start..])
  {
    var ptr := start;
    len := 0;
    while At(text, ptr) != QUOTE && At(text, ptr) != 0
      invariant start <= ptr <= |text| && Steady(text[ptr..])
      invariant len + Count(text[ptr..]) == Count(text[start..])
      decreases |text| - ptr
    {
      len := len + 1;
      ghost var t := text[ptr..];
      if text[ptr] == BACKSLASH {
        assert t[2..] == text[ptr + 2..] && t[1..] == text[ptr + 1..];
        ptr := ptr + 2;
      } else {
        assert t[1..] == text[ptr + 1..];
        ptr := ptr + 1;
      }
    }
  }

  /** The fall-through switch: the UTF-8 bytes of uc, stored from the last to the first. */
  method PutUtf8(out: array<byte>, at: nat, code: nat) returns (len: nat)
    requires code < 0x11_0000 && at + Utf8Length(code) <= out.Length
    modifies out
    ensures len == |Utf8(code)| && out[at..at + len] == Utf8(code)
    ensures forall k :: 0 <= k < out.Length && !(at <= k < at + len) ==> out[k] == old(out[k])
  {
    var uc := code;
    len := Utf8Length(uc);
    var mark := FIRST_BYTE_MARK[len];
    var n := len;
    while n > 1
      invariant 1 <= n <= len
      invariant Trail(uc, n, mark) + out[at + n..at + len] == Trail(code, len, mark)
      invariant forall k :: 0 <= k < out.Length && !(at <= k < at + len) ==> out[k] == old(out[k])
    {
      ghost var tail := out[at + n..at + len];
      out[at + n - 1] := 0x80 + uc % 0x40;
      assert out[at + n - 1..at + len] == [out[at + n - 1]] + tail;
      assert Trail(uc, n, mark) + tail == Trail(uc / 0x40, n - 1, mark) + ([out[at + n - 1]] + tail);
      uc := uc / 0x40;
      n := n - 1;
    }
    ghost var tail := out[at + 1..at + len];
    out[at] := (uc + mark) % 256;
    assert out[at..at + len] == [out[at]] + tail;
  }

  /** One escape behind its \u: the bytes go to out, n bytes of text are consumed. */
  method PutUnicode(text: Text, ptr: nat, out: array<byte>, at: nat) returns (len: nat, n: nat)
    requires ptr <= |text| && Unicode(text[ptr..]).Some?
    requires at + |Unicode(text[ptr..]).value.0| <= out.Length
    modifies out
    ensures n == Unicode(text[ptr..]).value.1 && len == |Unicode(text[ptr..]).value.0|
    ensures out[at..at + len] == Unicode(text[ptr..]).value.0
    ensures forall k :: 0 <= k < out.Length && !(at <= k < at + len) ==> out[k] == old(out[k])
  {
    ghost var t := text[ptr..];
    assert t[..4] == text[ptr..ptr + 4] && t[4..] == text[ptr + 4..];
    var uc := Hex4(text[ptr..ptr + 4]);
    if LowSurrogate(uc) || uc == 0 {
      return 0, 4;
    }
    if HighSurrogate(uc) {
      assert |t| > 4 ==> t[5..] == text[ptr + 5..];
      if At(text, ptr + 4) != BACKSLASH || At(text, ptr + 5) != 117 {
        return 0, 4;
      }
      assert t[6..10] == text[ptr + 6..ptr + 10];
      var uc2 := Hex4(text[ptr + 6..ptr + 10]);
      if !LowSurrogate(uc2) {
        return 0, 10;
      }
      len := PutUtf8(out, at, Combine(uc, uc2));
      n := 10;
    } else {
      len := PutUtf8(out, at, uc);
      n := 4;
    }
  }

  /** One turn of the second loop. */
  method PutChar(text: Text, ptr: nat, out: array<byte>, at: nat) returns (len: nat, n: nat)
    requires ptr < |text| && text[ptr] != 0 && text[ptr] != QUOTE && Char(text[ptr..]).Some?
    requires at + |Char(text[ptr..]).value.0| <= out.Length
    modifies out
    ensures n == Char(text[ptr..]).value.1 && len == |Char(text[ptr..]).value.0|
    ensures out[at..at + len] == Char(text[ptr..]).value.0
    ensures forall k :: 0 <= k < out.Length && !(at <= k < at + len) ==> out[k] == old(out[k])
  {
    ghost var t := text[ptr..];
    assert t[0] == text[ptr] && t[1..] == text[ptr + 1..];
    if text[ptr] != BACKSLASH {
      out[at] := text[ptr];
      return 1, 1;
    }
    assert t[1] == text[ptr + 1] && t[2..] == text[ptr + 2..];
    match text[ptr + 1]
    case 98 => out[at] := 8; return 1, 2;
    case 102 => out[at] := 12; return 1, 2;
    case 110 => out[at] := 10; return 1, 2;
    case 114 => out[at] := 13; return 1, 2;
    case 116 => out[at] := 9; return 1, 2;
    case 117 =>
      len, n := PutUnicode(text, ptr + 2, out, at);
      n := n + 2;
    case c => out[at] := c; return 1, 2;
  }

  /** With rest still ahead, done is what has been decoded of body. */
  ghost predicate Decoded(body: Text, rest: Text, done: Text) {
    Body(body).Ok? && Body(body) == Prepend(done, Body(rest))
  }

  lemma DecodedStep(body: Text, rest: Text, done: Text)
    requires Decoded(body, rest, done) && Peek(rest) != QUOTE && Peek(rest) != 0
    ensures Char(rest).Some?
    ensures var (bytes, n) := Char(rest).value;
            Decoded(body, rest[n..], done + bytes) && |done| + |bytes| <= |Body(body).value|
  {
    var (bytes, n) := Char(rest).value;
    assert Body(rest[n..]).Ok?;
    assert done + (bytes + Body(rest[n..]).value) == (done + bytes) + Body(rest[n..]).value;
  }

  lemma DecodedAll(body: Text, rest: Text, done: Text)
    requires Decoded(body, rest, done) && (Peek(rest) == QUOTE || Peek(rest) == 0)
    ensures Body(body) == Ok(done, rest)
  {
    assert done + [] == done;
  }

  lemma DecodedNone(body: Text)
    requires Body(body).Ok?
    ensures Decoded(body, body, [])
  {
    assert [] + Body(body).value == Body(body).value;
  }

  /** The second pass, into a buffer with room for what the first has counted. */
  method DecodePass(text: Text, start: nat, out: array<byte>) returns (ptr: nat, ptr2: nat)
    requires start <= |text| && Body(text[start..]).Ok? && out.Length > |Body(text[start..]).value|
    modifies out
    ensures ptr <= |text| && text[ptr..] == Body(text[start..]).rest
    ensures ptr2 < out.Length && out[..ptr2] == Body(text[start..]).value
  {
    hide Body, Decoded, Char;
    ghost var body := text[start..];
    ptr, ptr2 := start, 0;
    DecodedNone(body);
    assert out[..0] == [];
    while At(text, ptr) != QUOTE && At(text, ptr) != 0
      invariant ptr <= |text| && ptr2 <= out.Length
      invariant Decoded(body, text[ptr..], out[..ptr2])
      decreases |text| - ptr
    {
      ghost var done, t := out[..ptr2], text[ptr..];
      DecodedStep(body, t, done);
      ghost var bytes, m := Char(t).value.0, Char(t).value.1;
      ghost var rest := t[m..];
      var k, n := PutChar(text, ptr, out, ptr2);
      ptr, ptr2 := ptr + n, ptr2 + k;
      assert text[ptr..] == rest;
      assert out[..ptr2] == done + bytes;
    }
    DecodedAll(body, text[ptr..], out[..ptr2]);
  }

  /**
   * parse_string on a literal that is not malformed: the decoded bytes and a terminator, in a buffer sized by the first
   * pass, and the position behind the literal; NULL if there is none.
   */
  method ParseString(text: Text, str: nat) returns (out: array?<byte>, end: nat)
    requires str <= |text| && !String(text[str..]).Astray?
    ensures out == null <==> String(text[str..]).Fail?
    ensures out != null ==>
              && fresh(out) && end <= |text| && text[end..] == String(text[str..]).rest
              && var s := String(text[str..]).value;
              |s| < out.Length && out[..|s|] == s && out[|s|] == 0
  {
    hide Body, Count, Steady;
    if At(text, str) != QUOTE {
      return null, str;
    }
    assert text[str..][1..] == text[str + 1..];
    BodyFits(text[str + 1..]);
    var len := CountPass(text, str + 1);
    var buf := new byte[len + 1];
    var ptr, ptr2 := DecodePass(text, str + 1, buf);
    buf[ptr2] := 0;
    if At(text, ptr) == QUOTE {
      assert text[ptr..][1..] == text[ptr + 1..];
      ptr := ptr + 1;
    }
    out, end := buf, ptr;
  }

  // ----- print_string_ptr

  /** The flag pass: does any byte need an escape? */
  method NeedsEscape(str: Text) returns (flag: bool)
    requires NulFree(str)
    ensures !flag ==> Escape(str) == str
  {
    flag := false;
    for k := 0 to |str|
      invariant !flag ==> Escape(str[..k]) == str[..k]
    {
      if 0 < str[k] < 32 || str[k] == QUOTE || str[k] == BACKSLASH {
        flag := true;
      }
      EscapeAppend(str[..k], str[k]);
      assert str[..k + 1] == str[..k] + [str[k]];
    }
    assert str[..|str|] == str;
  }

  lemma {:induction false} EscapeAppend(s: Text, c: byte)
    ensures Escape(s + [c]) == Escape(s) + EscapeByte(c)
  {
    hide EscapeByte;
    if s == [] {
      assert s + [c] == [c];
    } else {
      EscapeAppend(s[1..], c);
      assert (s + [c])[1..] == s[1..] + [c];
    }
  }

  /** The counting pass, for strings that need escapes. */
  method EscapedLength(str: Text) returns (len: nat)
    ensures len == |Escape(str)|
  {
    len := 0;
    for k := 0 to |str|
      invariant len == |Escape(str[..k])|
    {
      var token := str[k];
      len := len + 1;
      if ShortEscape(token) != 0 {
        len := len + 1;
      } else if token < 32 {
        len := len + 5;
      }
      EscapeAppend(str[..k], token);
      assert str[..k + 1] == str[..k] + [token];
    }
    assert str[..|str|] == str;
  }

  lemma {:induction false} EscapePrefix(s: Text, k: nat)
    requires k <= |s|
    ensures |Escape(s[..k])| <= |Escape(s)|
    decreases |s| - k
  {
    if k == |s| {
      assert s[..k] == s;
    } else {
      EscapeAppend(s[..k], s[k]);
      assert s[..k + 1] == s[..k] + [s[k]];
      EscapePrefix(s, k + 1);
    }
  }

  lemma EscapeStep(s: Text, k: nat)
    requires k < |s|
    ensures Escape(s[..k + 1]) == Escape(s[..k]) + EscapeByte(s[k])
    ensures |Escape(s[..k + 1])| <= |Escape(s)|
  {
    EscapeAppend(s[..k], s[k]);
    assert s[..k + 1] == s[..k] + [s[k]];
    EscapePrefix(s, k + 1);
  }

  // ----- writing

  /** a with s written over it from position at on. */
  function Patch(a: Text, at: nat, s: Text): (r: Text)
    requires at + |s| <= |a|
    ensures |r| == |a|
  {
    a[..at] + s + a[at + |s|..]
  }

  lemma PatchTwice(a: Text, at: nat, s: Text, t: Text)
    requires at + |s| + |t| <= |a|
    ensures Patch(Patch(a, at, s), at + |s|, t) == Patch(a, at, s + t)
  {
  }

  lemma PatchEdge(a: Text, at: nat, s: Text)
    requires at + |s| <= |a|
    ensures Patch(a, at, s)[at..at + |s|] == s && Patch(a, at, s)[..at] == a[..at]
  {
  }

  /** strcpy, memcpy and the literal stores: s goes to out from at on. */
  method Put(out: array<byte>, at: nat, s: Text)
    requires at + |s| <= out.Length
    modifies out
    ensures out[..] == Patch(old(out[..]), at, s)
  {
    for k := 0 to |s|
      invariant forall j :: at <= j < at + k ==> out[j] == s[j - at]
      invariant forall j :: 0 <= j < out.Length && !(at <= j < at + k) ==> out[j] == old(out[j])
    {
      out[at + k] := s[k];
    }
  }

  /** One turn of the writing loop. */
  method PutEscaped(out: array<byte>, at: nat, c: byte) returns (n: nat)
    requires at + |EscapeByte(c)| <= out.Length
    modifies out
    ensures n == |EscapeByte(c)| && out[..] == Patch(old(out[..]), at, EscapeByte(c))
  {
    if c > 31 && c != QUOTE && c != BACKSLASH {
      Put(out, at, [c]);
      return 1;
    }
    match c
    case 92 => Put(out, at, [BACKSLASH, 92]); return 2;
    case 34 => Put(out, at, [BACKSLASH, 34]); return 2;
    case 8 => Put(out, at, [BACKSLASH, 98]); return 2;
    case 12 => Put(out, at, [BACKSLASH, 102]); return 2;
    case 10 => Put(out, at, [BACKSLASH, 110]); return 2;
    case 13 => Put(out, at, [BACKSLASH, 114]); return 2;
    case 9 => Put(out, at, [BACKSLASH, 116]); return 2;
    case _ =>
      Put(out, at, [BACKSLASH, 117, ZERO, ZERO, HexDigit(c / 16), HexDigit(c % 16)]);
      return 6;
  }

  lemma EscapePatch(a: Text, at: nat, str: Text, k: nat)
    requires at + |Escape(str)| <= |a| && k < |str|
    ensures |Escape(str[..k])| + |EscapeByte(str[k])| == |Escape(str[..k + 1])| <= |Escape(str)|
    ensures Patch(Patch(a, at, Escape(str[..k])), at + |Escape(str[..k])|, EscapeByte(str[k]))
         == Patch(a, at, Escape(str[..k + 1]))
  {
    EscapeStep(str, k);
    PatchTwice(a, at, Escape(str[..k]), EscapeByte(str[k]));
  }

  lemma NothingYet(a: Text, at: nat, str: Text)
    requires at <= |a|
    ensures Escape(str[..0]) == [] && Patch(a, at, Escape(str[..0])) == a
  {
  }

  /** The escaping loop. */
  method EscapeLoop(out: array<byte>, at: nat, str: Text) returns (ptr2: nat)
    requires at + |Escape(str)| <= out.Length
    modifies out
    ensures ptr2 == at + |Escape(str)| && out[..] == Patch(old(out[..]), at, Escape(str))
  {
    hide Escape, Patch, EscapeByte;
    ghost var a := out[..];
    ptr2 := at;
    NothingYet(a, at, str);
    for k := 0 to |str|
      invariant ptr2 == at + |Escape(str[..k])| <= at + |Escape(str)|
      invariant out[..] == Patch(a, at, Escape(str[..k]))
    {
      EscapePatch(a, at, str, k);
      var n := PutEscaped(out, ptr2, str[k]);
      ptr2 := ptr2 + n;
    }
    assert str[..|str|] == str;
  }

  /** print_string_ptr, once it has its space: the string in quotes, with escapes, and a terminator. */
  method WriteString(out: array<byte>, at: nat, str: Text, flag: bool)
    requires at + |Escape(str)| + 3 <= out.Length && (!flag ==> Escape(str) == str)
    modifies out
    ensures out[..] == Patch(old(out[..]), at, Quoted(str) + [0])
  {
    hide Patch, Quoted, Escape;
    QuotedPatch(out[..], at, str);
    Put(out, at, [QUOTE]);
    var ptr2 := at + 1;
    if flag {
      ptr2 := EscapeLoop(out, ptr2, str);
    } else {
      Put(out, ptr2, str);
      ptr2 := ptr2 + |str|;
    }
    Put(out, ptr2, [QUOTE, 0]);
  }

  lemma QuotedPatch(a: Text, at: nat, str: Text)
    requires at + |Escape(str)| + 3 <= |a|
    ensures Patch(Patch(Patch(a, at, [QUOTE]), at + 1, Escape(str)), at + 1 + |Escape(str)|, [QUOTE, 0])
         == Patch(a, at, Quoted(str) + [0])
  {
    PatchTwice(a, at, [QUOTE], Escape(str));
    PatchTwice(a, at, [QUOTE] + Escape(str), [QUOTE, 0]);
    assert [QUOTE] + Escape(str) + [QUOTE, 0] == Quoted(str) + [0];
  }

  /** The space that print_string_ptr asks for. */
  method StringSpace(str: Text) returns (flag: bool, needed: nat)
    requires NulFree(str)
    ensures needed == |Quoted(str)| + 1 && (!flag ==> Escape(str) == str)
  {
    flag := NeedsEscape(str);
    var len := |str|;
    if flag {
      len := EscapedLength(str);
    }
    needed := len + 3;
  }

  /** print_string_ptr without a print buffer: the quoted text and its terminator fill the allocation exactly. */
  method PrintString(str: Text) returns (out: array<byte>)
    requires NulFree(str)
    ensures fresh(out) && out[..] == Quoted(str) + [0]
  {
    var flag, needed := StringSpace(str);
    out := new byte[needed];
    WriteString(out, 0, str, flag);
  }
}
