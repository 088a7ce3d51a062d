/** String literals: the two passes of parse_string agree on sizes, and no terminator is decoded. */
module JsonLiterals {
  import opened Prelude
  import opened JsonText
  import opened JsonUnicode
  import opened JsonParse

  // ----- what the first pass counts

  /** The first pass never meets a backslash right before the end of the text, where it would step over the terminator. */
  predicate Steady(text: Text)
    decreases |text|
  {
    if Peek(text) == QUOTE || Peek(text) == 0 then true
    else if text[0] == BACKSLASH then Peek(text[1..]) != 0 && Steady(text[2..])
    else Steady(text[1..])
  }

  lemma CountPlain4(text: Text)
    requires Plain4(text)
    ensures Count(text) == 4 + Count(text[4..]) && Steady(text) == Steady(text[4..])
  {
    CountPlain(text);
    CountPlain(text[1..]);
    CountPlain(text[2..]);
    CountPlain(text[3..]);
  }

  lemma CountPlain(text: Text)
    requires Peek(text) != 0 && Peek(text) != QUOTE && Peek(text) != BACKSLASH
    ensures Count(text) == 1 + Count(text[1..]) && Steady(text) == Steady(text[1..])
  {
  }

  lemma CountUnicode(text: Text)
    ensures Unicode(text).Some? ==>
              && var (bytes, n) := Unicode(text).value;
              && Count(text) >= |bytes| + Count(text[n..]) && (Steady(text[n..]) ==> Steady(text))
  {
    if Unicode(text).Some? {
      var (bytes, n) := Unicode(text).value;
      CountPlain4(text);
      if n == 10 {
        assert text[4..][2..] == text[6..];
        CountPlain4(text[6..]);
      }
    }
  }

  lemma CountChar(text: Text)
    requires Peek(text) != 0 && Peek(text) != QUOTE && Char(text).Some?
    ensures var (bytes, n) := Char(text).value;
            Count(text) >= |bytes| + Count(text[n..]) && (Steady(text[n..]) ==> Steady(text))
  {
    if text[0] == BACKSLASH && text[1] == 117 {
      CountUnicode(text[2..]);
    }
  }

  /** Whatever is decoded fits into what the first pass has counted. */
  lemma {:induction false} BodyFits(text: Text)
    requires Body(text).Ok?
    ensures |Body(text).value| <= Count(text) && Steady(text)
    decreases |text|
  {
    if Peek(text) != QUOTE && Peek(text) != 0 {
      var (bytes, n) := Char(text).value;
      CountChar(text);
      BodyFits(text[n..]);
    }
  }

  // ----- decoded strings are C strings

  lemma Utf8NulFree(u: nat)
    requires Scalar(u) && u != 0
    ensures NulFree(Utf8(u))
  {
    Utf8Decodes(u);
  }

  lemma CharNulFree(text: Text)
    requires Peek(text) != 0 && Char(text).Some?
    ensures NulFree(Char(text).value.0)
  {
    if text[0] == BACKSLASH && text[1] == 117 {
      var t := text[2..];
      var u := Hex4(t[..4]);
      if Unicode(t).value.0 != [] {
        if HighSurrogate(u) {
          Utf8NulFree(Combine(u, Hex4(t[6..10])));
        } else {
          Utf8NulFree(u);
        }
      }
    }
  }

  /** No terminator is ever decoded, not even from an escaped zero. */
  lemma {:induction false} BodyNulFree(text: Text)
    requires Body(text).Ok?
    ensures NulFree(Body(text).value)
    decreases |text|
  {
    if Peek(text) != QUOTE && Peek(text) != 0 {
      CharNulFree(text);
      BodyNulFree(text[Char(text).value.1..]);
    }
  }

  lemma StringNulFree(text: Text)
    requires String(text).Ok?
    ensures NulFree(String(text).value)
  {
    BodyNulFree(text[1..]);
  }
}
