/** Texts with white space and comments between their tokens, written down piece by piece, and what cJSON_Minify keeps. */
module JsonPieces {
  import opened Prelude
  import opened JsonText
  import opened JsonParse
  import opened JsonMinify

  /** A byte of a token, a string literal, a white byte, a comment to the end of its line, or a block comment. */
  datatype Piece = Mark(c: byte) | Quote(body: Text) | White(c: byte) | Line(body: Text) | Block(body: Text)

  /** The inside of a string literal: a backslash takes the byte behind it along. */
  predicate Inside(body: Text)
    decreases |body|
  {
    if body == [] then true
    else if body[0] == 0x5C then |body| > 1 && body[1] != 0 && Inside(body[2..])
    else body[0] != 0 && body[0] != 0x22 && Inside(body[1..])
  }

  /** "*" and "/" nowhere follow each other. */
  predicate Unclosed(s: Text) {
    forall k, l :: 0 <= k && l == k + 1 < |s| ==> !(s[k] == 0x2A && s[l] == 0x2F)
  }

  predicate IsPiece(p: Piece) {
    match p
    case Mark(c) => c != 0 && c != 0x22 && c != 0x2F && c !in {0x20, 0x09, 0x0A, 0x0D}
    case Quote(body) => Inside(body)
    case White(c) => c in {0x20, 0x09, 0x0A, 0x0D}
    case Line(body) => 0 !in body && 0x0A !in body
    case Block(body) => 0 !in body && Unclosed(body) && !(body != [] && body[0] == 0x2F)
  }

  /** The text of a piece with rest behind it. */
  function PieceText(p: Piece, rest: Text): Text {
    match p
    case Mark(c) => [c] + rest
    case Quote(body) => [0x22] + (body + ([0x22] + rest))
    case White(c) => [c] + rest
    case Line(body) => [0x2F, 0x2F] + (body + ([0x0A] + rest))
    case Block(body) => [0x2F, 0x2A] + (body + ([0x2A, 0x2F] + rest))
  }

  function Source(ps: seq<Piece>, rest: Text): Text {
    if ps == [] then rest else PieceText(ps[0], Source(ps[1..], rest))
  }

  function KeptOf(p: Piece): Text {
    match p
    case Mark(c) => [c]
    case Quote(body) => [0x22] + body + [0x22]
    case _ => []
  }

  /** Tokens without what is between them. */
  function Kept(ps: seq<Piece>): Text {
    if ps == [] then [] else KeptOf(ps[0]) + Kept(ps[1..])
  }

  predicate Pieces(ps: seq<Piece>) {
    forall k :: 0 <= k < |ps| ==> IsPiece(ps[k])
  }

  // ----- one piece

  lemma {:induction false} InsideEnds(body: Text, rest: Text)
    requires Inside(body)
    ensures LiteralEnd(body + ([QUOTE] + rest)) == Some(|body| + 1)
    decreases |body|
  {
    var text := body + ([QUOTE] + rest);
    if body == [] {
      assert text == [QUOTE] + rest;
    } else if body[0] == BACKSLASH {
      assert text[2..] == body[2..] + ([QUOTE] + rest);
      InsideEnds(body[2..], rest);
    } else {
      assert text[1..] == body[1..] + ([QUOTE] + rest);
      InsideEnds(body[1..], rest);
    }
  }

  lemma QuoteKept(body: Text, rest: Text)
    requires Inside(body)
    ensures Minified(PieceText(Quote(body), rest)) == Before([0x22] + body + [0x22], Minified(rest))
  {
    var text, inner := PieceText(Quote(body), rest), body + ([QUOTE] + rest);
    InsideEnds(body, rest);
    assert text[1..] == inner;
    assert text == [0x22] + body + [0x22] + rest;
    assert text[..|body| + 2] == [0x22] + body + [0x22] && text[|body| + 2..] == rest;
  }

  lemma {:induction false} LinePassed(body: Text, rest: Text)
    requires 0 !in body && 0x0A !in body
    ensures PastLine(body + ([LF] + rest)) == [LF] + rest
    decreases |body|
  {
    var text := body + ([LF] + rest);
    if body == [] {
      assert text == [LF] + rest;
    } else {
      assert body[0] in body && text[1..] == body[1..] + ([LF] + rest);
      LinePassed(body[1..], rest);
    }
  }

  lemma LineDropped(body: Text, rest: Text)
    requires 0 !in body && 0x0A !in body
    ensures Minified(PieceText(Line(body), rest)) == Minified(rest)
  {
    var text, inner := PieceText(Line(body), rest), [SLASH] + body + ([LF] + rest);
    assert text[1..] == inner && [SLASH] + body + ([LF] + rest) == ([SLASH] + body) + ([LF] + rest);
    LinePassed([SLASH] + body, rest);
    assert ([LF] + rest)[1..] == rest;
  }

  /** Up to the first "*" and "/" that follow each other. */
  lemma {:induction false} BlockPassed(body: Text, rest: Text)
    requires 0 !in body && Unclosed(body)
    ensures PastBlock(body + ([STAR, SLASH] + rest)) == Some(rest)
    decreases |body|
  {
    var close := [STAR, SLASH] + rest;
    var text := body + close;
    if body == [] {
      assert text == close && close[2..] == rest;
    } else {
      assert body[0] in body && text[1..] == body[1..] + close;
      assert |body| > 1 ==> text[1] == body[1] && !(body[0] == 0x2A && body[1] == 0x2F);
      assert |body| == 1 ==> text[1] == STAR;
      BlockPassed(body[1..], rest);
    }
  }

  lemma BlockDropped(body: Text, rest: Text)
    requires IsPiece(Block(body))
    ensures Minified(PieceText(Block(body), rest)) == Minified(rest)
  {
    var text, b := PieceText(Block(body), rest), [SLASH, STAR] + body;
    assert text == b + ([STAR, SLASH] + rest);
    assert forall k :: 2 <= k < |b| ==> b[k] == body[k - 2];
    BlockPassed(b, rest);
  }

  lemma PieceMinified(p: Piece, rest: Text)
    requires IsPiece(p)
    ensures Minified(PieceText(p, rest)) == Before(KeptOf(p), Minified(rest))
  {
    BeforeNone(Minified(rest));
    match p
    case Mark(c) => KeepSolid([c], rest);
    case Quote(body) => QuoteKept(body, rest);
    case White(c) => DropBlank([c], rest);
    case Line(body) => LineDropped(body, rest);
    case Block(body) => BlockDropped(body, rest);
  }

  // ----- whole texts

  /** Exactly the tokens are kept, in front of any text. */
  lemma {:induction false} PiecesMinified(ps: seq<Piece>, rest: Text)
    requires Pieces(ps)
    ensures Minified(Source(ps, rest)) == Before(Kept(ps), Minified(rest))
  {
    hide Minified, IsPiece, PieceText;
    if ps == [] {
      BeforeNone(Minified(rest));
    } else {
      PieceMinified(ps[0], Source(ps[1..], rest));
      PiecesMinified(ps[1..], rest);
      BeforeTwice(KeptOf(ps[0]), Kept(ps[1..]), Minified(rest));
    }
  }

  lemma {:induction false} KeptConcat(ps: seq<Piece>, qs: seq<Piece>)
    ensures Kept(ps + qs) == Kept(ps) + Kept(qs)
  {
    if ps == [] {
      assert ps + qs == qs;
    } else {
      assert (ps + qs)[1..] == ps[1..] + qs;
      KeptConcat(ps[1..], qs);
    }
  }

  /** So minifying a text of such pieces gives its tokens. */
  lemma TextMinified(ps: seq<Piece>)
    requires Pieces(ps)
    ensures Minified(Source(ps, [])) == Some(Kept(ps))
  {
    PiecesMinified(ps, []);
    assert Kept(ps) + [] == Kept(ps);
  }

  lemma KeptAround(ps: seq<Piece>, p: Piece, qs: seq<Piece>)
    requires KeptOf(p) == []
    ensures Kept(ps + [p] + qs) == Kept(ps + qs)
  {
    KeptConcat(ps, qs);
    KeptConcat(ps + [p], qs);
    KeptConcat(ps, [p]);
    assert [p][1..] == [] && Kept(ps) + ([] + []) == Kept(ps);
  }

  /** A comment or white space between tokens changes nothing: the minified text is what it is without. */
  lemma InsertedIsDropped(ps: seq<Piece>, p: Piece, qs: seq<Piece>)
    requires Pieces(ps) && IsPiece(p) && Pieces(qs) && (p.White? || p.Line? || p.Block?)
    ensures Minified(Source(ps + [p] + qs, [])) == Minified(Source(ps + qs, []))
  {
    hide IsPiece, Minified, Source, Kept;
    TextMinified(ps + qs);
    TextMinified(ps + [p] + qs);
    KeptAround(ps, p, qs);
  }

  /** A comment that begins with a slash is taken to end there: the "*" in front of it counts twice. */
  lemma EarlyEnd(body: Text, rest: Text)
    ensures Minified([SLASH, STAR, SLASH] + (body + rest)) == Minified(body + rest)
  {
    var text := [SLASH, STAR, SLASH] + (body + rest);
    var t := text[1..];
    assert t == [STAR, SLASH] + (body + rest) && t[1..] == [SLASH] + (body + rest) && t[2..] == body + rest;
    assert PastBlock(t) == Some(body + rest);
  }

  /** A comment on the last line needs no line feed. */
  lemma LastLine(body: Text)
    requires 0 !in body && 0x0A !in body
    ensures Minified([SLASH, SLASH] + body) == Some([])
  {
    var text, b := [SLASH, SLASH] + body, [SLASH] + body;
    assert text[1..] == b;
    LineToEnd(b);
  }

  lemma {:induction false} LineToEnd(body: Text)
    requires 0 !in body && 0x0A !in body
    ensures PastLine(body) == []
    decreases |body|
  {
    if body != [] {
      assert body[0] in body;
      LineToEnd(body[1..]);
    }
  }
}
