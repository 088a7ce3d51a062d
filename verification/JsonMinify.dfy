/** cJSON_Minify: white space and comments are removed in place. */
module JsonMinify {
  import opened Prelude
  import opened JsonText
  import opened JsonParse
  import opened JsonJoin

  // ----- what is kept

  predicate Blank(c: byte) {
    c == SPACE || c == TAB || c == CR || c == LF
  }

  /** Behind a //: the rest from the end of the line on. */
  function PastLine(text: Text): (r: Text)
    ensures |r| <= |text|
  {
    if Peek(text) == 0 || Peek(text) == LF then text else PastLine(text[1..])
  }

  /** Behind a block comment; None if it is not closed. */
  function PastBlock(text: Text): (r: Option<Text>)
    ensures r.Some? ==> |r.value| < |text|
  {
    if Peek(text) == 0 then None
    else if Peek(text) == STAR && Peek(text[1..]) == SLASH then Some(text[2..])
    else PastBlock(text[1..])
  }

  /** The length of the rest of a string literal, closing quote included; None if it is not closed. */
  function LiteralEnd(text: Text): (n: Option<nat>)
    ensures n.Some? ==> 0 < n.value <= |text|
    decreases |text|
  {
    if Peek(text) == 0 then None
    else if Peek(text) == QUOTE then Some(1)
    else if text[0] == BACKSLASH then
      if Peek(text[1..]) == 0 then None else Longer(2, LiteralEnd(text[2..]))
    else Longer(1, LiteralEnd(text[1..]))
  }

  function Longer(k: nat, n: Option<nat>): Option<nat> {
    if n.Some? then Some(k + n.value) else None
  }

  function Before(s: Text, r: Option<Text>): Option<Text> {
    if r.Some? then Some(s + r.value) else None
  }

  /** The minified text; None for a text on which cJSON_Minify would run past the terminator. */
  function Minified(text: Text): Option<Text>
    decreases |text|
  {
    var c := Peek(text);
    if c == 0 then Some([])
    else if Blank(c) then Minified(text[1..])
    else if c == SLASH && Peek(text[1..]) == SLASH then Minified(PastLine(text[1..]))
    else if c == SLASH && Peek(text[1..]) == STAR then
      match PastBlock(text)
      case None => None
      case Some(rest) => Minified(rest)
    else if c == QUOTE then
      match LiteralEnd(text[1..])
      case None => None
      case Some(n) => Before(text[..1 + n], Minified(text[1 + n..]))
    else Before([c], Minified(text[1..]))
  }

  // ----- minifying what was printed

  /** Bytes that are copied whatever follows. */
  predicate Solid(c: byte) {
    c != 0 && !Blank(c) && c != SLASH && c != QUOTE
  }

  lemma BeforeTwice(a: Text, b: Text, r: Option<Text>)
    ensures Before(a, Before(b, r)) == Before(a + b, r)
  {
    if r.Some? {
      assert a + (b + r.value) == a + b + r.value;
    }
  }

  lemma BeforeNone(r: Option<Text>)
    ensures Before([], r) == r
  {
    if r.Some? {
      assert [] + r.value == r.value;
    }
  }

  lemma {:induction false} KeepSolid(s: Text, rest: Text)
    requires forall k :: 0 <= k < |s| ==> Solid(s[k])
    ensures Minified(s + rest) == Before(s, Minified(rest))
  {
    if s == [] {
      assert s + rest == rest;
      BeforeNone(Minified(rest));
    } else {
      assert (s + rest)[1..] == s[1..] + rest;
      KeepSolid(s[1..], rest);
      BeforeTwice([s[0]], s[1..], Minified(rest));
      assert [s[0]] + s[1..] == s;
    }
  }

  lemma {:induction false} DropBlank(s: Text, rest: Text)
    requires forall k :: 0 <= k < |s| ==> Blank(s[k])
    ensures Minified(s + rest) == Minified(rest)
  {
    if s == [] {
      assert s + rest == rest;
    } else {
      assert (s + rest)[1..] == s[1..] + rest;
      DropBlank(s[1..], rest);
    }
  }

  lemma {:induction false} PlainInLiteral(s: Text, tail: Text)
    requires forall k :: 0 <= k < |s| ==> s[k] != 0 && s[k] != QUOTE && s[k] != BACKSLASH
    ensures LiteralEnd(s + tail) == Longer(|s|, LiteralEnd(tail))
  {
    if s == [] {
      assert s + tail == tail;
    } else {
      assert (s + tail)[1..] == s[1..] + tail;
      PlainInLiteral(s[1..], tail);
    }
  }

  lemma EscapeInLiteral(c: byte, tail: Text)
    requires c != 0
    ensures LiteralEnd(EscapeByte(c) + tail) == Longer(|EscapeByte(c)|, LiteralEnd(tail))
  {
    var text := EscapeByte(c) + tail;
    if ShortEscape(c) != 0 {
      assert text[2..] == tail;
    } else if c < 32 {
      var hex := [ZERO, ZERO, HexDigit(c / 16), HexDigit(c % 16)];
      assert text[2..] == hex + tail;
      PlainInLiteral(hex, tail);
    } else {
      assert text[1..] == tail;
    }
  }

  lemma {:induction false} EscapedLiteral(s: Text, rest: Text)
    requires NulFree(s)
    ensures LiteralEnd(Escape(s) + [QUOTE] + rest) == Some(|Escape(s)| + 1)
  {
    var text := Escape(s) + [QUOTE] + rest;
    if s != [] {
      var tail := Escape(s[1..]) + [QUOTE] + rest;
      assert text == EscapeByte(s[0]) + tail;
      EscapeInLiteral(s[0], tail);
      EscapedLiteral(s[1..], rest);
    }
  }

  lemma KeepString(s: Text, rest: Text)
    requires NulFree(s)
    ensures Minified(Quoted(s) + rest) == Before(Quoted(s), Minified(rest))
  {
    var text := Quoted(s) + rest;
    assert text[1..] == Escape(s) + [QUOTE] + rest;
    EscapedLiteral(s, rest);
    assert text[..|Escape(s)| + 2] == Quoted(s) && text[|Escape(s)| + 2..] == rest;
  }

  lemma DropFormat(s: Text, fmt: bool, rest: Text)
    requires forall k :: 0 <= k < |s| ==> Blank(s[k])
    ensures Minified(IfFmt(fmt, s) + rest) == Minified(rest)
  {
    DropBlank(IfFmt(fmt, s), rest);
  }

  lemma {:induction false} MinifyPrint(t: Json, depth: nat, d: nat, fmt: bool, rest: Text)
    requires Printable(t)
    ensures Minified(Print(t, depth, fmt) + rest) == Before(Print(t, d, false), Minified(rest))
    decreases t, 0
  {
    match t
    case Str(s) => KeepString(s, rest);
    case Num(v) => KeepSolid(Decimal(v.Floor), rest);
    case Arr(items) => MinifyArray(items, depth, d, fmt, rest);
    case Obj(members) => MinifyObject(members, depth, d, fmt, rest);
    case Null => KeepSolid(NULL_TEXT, rest);
    case False => KeepSolid(FALSE_TEXT, rest);
    case True => KeepSolid(TRUE_TEXT, rest);
  }

  lemma {:induction false} MinifyArray(items: Items, depth: nat, d: nat, fmt: bool, rest: Text)
    requires PrintableItems(items)
    ensures Minified(Print(Arr(items), depth, fmt) + rest) == Before(Print(Arr(items), d, false), Minified(rest))
    decreases items, 1
  {
    hide Minified, Before;
    if items.NoItems? {
      KeepSolid([LBRACKET, RBRACKET], rest);
    } else {
      var close := [RBRACKET] + rest;
      var inner := PrintItems(items, depth, fmt) + close;
      assert Print(Arr(items), depth, fmt) + rest == [LBRACKET] + inner;
      KeepSolid([LBRACKET], inner);
      MinifyItems(items, depth, d, fmt, close);
      KeepSolid([RBRACKET], rest);
      BeforeTwice(PrintItems(items, d, false), [RBRACKET], Minified(rest));
      BeforeTwice([LBRACKET], PrintItems(items, d, false) + [RBRACKET], Minified(rest));
      assert [LBRACKET] + (PrintItems(items, d, false) + [RBRACKET]) == Print(Arr(items), d, false);
    }
  }

  lemma {:induction false} MinifyItems(items: Items, depth: nat, d: nat, fmt: bool, rest: Text)
    requires PrintableItems(items)
    ensures Minified(PrintItems(items, depth, fmt) + rest) == Before(PrintItems(items, d, false), Minified(rest))
    decreases items, 0
  {
    if items.NoItems? {
      KeepSolid([], rest);
      assert PrintItems(items, depth, fmt) == PrintItems(items, d, false) == [];
    } else {
      var tail := PrintItems(items.next, depth, fmt) + rest;
      var sep := ItemEnd(items.next, fmt) + tail;
      ItemsParts(items, depth, fmt, rest);
      MinifyPrint(items.head, depth + 1, d + 1, fmt, sep);
      MinifyItemEnd(items.next, fmt, tail);
      MinifyItems(items.next, depth, d, fmt, rest);
      ItemsFrame(items, d, Minified(rest));
    }
  }

  lemma ItemsFrame(items: Items, d: nat, r: Option<Text>)
    requires items.Item? && PrintableItems(items)
    ensures Before(Print(items.head, d + 1, false),
              Before(ItemEnd(items.next, false), Before(PrintItems(items.next, d, false), r)))
         == Before(PrintItems(items, d, false), r)
  {
    var a, b, c := Print(items.head, d + 1, false), ItemEnd(items.next, false), PrintItems(items.next, d, false);
    BeforeTwice(b, c, r);
    BeforeTwice(a, b + c, r);
    assert a + (b + c) == a + b + c;
  }

  lemma MinifyItemEnd(next: Items, fmt: bool, tail: Text)
    ensures Minified(ItemEnd(next, fmt) + tail) == Before(ItemEnd(next, false), Minified(tail))
  {
    if next.NoItems? {
      KeepSolid([], tail);
    } else {
      assert ItemEnd(next, fmt) + tail == [COMMA] + (IfFmt(fmt, [SPACE]) + tail);
      assert ItemEnd(next, false) == [COMMA];
      KeepSolid([COMMA], IfFmt(fmt, [SPACE]) + tail);
      DropFormat([SPACE], fmt, tail);
    }
  }

  lemma MinifyEmptyObject(depth: nat, d: nat, fmt: bool, rest: Text)
    ensures Minified(Print(Obj(NoMembers), depth, fmt) + rest) == Before(Print(Obj(NoMembers), d, false), Minified(rest))
  {
    var indent, close := IfFmt(fmt, [LF] + Tabs(depth - 1)), [RBRACE] + rest;
    assert Print(Obj(NoMembers), depth, fmt) + rest == [LBRACE] + (indent + close);
    KeepSolid([LBRACE], indent + close);
    DropFormat([LF] + Tabs(depth - 1), fmt, close);
    KeepSolid([RBRACE], rest);
    BeforeTwice([LBRACE], [RBRACE], Minified(rest));
    assert Print(Obj(NoMembers), d, false) == [LBRACE] + [RBRACE];
  }

  lemma {:induction false} MinifyObject(members: Members, depth: nat, d: nat, fmt: bool, rest: Text)
    requires PrintableMembers(members)
    ensures Minified(Print(Obj(members), depth, fmt) + rest) == Before(Print(Obj(members), d, false), Minified(rest))
    decreases members, 1
  {
    if members.NoMembers? {
      MinifyEmptyObject(depth, d, fmt, rest);
    } else {
      MinifyMembers(members, depth + 1, d + 1, fmt, IfFmt(fmt, Tabs(depth)) + ([RBRACE] + rest));
      DropFormat(Tabs(depth), fmt, [RBRACE] + rest);
      KeepSolid([RBRACE], rest);
      ObjectFrame(members, depth, d, fmt, rest);
    }
  }

  lemma ObjectFrame(members: Members, depth: nat, d: nat, fmt: bool, rest: Text)
    requires members.Member? && PrintableMembers(members)
    requires Minified(PrintMembers(members, depth + 1, fmt) + (IfFmt(fmt, Tabs(depth)) + ([RBRACE] + rest)))
          == Before(PrintMembers(members, d + 1, false), Before([RBRACE], Minified(rest)))
    ensures Minified(Print(Obj(members), depth, fmt) + rest) == Before(Print(Obj(members), d, false), Minified(rest))
  {
    var inner := PrintMembers(members, depth + 1, fmt) + (IfFmt(fmt, Tabs(depth)) + ([RBRACE] + rest));
    var m := PrintMembers(members, d + 1, false);
    ObjectParts(members, depth, fmt, rest);
    PlainObject(members, d);
    KeepSolid([LBRACE], IfFmt(fmt, [LF]) + inner);
    DropFormat([LF], fmt, inner);
    BeforeTwice(m, [RBRACE], Minified(rest));
    BeforeTwice([LBRACE], m + [RBRACE], Minified(rest));
  }

  lemma PlainObject(members: Members, depth: nat)
    requires members.Member? && PrintableMembers(members)
    ensures Print(Obj(members), depth, false) == [LBRACE] + (PrintMembers(members, depth + 1, false) + [RBRACE])
  {
    var text, m := Print(Obj(members), depth, false), PrintMembers(members, depth + 1, false);
    assert text == [LBRACE] + [] + m + [] + [RBRACE];
    Gather([LBRACE], [], m, [], [RBRACE], []);
    assert text + [] == text;
  }

  lemma {:induction false} MinifyMembers(members: Members, depth: nat, d: nat, fmt: bool, rest: Text)
    requires PrintableMembers(members)
    ensures Minified(PrintMembers(members, depth, fmt) + rest) == Before(PrintMembers(members, d, false), Minified(rest))
    decreases members, 0
  {
    if members.NoMembers? {
      KeepSolid([], rest);
      assert PrintMembers(members, depth, fmt) == PrintMembers(members, d, false) == [];
    } else {
      var tail := PrintMembers(members.next, depth, fmt) + rest;
      var sep := MemberEnd(members.next, fmt) + tail;
      var value := Print(members.value, depth, fmt) + sep;
      MembersParts(members, depth, fmt, rest);
      MinifyName(members.name, depth, d, fmt, value);
      MinifyPrint(members.value, depth, d, fmt, sep);
      MinifyMemberEnd(members.next, fmt, tail);
      MinifyMembers(members.next, depth, d, fmt, rest);
      MembersFrame(members, d, Minified(rest));
    }
  }

  lemma MembersFrame(members: Members, d: nat, r: Option<Text>)
    requires members.Member? && PrintableMembers(members)
    ensures Before(MemberName(members.name, d, false),
              Before(Print(members.value, d, false),
                Before(MemberEnd(members.next, false), Before(PrintMembers(members.next, d, false), r))))
         == Before(PrintMembers(members, d, false), r)
  {
    var a, b := MemberName(members.name, d, false), Print(members.value, d, false);
    var c, e := MemberEnd(members.next, false), PrintMembers(members.next, d, false);
    BeforeTwice(c, e, r);
    BeforeTwice(b, c + e, r);
    BeforeTwice(a, b + (c + e), r);
    assert a + (b + (c + e)) == a + b + c + e;
  }

  lemma MinifyName(name: Text, depth: nat, d: nat, fmt: bool, rest: Text)
    requires NulFree(name)
    ensures Minified(MemberName(name, depth, fmt) + rest) == Before(MemberName(name, d, false), Minified(rest))
  {
    hide Minified, Escape;
    var value := IfFmt(fmt, [TAB]) + rest;
    var colon := [COLON] + value;
    NameParts(name, depth, fmt, rest);
    DropFormat(Tabs(depth), fmt, Quoted(name) + colon);
    KeepString(name, colon);
    KeepSolid([COLON], value);
    DropFormat([TAB], fmt, rest);
    BeforeTwice(Quoted(name), [COLON], Minified(rest));
    assert MemberName(name, d, false) == Quoted(name) + [COLON];
  }

  lemma MinifyMemberEnd(next: Members, fmt: bool, tail: Text)
    ensures Minified(MemberEnd(next, fmt) + tail) == Before(MemberEnd(next, false), Minified(tail))
  {
    var comma := if next.NoMembers? then [] else [COMMA];
    assert MemberEnd(next, fmt) + tail == comma + (IfFmt(fmt, [LF]) + tail);
    KeepSolid(comma, IfFmt(fmt, [LF]) + tail);
    DropFormat([LF], fmt, tail);
    assert MemberEnd(next, false) == comma;
  }

  /** Minifying the formatted text gives the unformatted text. */
  lemma MinifyFormatted(t: Json)
    requires Printable(t)
    ensures Minified(Print(t, 0, true)) == Some(Print(t, 0, false))
  {
    MinifyPrint(t, 0, 0, true, []);
    assert Print(t, 0, true) + [] == Print(t, 0, true);
    assert Print(t, 0, false) + [] == Print(t, 0, false);
  }

  // ----- in place

  /** From position at on, json holds the C string rest. */
  ghost predicate Ahead(json: array<byte>, at: nat, rest: Text)
    reads json
  {
    NulFree(rest) && at + |rest| < json.Length && json[at..at + |rest|] == rest && json[at + |rest|] == 0
  }

  /** The byte at the read position. */
  method Look(json: array<byte>, at: nat, ghost rest: Text) returns (c: byte)
    requires Ahead(json, at, rest)
    ensures c == json[at] == Peek(rest)
  {
    c := json[at];
    assert rest != [] ==> json[at..at + |rest|][0] == json[at];
  }

  lemma AheadDrop(json: array<byte>, at: nat, rest: Text, n: nat)
    requires Ahead(json, at, rest) && n <= |rest|
    ensures Ahead(json, at + n, rest[n..])
  {
    assert json[at + n..at + |rest|] == json[at..at + |rest|][n..];
  }

  /** *into++ = *json++ */
  method CopyByte(json: array<byte>, into: nat, rd: nat, ghost rest: Text)
    requires Ahead(json, rd, rest) && rest != [] && into <= rd
    modifies json
    ensures Ahead(json, rd + 1, rest[1..]) && json[..into + 1] == old(json[..into]) + [rest[0]]
  {
    ghost var done := json[..into];
    assert json[rd..rd + |rest|][0] == json[rd];
    AheadDrop(json, rd, rest, 1);
    ghost var next := json[rd + 1..rd + |rest|];
    json[into] := json[rd];
    assert json[rd + 1..rd + |rest|] == next;
    assert json[..into + 1] == done + [rest[0]];
  }

  /** What LiteralEnd says about a byte inside the literal, and about its end. */
  lemma LiteralStep(rest: Text)
    requires LiteralEnd(rest).Some?
    ensures rest != [] && Peek(rest) == rest[0] != 0 && (rest[0] == QUOTE ==> LiteralEnd(rest).value == 1)
    ensures rest[0] == BACKSLASH ==> |rest| > 1 && Continues(rest, 2)
    ensures rest[0] != QUOTE && rest[0] != BACKSLASH ==> Continues(rest, 1)
  {
  }

  predicate Continues(rest: Text, n: nat) {
    n <= |rest| && LiteralEnd(rest).Some? && LiteralEnd(rest[n..]).Some?
    && LiteralEnd(rest).value == n + LiteralEnd(rest[n..]).value
  }

  /** One turn of the loop over a string literal: a byte, or a backslash and the byte behind it. */
  method CopyChar(json: array<byte>, into: nat, rd: nat, ghost rest: Text) returns (n: nat)
    requires Ahead(json, rd, rest) && into <= rd
    requires LiteralEnd(rest).Some? && Peek(rest) != QUOTE
    modifies json
    ensures 0 < n <= |rest| && Continues(rest, n)
    ensures json[..into + n] == old(json[..into]) + rest[..n] && Ahead(json, rd + n, rest[n..])
  {
    hide LiteralEnd, Continues;
    LiteralStep(rest);
    var c := Look(json, rd, rest);
    CopyByte(json, into, rd, rest);
    n := 1;
    if c == BACKSLASH {
      CopyByte(json, into + 1, rd + 1, rest[1..]);
      n := 2;
      assert rest[1..][1..] == rest[2..];
    }
  }

  lemma Moved(start: Text, rest: Text, done: Text, ahead: Text, more: Text, n: nat)
    requires done + ahead == start + rest && n <= |ahead| && more == done + ahead[..n]
    ensures more + ahead[n..] == start + rest
  {
    assert ahead[..n] + ahead[n..] == ahead;
  }

  /** The loop over a string literal, up to its closing quote; ahead is what is left of rest. */
  method CopyInside(json: array<byte>, into0: nat, rd0: nat, ghost rest: Text)
    returns (into: nat, rd: nat, ghost ahead: Text)
    requires Ahead(json, rd0, rest) && into0 <= rd0 && LiteralEnd(rest).Some?
    modifies json
    ensures rd0 <= rd && |rest| == rd - rd0 + |ahead| && into - into0 == rd - rd0
    ensures Ahead(json, rd, ahead) && Peek(ahead) == QUOTE && rd + 1 == rd0 + LiteralEnd(rest).value
    ensures json[..into] + ahead == old(json[..into0]) + rest
  {
    hide LiteralEnd;
    into, rd := into0, rd0;
    ghost var start := json[..into0];
    ahead := rest;
    var c := Look(json, rd, ahead);
    while c != 0 && c != QUOTE
      invariant rd0 <= rd && |rest| == rd - rd0 + |ahead| && into - into0 == rd - rd0
      invariant Ahead(json, rd, ahead) && c == Peek(ahead)
      invariant json[..into] + ahead == start + rest
      invariant LiteralEnd(ahead).Some? && LiteralEnd(rest).value == rd - rd0 + LiteralEnd(ahead).value
      decreases |ahead|
    {
      ghost var done := json[..into];
      var n := CopyChar(json, into, rd, ahead);
      Moved(start, rest, done, ahead, json[..into + n], n);
      into, rd, ahead := into + n, rd + n, ahead[n..];
      c := Look(json, rd, ahead);
    }
    LiteralStep(ahead);
  }

  /** A string literal, behind its opening quote, with its closing quote. */
  method CopyLiteral(json: array<byte>, into0: nat, rd0: nat, ghost rest: Text) returns (into: nat, rd: nat)
    requires Ahead(json, rd0, rest) && into0 <= rd0 && LiteralEnd(rest).Some?
    modifies json
    ensures into <= rd && rd == rd0 + LiteralEnd(rest).value && into == into0 + LiteralEnd(rest).value
    ensures json[..into] == old(json[..into0]) + rest[..rd - rd0] && Ahead(json, rd, rest[rd - rd0..])
  {
    hide LiteralEnd;
    ghost var start, ahead := json[..into0], rest;
    into, rd, ahead := CopyInside(json, into0, rd0, rest);
    LiteralDone(start, rest, json[..into], ahead);
    CopyByte(json, into, rd, ahead);
    into, rd := into + 1, rd + 1;
  }

  lemma LiteralDone(start: Text, rest: Text, done: Text, ahead: Text)
    requires done + ahead == start + rest && 0 < |ahead| <= |rest|
    ensures var k := |rest| - |ahead|;
            done + [ahead[0]] == start + rest[..k + 1] && ahead[1..] == rest[k + 1..]
  {
    var whole, k := start + rest, |rest| - |ahead|;
    assert whole[..|start| + k + 1] == start + rest[..k + 1];
    assert whole[..|done| + 1] == done + [ahead[0]];
    assert whole[|start| + k + 1..] == rest[k + 1..];
    assert whole[|done| + 1..] == ahead[1..];
  }

  /** The loop over a comment to the end of the line. */
  method SkipLine(json: array<byte>, rd0: nat, ghost rest: Text) returns (rd: nat)
    requires Ahead(json, rd0, rest)
    ensures rd == rd0 + |rest| - |PastLine(rest)| && Ahead(json, rd, PastLine(rest))
  {
    rd := rd0;
    ghost var ahead := rest;
    var c := Look(json, rd, ahead);
    while c != 0 && c != LF
      invariant Ahead(json, rd, ahead) && c == Peek(ahead) && PastLine(ahead) == PastLine(rest)
      invariant rd + |ahead| == rd0 + |rest|
      decreases |ahead|
    {
      AheadDrop(json, rd, ahead, 1);
      rd, ahead := rd + 1, ahead[1..];
      c := Look(json, rd, ahead);
    }
  }

  /** The loop over a block comment. */
  method SkipBlock(json: array<byte>, rd0: nat, ghost rest: Text) returns (rd: nat)
    requires Ahead(json, rd0, rest) && PastBlock(rest).Some?
    ensures rd == rd0 + |rest| - |PastBlock(rest).value| && Ahead(json, rd, PastBlock(rest).value)
  {
    hide Ahead;
    rd := rd0;
    ghost var ahead := rest;
    while true
      invariant Ahead(json, rd, ahead) && PastBlock(ahead) == PastBlock(rest)
      invariant rd + |ahead| == rd0 + |rest|
      decreases |ahead|
    {
      var c := Look(json, rd, ahead);
      AheadDrop(json, rd, ahead, 1);
      if c == STAR {
        var c1 := Look(json, rd + 1, ahead[1..]);
        if c1 == SLASH {
          break;
        }
      }
      rd, ahead := rd + 1, ahead[1..];
    }
    AheadDrop(json, rd, ahead, 2);
    rd := rd + 2;
  }

  /** A string literal or any other byte that is kept. */
  method CopyToken(json: array<byte>, into0: nat, rd0: nat, c: byte, ghost rest: Text)
    returns (into: nat, rd: nat, ghost ahead: Text)
    requires Ahead(json, rd0, rest) && into0 <= rd0 && Minified(rest).Some? && rest != [] && c == rest[0]
    requires !Blank(c) && !(c == SLASH && (Peek(rest[1..]) == SLASH || Peek(rest[1..]) == STAR))
    modifies json
    ensures into <= rd && Ahead(json, rd, ahead) && rd + |ahead| == rd0 + |rest| && rd0 < rd
    ensures Minified(ahead).Some?
    ensures json[..into] + Minified(ahead).value == old(json[..into0]) + Minified(rest).value
  {
    ghost var start := json[..into0];
    CopyByte(json, into0, rd0, rest);
    into, rd, ahead := into0 + 1, rd0 + 1, rest[1..];
    if c == QUOTE {
      ghost var n := LiteralEnd(ahead).value;
      QuoteStep(start, rest, n);
      into, rd := CopyLiteral(json, into, rd, ahead);
      ahead := ahead[n..];
    } else {
      assert start + ([c] + Minified(ahead).value) == start + [c] + Minified(ahead).value;
    }
  }

  /** One turn of the loop of cJSON_Minify. */
  method MinifyStep(json: array<byte>, into0: nat, rd0: nat, ghost rest: Text)
    returns (into: nat, rd: nat, ghost ahead: Text)
    requires Ahead(json, rd0, rest) && into0 <= rd0 && Minified(rest).Some? && rest != []
    modifies json
    ensures into <= rd && Ahead(json, rd, ahead) && rd + |ahead| == rd0 + |rest| && rd0 < rd
    ensures Minified(ahead).Some?
    ensures json[..into] + Minified(ahead).value == old(json[..into0]) + Minified(rest).value
  {
    into, rd, ahead := into0, rd0, rest[1..];
    AheadDrop(json, rd, rest, 1);
    var c := Look(json, rd, rest);
    var c1 := 0;
    if c == SLASH {
      c1 := Look(json, rd + 1, ahead);
    }
    if Blank(c) {
      rd := rd + 1;
    } else if c == SLASH && c1 == SLASH {
      rd := SkipLine(json, rd + 1, ahead);
      ahead := PastLine(ahead);
    } else if c == SLASH && c1 == STAR {
      rd := SkipBlock(json, rd, rest);
      ahead := PastBlock(rest).value;
    } else {
      into, rd, ahead := CopyToken(json, into, rd, c, rest);
    }
  }

  lemma QuoteStep(start: Text, rest: Text, n: nat)
    requires Peek(rest) == QUOTE && Minified(rest).Some? && LiteralEnd(rest[1..]) == Some(n)
    ensures rest[1..][n..] == rest[1 + n..] && Minified(rest[1 + n..]).Some?
    ensures (start + [rest[0]] + rest[1..][..n]) + Minified(rest[1 + n..]).value == start + Minified(rest).value
  {
    assert [rest[0]] + rest[1..][..n] == rest[..1 + n];
  }

  /** cJSON_Minify: the array holds the minified text at the end, and was only ever written behind the read position. */
  method Minify(json: array<byte>, ghost text: Text)
    requires Holds(json, text) && NulFree(text) && Minified(text).Some?
    modifies json
    ensures Holds(json, Minified(text).value)
  {
    var into, rd := 0, 0;
    ghost var rest := text;
    assert json[..0] == [];
    var c := Look(json, 0, rest);
    while c != 0
      invariant 0 <= into <= rd && Ahead(json, rd, rest) && c == Peek(rest)
      invariant Minified(rest).Some? && json[..into] + Minified(rest).value == Minified(text).value
      decreases |rest|
    {
      into, rd, rest := MinifyStep(json, into, rd, rest);
      c := Look(json, rd, rest);
    }
    assert rest == [] && Minified(rest).value == [];
    ghost var done := json[..into];
    json[into] := 0;
    assert json[..into] == done;
  }
}
