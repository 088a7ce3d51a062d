/** JSON trees and the text that cJSON prints for them.  A text is the bytes of a C string before its terminator. */
module JsonText {
  import opened Prelude

  type Text = seq<byte>

  const TAB: byte := 9
  const LF: byte := 10
  const CR: byte := 13
  const SPACE: byte := 32
  const QUOTE: byte := 34
  const STAR: byte := 42
  const PLUS: byte := 43
  const COMMA: byte := 44
  const MINUS: byte := 45
  const DOT: byte := 46
  const SLASH: byte := 47
  const ZERO: byte := 48
  const COLON: byte := 58
  const LBRACKET: byte := 91
  const BACKSLASH: byte := 92
  const RBRACKET: byte := 93
  const LBRACE: byte := 123
  const RBRACE: byte := 125

  const NULL_TEXT: Text := [110, 117, 108, 108]
  const FALSE_TEXT: Text := [102, 97, 108, 115, 101]
  const TRUE_TEXT: Text := [116, 114, 117, 101]

  const INT_MIN: int := -0x8000_0000
  const INT_MAX: int := 0x7fff_ffff

  /** A cJSON item with its child chain.  valuedouble is a real: the arithmetic of the model does not round. */
  datatype Json = Null | False | True | Num(value: real) | Str(text: Text) | Arr(items: Items) | Obj(members: Members)

  datatype Items = NoItems | Item(head: Json, next: Items)

  datatype Members = NoMembers | Member(name: Text, value: Json, next: Members)

  predicate NulFree(s: Text) {
    0 !in s
  }

  /** The trees whose text the model describes: integers in the range of int, and C strings. */
  predicate Printable(t: Json) {
    match t
    case Num(v) => v == v.Floor as real && INT_MIN <= v.Floor <= INT_MAX
    case Str(s) => NulFree(s)
    case Arr(items) => PrintableItems(items)
    case Obj(members) => PrintableMembers(members)
    case _ => true
  }

  predicate PrintableItems(items: Items) {
    match items
    case NoItems => true
    case Item(t, next) => Printable(t) && PrintableItems(next)
  }

  predicate PrintableMembers(members: Members) {
    match members
    case NoMembers => true
    case Member(name, t, next) => NulFree(name) && Printable(t) && PrintableMembers(next)
  }

  // ----- numbers

  function Digits(n: nat): (r: Text)
    ensures |r| > 0
    ensures forall k :: 0 <= k < |r| ==> ZERO <= r[k] < ZERO + 10
    ensures n > 0 ==> r[0] != ZERO
  {
    if n < 10 then [ZERO + n] else Digits(n / 10) + [ZERO + n % 10]
  }

  /** What "%d" writes. */
  function Decimal(n: int): Text {
    if n < 0 then [MINUS] + Digits(-n) else Digits(n)
  }

  // ----- strings

  function HexDigit(d: nat): byte
    requires d < 16
  {
    if d < 10 then ZERO + d else 87 + d
  }

  /** The letter behind the backslash of a two-character escape; 0 if the byte has none. */
  function ShortEscape(c: byte): byte {
    match c
    case 34 => 34
    case 92 => 92
    case 8 => 98
    case 12 => 102
    case 10 => 110
    case 13 => 114
    case 9 => 116
    case _ => 0
  }

  function EscapeByte(c: byte): Text {
    if ShortEscape(c) != 0 then [BACKSLASH, ShortEscape(c)]
    else if c < 32 then [BACKSLASH, 117, ZERO, ZERO, HexDigit(c / 16), HexDigit(c % 16)]
    else [c]
  }

  function Escape(s: Text): Text {
    if s == [] then [] else EscapeByte(s[0]) + Escape(s[1..])
  }

  function Quoted(s: Text): Text {
    [QUOTE] + Escape(s) + [QUOTE]
  }

  // ----- whole trees

  function Tabs(n: int): (r: Text)
    ensures |r| == if n > 0 then n else 0
    ensures forall k :: 0 <= k < |r| ==> r[k] == TAB
  {
    if n <= 0 then [] else [TAB] + Tabs(n - 1)
  }

  /** s if the text is formatted. */
  function IfFmt(fmt: bool, s: Text): Text {
    if fmt then s else []
  }

  function Print(t: Json, depth: nat, fmt: bool): Text
    requires Printable(t)
  {
    match t
    case Null => NULL_TEXT
    case False => FALSE_TEXT
    case True => TRUE_TEXT
    case Num(v) => Decimal(v.Floor)
    case Str(s) => Quoted(s)
    case Arr(NoItems) => [LBRACKET, RBRACKET]
    case Arr(items) => [LBRACKET] + PrintItems(items, depth, fmt) + [RBRACKET]
    case Obj(NoMembers) => [LBRACE] + IfFmt(fmt, [LF] + Tabs(depth - 1)) + [RBRACE]
    case Obj(members) =>
      [LBRACE] + IfFmt(fmt, [LF]) + PrintMembers(members, depth + 1, fmt) + IfFmt(fmt, Tabs(depth)) + [RBRACE]
  }

  /** What separates one item from the next. */
  function ItemEnd(next: Items, fmt: bool): Text {
    if next.NoItems? then [] else [COMMA] + IfFmt(fmt, [SPACE])
  }

  function PrintItems(items: Items, depth: nat, fmt: bool): Text
    requires PrintableItems(items)
  {
    match items
    case NoItems => []
    case Item(t, next) => Print(t, depth + 1, fmt) + ItemEnd(next, fmt) + PrintItems(next, depth, fmt)
  }

  function MemberName(name: Text, depth: nat, fmt: bool): Text {
    IfFmt(fmt, Tabs(depth)) + Quoted(name) + [COLON] + IfFmt(fmt, [TAB])
  }

  function MemberEnd(next: Members, fmt: bool): Text {
    (if next.NoMembers? then [] else [COMMA]) + IfFmt(fmt, [LF])
  }

  function PrintMembers(members: Members, depth: nat, fmt: bool): Text
    requires PrintableMembers(members)
  {
    match members
    case NoMembers => []
    case Member(name, t, next) =>
      MemberName(name, depth, fmt) + Print(t, depth, fmt) + MemberEnd(next, fmt) + PrintMembers(next, depth, fmt)
  }

  // ----- texts of objects, regrouped

  lemma Gather(a: Text, b: Text, c: Text, d: Text, e: Text, f: Text)
    ensures a + b + c + d + e + f == a + (b + (c + (d + (e + f))))
  {
  }

  lemma Gathered(a: Text, b: Text, c: Text)
    ensures (a + b) + c == a + (b + c)
  {
  }

  lemma NoText(text: Text)
    ensures [] + text == text
  {
  }

  lemma ObjectParts(members: Members, depth: nat, fmt: bool, rest: Text)
    requires members.Member? && PrintableMembers(members)
    ensures Print(Obj(members), depth, fmt) + rest
         == [LBRACE] + (IfFmt(fmt, [LF])
                        + (PrintMembers(members, depth + 1, fmt) + (IfFmt(fmt, Tabs(depth)) + ([RBRACE] + rest))))
  {
    Gather([LBRACE], IfFmt(fmt, [LF]), PrintMembers(members, depth + 1, fmt), IfFmt(fmt, Tabs(depth)), [RBRACE], rest);
  }

  lemma MembersParts(members: Members, depth: nat, fmt: bool, rest: Text)
    requires members.Member? && PrintableMembers(members)
    ensures PrintMembers(members, depth, fmt) + rest
         == MemberName(members.name, depth, fmt)
            + (Print(members.value, depth, fmt)
               + (MemberEnd(members.next, fmt) + (PrintMembers(members.next, depth, fmt) + rest)))
  {
    Gather(MemberName(members.name, depth, fmt), Print(members.value, depth, fmt), MemberEnd(members.next, fmt),
           PrintMembers(members.next, depth, fmt), rest, []);
    assert rest + [] == rest;
  }

  lemma ArrayParts(items: Items, depth: nat, fmt: bool, rest: Text)
    requires PrintableItems(items)
    ensures Print(Arr(items), depth, fmt) + rest == [LBRACKET] + (PrintItems(items, depth, fmt) + ([RBRACKET] + rest))
  {
  }

  lemma ItemsParts(items: Items, depth: nat, fmt: bool, rest: Text)
    requires items.Item? && PrintableItems(items)
    ensures PrintItems(items, depth, fmt) + rest
         == Print(items.head, depth + 1, fmt) + (ItemEnd(items.next, fmt) + (PrintItems(items.next, depth, fmt) + rest))
  {
  }

  lemma NameParts(name: Text, depth: nat, fmt: bool, rest: Text)
    ensures MemberName(name, depth, fmt) + rest
         == IfFmt(fmt, Tabs(depth)) + (Quoted(name) + ([COLON] + (IfFmt(fmt, [TAB]) + rest)))
  {
  }

  /** A printed text never holds a terminator. */
  lemma {:induction false} EscapeNulFree(s: Text)
    requires NulFree(s)
    ensures NulFree(Escape(s))
  {
    if s != [] {
      EscapeNulFree(s[1..]);
    }
  }

  lemma {:induction false} PrintNulFree(t: Json, depth: nat, fmt: bool)
    requires Printable(t)
    ensures NulFree(Print(t, depth, fmt))
    decreases t
  {
    match t
    case Str(s) => EscapeNulFree(s);
    case Arr(items) => ItemsNulFree(items, depth, fmt);
    case Obj(members) => MembersNulFree(members, depth + 1, fmt);
    case _ =>
  }

  lemma {:induction false} ItemsNulFree(items: Items, depth: nat, fmt: bool)
    requires PrintableItems(items)
    ensures NulFree(PrintItems(items, depth, fmt))
    decreases items
  {
    match items
    case NoItems =>
    case Item(t, next) =>
      PrintNulFree(t, depth + 1, fmt);
      ItemsNulFree(next, depth, fmt);
  }

  lemma {:induction false} MembersNulFree(members: Members, depth: nat, fmt: bool)
    requires PrintableMembers(members)
    ensures NulFree(PrintMembers(members, depth, fmt))
    decreases members
  {
    match members
    case NoMembers =>
    case Member(name, t, next) =>
      EscapeNulFree(name);
      PrintNulFree(t, depth, fmt);
      MembersNulFree(next, depth, fmt);
  }
}
