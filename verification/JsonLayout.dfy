/** The lines and the indentation of what cJSON prints, written down from what stands between two tokens. */
module JsonLayout {
  import opened Prelude
  import opened JsonText

  /** A bracket or a brace, a comma, a colon, or a word, number or string. */
  datatype Mark = Open(brace: bool) | Close(brace: bool) | Comma | Colon | Atom(text: Text)

  /** The tokens of a tree, in front of others. */
  function Marks(t: Json, more: seq<Mark>): seq<Mark>
    requires Printable(t)
    decreases t, 0
  {
    match t
    case Null => [Atom(NULL_TEXT)] + more
    case False => [Atom(FALSE_TEXT)] + more
    case True => [Atom(TRUE_TEXT)] + more
    case Num(v) => [Atom(Decimal(v.Floor))] + more
    case Str(s) => [Atom(Quoted(s))] + more
    case Arr(items) => [Open(false)] + ItemMarks(items, [Close(false)] + more)
    case Obj(members) => [Open(true)] + MemberMarks(members, [Close(true)] + more)
  }

  function ItemMarks(items: Items, more: seq<Mark>): seq<Mark>
    requires PrintableItems(items)
    decreases items, 0
  {
    match items
    case NoItems => more
    case Item(t, next) => Marks(t, if next.NoItems? then more else [Comma] + ItemMarks(next, more))
  }

  function MemberMarks(members: Members, more: seq<Mark>): seq<Mark>
    requires PrintableMembers(members)
    decreases members, 0
  {
    match members
    case NoMembers => more
    case Member(name, t, next) =>
      [Atom(Quoted(name)), Colon] + Marks(t, if next.NoMembers? then more else [Comma] + MemberMarks(next, more))
  }

  function Spelling(m: Mark): Text {
    match m
    case Open(brace) => if brace then [0x7B] else [0x5B]
    case Close(brace) => if brace then [0x7D] else [0x5D]
    case Comma => [0x2C]
    case Colon => [0x3A]
    case Atom(text) => text
  }

  /** What is open behind a token, innermost first; true stands for a brace. */
  function Opened(m: Mark, open: seq<bool>): seq<bool> {
    match m
    case Open(brace) => [brace] + open
    case Close(_) => if open == [] then [] else open[1..]
    case _ => open
  }

  /** A new line, indented by n tabs. */
  function NewLine(n: int): Text {
    [LF] + Tabs(n)
  }

  /**
   * What formatting puts between two tokens, where open is open.  Every member of an object begins a line that is indented by
   * the number of open brackets and braces, and a closing brace one by one less; an empty object has one tab less still.
   */
  function Gap(m: Mark, next: Mark, open: seq<bool>): Text {
    if m == Open(true) then NewLine(if next == Close(true) then |open| - 2 else |open|)
    else if next == Close(true) then NewLine(|open| - 1)
    else if m == Comma then if open != [] && open[0] then NewLine(|open|) else [SPACE]
    else if m == Colon then [TAB]
    else []
  }

  /** The formatted text of tokens. */
  function Laid(ms: seq<Mark>, open: seq<bool>): Text {
    if ms == [] then []
    else
      var inner := Opened(ms[0], open);
      Spelling(ms[0]) + ((if |ms| > 1 then Gap(ms[0], ms[1], inner) else []) + Laid(ms[1..], inner))
  }

  /** The text of tokens with nothing between them. */
  function Joined(ms: seq<Mark>): Text {
    if ms == [] then [] else Spelling(ms[0]) + Joined(ms[1..])
  }

  // ----- the unformatted text

  lemma JoinedFirst(m: Mark, more: seq<Mark>)
    ensures Joined([m] + more) == Spelling(m) + Joined(more)
  {
    assert ([m] + more)[1..] == more;
  }

  lemma {:induction false} PrintJoined(t: Json, depth: nat, more: seq<Mark>)
    requires Printable(t)
    ensures Print(t, depth, false) + Joined(more) == Joined(Marks(t, more))
    decreases t, 0
  {
    hide Joined;
    match t
    case Arr(items) => ArrayJoined(items, depth, more);
    case Obj(members) => ObjectJoined(members, depth, more);
    case Null => JoinedFirst(Atom(NULL_TEXT), more);
    case False => JoinedFirst(Atom(FALSE_TEXT), more);
    case True => JoinedFirst(Atom(TRUE_TEXT), more);
    case Num(v) => JoinedFirst(Atom(Decimal(v.Floor)), more);
    case Str(s) => JoinedFirst(Atom(Quoted(s)), more);
  }

  lemma {:induction false} ArrayJoined(items: Items, depth: nat, more: seq<Mark>)
    requires PrintableItems(items)
    ensures Print(Arr(items), depth, false) + Joined(more) == Joined(Marks(Arr(items), more))
    decreases items, 1
  {
    hide Joined, Print, PrintItems, ItemMarks;
    JoinedFirst(Open(false), ItemMarks(items, [Close(false)] + more));
    ItemsJoined(items, depth, [Close(false)] + more);
    JoinedFirst(Close(false), more);
    ArrayParts(items, depth, false, Joined(more));
  }

  lemma {:induction false} ObjectJoined(members: Members, depth: nat, more: seq<Mark>)
    requires PrintableMembers(members)
    ensures Print(Obj(members), depth, false) + Joined(more) == Joined(Marks(Obj(members), more))
    decreases members, 1
  {
    hide Joined, PrintMembers, MemberMarks;
    JoinedFirst(Open(true), MemberMarks(members, [Close(true)] + more));
    JoinedFirst(Close(true), more);
    if members.NoMembers? {
      NoMarks([Close(true)] + more);
      assert [LBRACE] + [] + [RBRACE] + Joined(more) == [LBRACE] + ([RBRACE] + Joined(more));
    } else {
      hide Print;
      MembersJoined(members, depth + 1, [Close(true)] + more);
      ObjectParts(members, depth, false, Joined(more));
      NoText(PrintMembers(members, depth + 1, false) + ([RBRACE] + Joined(more)));
      NoText([RBRACE] + Joined(more));
    }
  }

  lemma NoMarks(more: seq<Mark>)
    ensures MemberMarks(NoMembers, more) == more
  {
  }

  lemma {:induction false} ItemsJoined(items: Items, depth: nat, more: seq<Mark>)
    requires PrintableItems(items)
    ensures PrintItems(items, depth, false) + Joined(more) == Joined(ItemMarks(items, more))
    decreases items, 0
  {
    hide Joined, Print;
    if items.NoItems? {
      NoText(Joined(more));
    } else {
      var next := if items.next.NoItems? then more else [Comma] + ItemMarks(items.next, more);
      PrintJoined(items.head, depth + 1, next);
      ItemsParts(items, depth, false, Joined(more));
      ItemsJoined(items.next, depth, more);
      JoinedFirst(Comma, ItemMarks(items.next, more));
      NoText(Joined(more));
    }
  }

  lemma {:induction false} MembersJoined(members: Members, depth: nat, more: seq<Mark>)
    requires PrintableMembers(members)
    ensures PrintMembers(members, depth, false) + Joined(more) == Joined(MemberMarks(members, more))
    decreases members, 0
  {
    hide Joined, Print, MemberName, MemberEnd;
    if members.NoMembers? {
      NoText(Joined(more));
    } else {
      var next := if members.next.NoMembers? then more else [Comma] + MemberMarks(members.next, more);
      MembersParts(members, depth, false, Joined(more));
      MembersJoined(members.next, depth, more);
      NextJoined(members.next, more);
      PrintJoined(members.value, depth, next);
      NameJoined(members.name, depth, Marks(members.value, next));
    }
  }

  lemma NextJoined(next: Members, more: seq<Mark>)
    requires PrintableMembers(next)
    ensures MemberEnd(next, false) + Joined(MemberMarks(next, more))
         == Joined(if next.NoMembers? then more else [Comma] + MemberMarks(next, more))
  {
    hide Joined;
    JoinedFirst(Comma, MemberMarks(next, more));
    NoText(Joined(more));
  }

  lemma NameJoined(name: Text, depth: nat, value: seq<Mark>)
    ensures MemberName(name, depth, false) + Joined(value) == Joined([Atom(Quoted(name)), Colon] + value)
  {
    hide Joined, Quoted, MemberName;
    assert [Atom(Quoted(name)), Colon] + value == [Atom(Quoted(name))] + ([Colon] + value);
    JoinedFirst(Atom(Quoted(name)), [Colon] + value);
    JoinedFirst(Colon, value);
    NameParts(name, depth, false, Joined(value));
    NoText(Joined(value));
    NoText(Quoted(name) + ([COLON] + Joined(value)));
  }

  // ----- the formatted text

  /** What follows a value: the gap in front of the next token, and the rest. */
  function Behind(more: seq<Mark>, open: seq<bool>): Text {
    if more == [] then [] else Gap(Atom([]), more[0], open) + Laid(more, open)
  }

  lemma LaidFirst(m: Mark, more: seq<Mark>, open: seq<bool>)
    ensures Laid([m] + more, open)
         == Spelling(m) + ((if more == [] then [] else Gap(m, more[0], Opened(m, open))) + Laid(more, Opened(m, open)))
  {
    assert ([m] + more)[1..] == more;
  }

  lemma AtomLaid(text: Text, more: seq<Mark>, open: seq<bool>)
    ensures Laid([Atom(text)] + more, open) == text + Behind(more, open)
  {
    NoneLaid(open);
    hide Laid;
    LaidFirst(Atom(text), more, open);
  }

  lemma NoneLaid(open: seq<bool>)
    ensures Laid([], open) == []
  {
  }

  /** A closing bracket is followed as any other value. */
  lemma CloseLaid(brace: bool, more: seq<Mark>, open: seq<bool>)
    ensures Laid([Close(brace)] + more, [brace] + open) == [if brace then RBRACE else RBRACKET] + Behind(more, open)
  {
    LaidFirst(Close(brace), more, [brace] + open);
    assert ([brace] + open)[1..] == open;
  }

  lemma {:induction false} PrintLaid(t: Json, open: seq<bool>, more: seq<Mark>)
    requires Printable(t)
    ensures Print(t, |open|, true) + Behind(more, open) == Laid(Marks(t, more), open)
    decreases t, 0
  {
    hide Laid, Behind;
    match t
    case Arr(items) => ArrayLaid(items, open, more);
    case Obj(members) => ObjectLaid(members, open, more);
    case Null => AtomLaid(NULL_TEXT, more, open);
    case False => AtomLaid(FALSE_TEXT, more, open);
    case True => AtomLaid(TRUE_TEXT, more, open);
    case Num(v) => AtomLaid(Decimal(v.Floor), more, open);
    case Str(s) => AtomLaid(Quoted(s), more, open);
  }

  /** The first token of a value is no closing brace, comma or colon. */
  lemma MarksStart(t: Json, more: seq<Mark>)
    requires Printable(t)
    ensures Marks(t, more) != [] && (Marks(t, more)[0].Open? || Marks(t, more)[0].Atom?)
  {
  }

  lemma {:induction false} ArrayLaid(items: Items, open: seq<bool>, more: seq<Mark>)
    requires PrintableItems(items)
    ensures Print(Arr(items), |open|, true) + Behind(more, open) == Laid(Marks(Arr(items), more), open)
    decreases items, 1
  {
    hide Laid, Behind, Print, PrintItems;
    var inner, close := [false] + open, [Close(false)] + more;
    ArrayParts(items, |open|, true, Behind(more, open));
    LaidFirst(Open(false), ItemMarks(items, close), open);
    CloseLaid(false, more, open);
    if items.NoItems? {
      EmptyItems(|open|);
      NoText(Laid(close, inner));
    } else {
      MarksStart(items.head, if items.next.NoItems? then close else [Comma] + ItemMarks(items.next, close));
      NoText(Laid(ItemMarks(items, close), inner));
      ItemsLaid(items, inner, close);
      BehindItem(close, inner);
    }
  }

  lemma EmptyItems(depth: nat)
    ensures PrintItems(NoItems, depth, true) == []
  {
  }

  /** Nothing stands in front of a closing bracket or a comma. */
  lemma BehindItem(more: seq<Mark>, open: seq<bool>)
    requires more != [] && (more[0] == Close(false) || more[0] == Comma)
    ensures Behind(more, open) == Laid(more, open)
  {
    NoText(Laid(more, open));
  }

  lemma {:induction false} ItemsLaid(items: Items, open: seq<bool>, more: seq<Mark>)
    requires items.Item? && PrintableItems(items) && open != [] && !open[0] && more != [] && more[0] == Close(false)
    ensures PrintItems(items, |open| - 1, true) + Behind(more, open) == Laid(ItemMarks(items, more), open)
    decreases items, 0
  {
    hide Laid, Behind, Print, PrintItems;
    var tail := ItemMarks(items.next, more);
    var next := if items.next.NoItems? then more else [Comma] + tail;
    PrintLaid(items.head, open, next);
    ItemsParts(items, |open| - 1, true, Behind(more, open));
    if items.next.NoItems? {
      EmptyItems(|open| - 1);
      NoText(Behind(more, open));
    } else {
      MarksStart(items.next.head, if items.next.next.NoItems? then more else [Comma] + ItemMarks(items.next.next, more));
      ItemsLaid(items.next, open, more);
      BehindItem(next, open);
      LaidFirst(Comma, tail, open);
      assert [COMMA, SPACE] + Laid(tail, open) == [COMMA] + ([SPACE] + Laid(tail, open));
      assert ItemEnd(items.next, true) == [COMMA, SPACE];
    }
  }

  lemma {:induction false} ObjectLaid(members: Members, open: seq<bool>, more: seq<Mark>)
    requires PrintableMembers(members)
    ensures Print(Obj(members), |open|, true) + Behind(more, open) == Laid(Marks(Obj(members), more), open)
    decreases members, 1
  {
    hide Laid, Behind, PrintMembers;
    var inner, close := [true] + open, [Close(true)] + more;
    LaidFirst(Open(true), MemberMarks(members, close), open);
    CloseLaid(true, more, open);
    if members.NoMembers? {
      assert [LBRACE] + ([LF] + Tabs(|open| - 1)) + [RBRACE] + Behind(more, open)
          == [LBRACE] + (NewLine(|open| - 1) + ([RBRACE] + Behind(more, open)));
    } else {
      var m := PrintMembers(members, |inner|, true);
      MembersLaid(members, inner, close);
      ObjectParts(members, |open|, true, Behind(more, open));
      assert [LF] + (m + (Tabs(|open|) + ([RBRACE] + Behind(more, open))))
          == [LF] + (Tabs(|inner|) + Laid(MemberMarks(members, close), inner));
      assert [LF] + (Tabs(|inner|) + Laid(MemberMarks(members, close), inner))
          == NewLine(|inner|) + Laid(MemberMarks(members, close), inner);
    }
  }

  /** Members, from the indentation of the first to that of the closing brace. */
  lemma {:induction false} MembersLaid(members: Members, open: seq<bool>, more: seq<Mark>)
    requires members.Member? && PrintableMembers(members) && open != [] && open[0] && more != [] && more[0] == Close(true)
    ensures PrintMembers(members, |open|, true) + (Tabs(|open| - 1) + Laid(more, open))
         == Tabs(|open|) + Laid(MemberMarks(members, more), open)
    decreases members, 0
  {
    hide Laid, Behind, Print, PrintMembers;
    var tail, rest := MemberMarks(members.next, more), Tabs(|open| - 1) + Laid(more, open);
    var next := if members.next.NoMembers? then more else [Comma] + tail;
    var value := Marks(members.value, next);
    MembersParts(members, |open|, true, rest);
    PrintLaid(members.value, open, next);
    if members.next.NoMembers? {
      LastBehind(open, more);
      NoMore(|open|, rest);
    } else {
      NextBehind(members.next, open, tail);
      MembersLaid(members.next, open, more);
    }
    NameLaid(members.name, value, open);
    MarksStart(members.value, next);
  }

  lemma NoMore(depth: nat, rest: Text)
    ensures PrintMembers(NoMembers, depth, true) + rest == rest
  {
  }

  /** From the value of the last member to the closing brace. */
  lemma LastBehind(open: seq<bool>, more: seq<Mark>)
    requires more != [] && more[0] == Close(true)
    ensures Behind(more, open) == MemberEnd(NoMembers, true) + (Tabs(|open| - 1) + Laid(more, open))
  {
    hide Laid, Tabs, MemberEnd;
    EndsPrinted();
    Gathered([LF], Tabs(|open| - 1), Laid(more, open));
  }

  lemma EndsPrinted()
    ensures MemberEnd(NoMembers, true) == [LF] && forall next: Members :: next.Member? ==> MemberEnd(next, true) == [COMMA] + [LF]
  {
  }

  /** From the value of a member to the name of the next. */
  lemma NextBehind(next: Members, open: seq<bool>, tail: seq<Mark>)
    requires next.Member? && open != [] && open[0] && tail != [] && tail[0].Atom?
    ensures Behind([Comma] + tail, open) == MemberEnd(next, true) + (Tabs(|open|) + Laid(tail, open))
  {
    hide Laid, Tabs, MemberEnd;
    EndsPrinted();
    LaidFirst(Comma, tail, open);
    NoText(Laid([Comma] + tail, open));
    Gathered([LF], Tabs(|open|), Laid(tail, open));
    Gathered([COMMA], [LF], Tabs(|open|) + Laid(tail, open));
  }

  lemma NameLaid(name: Text, value: seq<Mark>, open: seq<bool>)
    requires value != [] && (value[0].Open? || value[0].Atom?)
    ensures MemberName(name, |open|, true) + Laid(value, open)
         == Tabs(|open|) + Laid([Atom(Quoted(name)), Colon] + value, open)
  {
    hide Laid, Tabs, Quoted, MemberName;
    ColonLaid(name, value, open);
    NameParts(name, |open|, true, Laid(value, open));
  }

  lemma ColonLaid(name: Text, value: seq<Mark>, open: seq<bool>)
    requires value != [] && (value[0].Open? || value[0].Atom?)
    ensures Laid([Atom(Quoted(name)), Colon] + value, open) == Quoted(name) + ([COLON] + ([TAB] + Laid(value, open)))
  {
    hide Laid, Quoted;
    var tail := [Colon] + value;
    assert [Atom(Quoted(name)), Colon] + value == [Atom(Quoted(name))] + tail;
    LaidFirst(Atom(Quoted(name)), tail, open);
    LaidFirst(Colon, value, open);
    NoText(Laid(tail, open));
  }

  /** cJSON_Print lays out the tokens of the tree line by line; cJSON_PrintUnformatted puts nothing between them. */
  lemma PrintedLayout(t: Json)
    requires Printable(t)
    ensures Print(t, 0, true) == Laid(Marks(t, []), []) && Print(t, 0, false) == Joined(Marks(t, []))
  {
    PrintLaid(t, [], []);
    PrintJoined(t, 0, []);
    assert Print(t, 0, true) + [] == Print(t, 0, true);
    assert Print(t, 0, false) + [] == Print(t, 0, false);
  }
}
