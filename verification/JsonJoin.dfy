/** cJSON_Print and cJSON_PrintUnformatted: every part is printed into memory of its own, then joined. */
module JsonJoin {
  import opened Prelude
  import opened JsonText
  import opened JsonStrings
  import opened JsonBuffer

  /** out holds the C string s. */
  ghost predicate Holds(out: array<byte>, s: Text)
    reads out
  {
    |s| < out.Length && out[..|s|] == s && out[|s|] == 0
  }

  /** strlen */
  method StrLen(out: array<byte>, ghost s: Text) returns (n: nat)
    requires Holds(out, s) && NulFree(s)
    ensures n == |s|
  {
    n := 0;
    assert forall k :: 0 <= k < |s| ==> out[k] == s[k];
    while out[n] != 0
      invariant n <= |s|
      decreases |s| - n
    {
      n := n + 1;
    }
  }

  /** A literal in memory of the given size. */
  method Literal(s: Text, size: nat) returns (out: array<byte>)
    requires |s| < size
    ensures fresh(out) && Holds(out, s)
  {
    out := new byte[size];
    PatchEdge(out[..], 0, s + [0]);
    Put(out, 0, s + [0]);
    assert out[..|s|] == out[..][0..|s| + 1][..|s|];
    assert out[|s|] == out[..][0..|s| + 1][|s|];
  }

  /** print_value without a print buffer. */
  method JoinValue(t: Json, depth: nat, fmt: bool) returns (out: array<byte>)
    requires Printable(t)
    ensures fresh(out) && Holds(out, Print(t, depth, fmt))
    decreases t, 0
  {
    match t
    case Null => out := Literal(NULL_TEXT, 5);
    case False => out := Literal(FALSE_TEXT, 6);
    case True => out := Literal(TRUE_TEXT, 5);
    case Num(v) =>
      DecimalLength(v.Floor);
      out := Literal(Decimal(v.Floor), if v.Floor == 0 then 2 else 21);
    case Str(s) =>
      out := PrintString(s);
      assert out[..|Quoted(s)|] == out[..][..|Quoted(s)|];
      assert out[|Quoted(s)|] == out[..][|Quoted(s)|];
    case Arr(items) => out := JoinArray(items, depth, fmt);
    case Obj(members) => out := JoinObject(members, depth, fmt);
  }

  /** print_value and strlen. */
  method ValueText(t: Json, depth: nat, fmt: bool) returns (s: Text)
    requires Printable(t)
    ensures s == Print(t, depth, fmt)
    decreases t, 1
  {
    var ret := JoinValue(t, depth, fmt);
    PrintNulFree(t, depth, fmt);
    var n := StrLen(ret, Print(t, depth, fmt));
    s := ret[..n];
  }

  // ----- arrays

  /** The texts of the items. */
  function Entries(items: Items, depth: nat, fmt: bool): seq<Text>
    requires PrintableItems(items)
  {
    if items.NoItems? then [] else [Print(items.head, depth, fmt)] + Entries(items.next, depth, fmt)
  }

  /** The space that print_array reckons for the items. */
  function ItemSpace(items: Items, depth: nat, fmt: bool): nat
    requires PrintableItems(items)
  {
    if items.NoItems? then 0
    else |Print(items.head, depth, fmt)| + 2 + (if fmt then 1 else 0) + ItemSpace(items.next, depth, fmt)
  }

  lemma {:induction false} ItemsFit(items: Items, depth: nat, fmt: bool)
    requires PrintableItems(items)
    ensures |PrintItems(items, depth, fmt)| <= ItemSpace(items, depth + 1, fmt)
  {
    if items.Item? {
      ItemsFit(items.next, depth, fmt);
    }
  }

  lemma NextEntry(done: seq<Text>, items: Items, depth: nat, fmt: bool)
    requires items.Item? && PrintableItems(items)
    ensures done + Entries(items, depth, fmt) == done + [Print(items.head, depth, fmt)] + Entries(items.next, depth, fmt)
  {
  }

  /** The first loop of print_array: all texts, and the space for them. */
  method ItemTexts(items: Items, depth: nat, fmt: bool) returns (entries: seq<Text>, len: nat)
    requires PrintableItems(items)
    ensures entries == Entries(items, depth, fmt) && len == 5 + ItemSpace(items, depth, fmt)
    decreases items, 0
  {
    entries, len := [], 5;
    var child := items;
    while child.Item?
      invariant PrintableItems(child) && (child == items || child < items)
      invariant entries + Entries(child, depth, fmt) == Entries(items, depth, fmt)
      invariant len + ItemSpace(child, depth, fmt) == 5 + ItemSpace(items, depth, fmt)
      decreases child
    {
      var ret := ValueText(child.head, depth, fmt);
      NextEntry(entries, child, depth, fmt);
      entries := entries + [ret];
      len := len + |ret| + 2 + if fmt then 1 else 0;
      child := child.next;
    }
  }

  /** memcpy and the stores behind it, at the end of what is there already. */
  method Extend(out: array<byte>, ptr: nat, s: Text) returns (end: nat)
    requires ptr + |s| <= out.Length
    modifies out
    ensures end == ptr + |s| && out[..end] == old(out[..ptr]) + s
  {
    ghost var a := out[..];
    PatchEdge(a, ptr, s);
    Put(out, ptr, s);
    end := ptr + |s|;
    assert out[..end] == out[..][..ptr] + out[..][ptr..end];
  }

  /** The second loop of print_array. */
  method JoinItems(out: array<byte>, start: nat, entries: seq<Text>, ghost items: Items, ghost depth: nat, fmt: bool)
    returns (ptr: nat)
    requires PrintableItems(items) && entries == Entries(items, depth + 1, fmt)
    requires start + |PrintItems(items, depth, fmt)| < out.Length
    modifies out
    ensures ptr == start + |PrintItems(items, depth, fmt)|
    ensures out[..ptr] == old(out[..start]) + PrintItems(items, depth, fmt)
  {
    ptr := start;
    ghost var child, text := items, old(out[..start]) + PrintItems(items, depth, fmt);
    for i := 0 to |entries|
      invariant PrintableItems(child) && ptr <= |text| && entries[i..] == Entries(child, depth + 1, fmt)
      invariant out[..ptr] + PrintItems(child, depth, fmt) == text
    {
      ghost var before := out[..ptr];
      assert entries[i] == entries[i..][0] && entries[i + 1..] == entries[i..][1..];
      LastEntry(child, depth + 1, fmt);
      var end := Extend(out, ptr, entries[i]);
      if i != |entries| - 1 {
        end := Extend(out, end, [COMMA] + if fmt then [SPACE] else []);
      }
      ItemText(before, out[..end], child, depth, fmt);
      ptr, child := end, child.next;
    }
  }

  /** The closing text and the terminator. */
  method Close(out: array<byte>, ptr: nat, close: Text, ghost done: Text)
    requires ptr + |close| < out.Length && out[..ptr] == done
    modifies out
    ensures Holds(out, done + close)
  {
    var end := Extend(out, ptr, close);
    ghost var text := out[..end];
    out[end] := 0;
    assert out[..end] == text;
  }

  lemma LastEntry(items: Items, depth: nat, fmt: bool)
    requires items.Item? && PrintableItems(items)
    ensures items.next.NoItems? <==> |Entries(items, depth, fmt)| == 1
  {
  }

  /** print_array */
  method JoinArray(items: Items, depth: nat, fmt: bool) returns (out: array<byte>)
    requires PrintableItems(items)
    ensures fresh(out) && Holds(out, Print(Arr(items), depth, fmt))
    decreases items, 1
  {
    if items.NoItems? {
      out := Literal([LBRACKET, RBRACKET], 3);
      return;
    }
    var entries, len := ItemTexts(items, depth + 1, fmt);
    ItemsFit(items, depth, fmt);
    out := new byte[len];
    var ptr := Extend(out, 0, [LBRACKET]);
    ptr := JoinItems(out, ptr, entries, items, depth, fmt);
    Close(out, ptr, [RBRACKET], [LBRACKET] + PrintItems(items, depth, fmt));
  }

  // ----- objects

  /** The names in quotes and the texts of the values. */
  function Parts(members: Members, depth: nat, fmt: bool): seq<(Text, Text)>
    requires PrintableMembers(members)
  {
    if members.NoMembers? then []
    else [(Quoted(members.name), Print(members.value, depth, fmt))] + Parts(members.next, depth, fmt)
  }

  /** The space that print_object reckons for the members. */
  function MemberSpace(members: Members, depth: nat, fmt: bool): nat
    requires PrintableMembers(members)
  {
    if members.NoMembers? then 0
    else |Quoted(members.name)| + |Print(members.value, depth, fmt)| + 2 + (if fmt then 2 + depth else 0)
         + MemberSpace(members.next, depth, fmt)
  }

  lemma {:induction false} MembersFit(members: Members, depth: nat, fmt: bool)
    requires PrintableMembers(members)
    ensures |PrintMembers(members, depth, fmt)| <= MemberSpace(members, depth, fmt)
  {
    if members.Member? {
      MembersFit(members.next, depth, fmt);
    }
  }

  lemma NextPart(done: seq<(Text, Text)>, members: Members, depth: nat, fmt: bool)
    requires members.Member? && PrintableMembers(members)
    ensures done + Parts(members, depth, fmt)
         == done + [(Quoted(members.name), Print(members.value, depth, fmt))] + Parts(members.next, depth, fmt)
  {
  }

  /** The first loop of print_object. */
  method MemberTexts(members: Members, depth: nat, fmt: bool) returns (parts: seq<(Text, Text)>, len: nat)
    requires PrintableMembers(members)
    ensures parts == Parts(members, depth, fmt)
    ensures len == 7 + (if fmt then depth else 0) + MemberSpace(members, depth, fmt)
    decreases members, 0
  {
    parts, len := [], 7 + if fmt then depth else 0;
    var child := members;
    while child.Member?
      invariant PrintableMembers(child) && (child == members || child < members)
      invariant parts + Parts(child, depth, fmt) == Parts(members, depth, fmt)
      invariant len + MemberSpace(child, depth, fmt)
             == 7 + (if fmt then depth else 0) + MemberSpace(members, depth, fmt)
      decreases child
    {
      var name := NameText(child.name);
      var ret := ValueText(child.value, depth, fmt);
      var part := (name, ret);
      NextPart(parts, child, depth, fmt);
      parts := parts + [part];
      len := len + |ret| + |name| + 2 + if fmt then 2 + depth else 0;
      child := child.next;
    }
  }

  method NameText(name: Text) returns (s: Text)
    requires NulFree(name)
    ensures s == Quoted(name)
  {
    var str := PrintString(name);
    EscapeNulFree(name);
    assert str[..|Quoted(name)|] == str[..][..|Quoted(name)|];
    assert str[|Quoted(name)|] == str[..][|Quoted(name)|];
    var n := StrLen(str, Quoted(name));
    s := str[..n];
  }

  /** One turn of the second loop of print_object. */
  method JoinMember(out: array<byte>, start: nat, part: (Text, Text), last: bool, ghost child: Members, depth: nat, fmt: bool)
    returns (ptr: nat)
    requires child.Member? && PrintableMembers(child) && last == child.next.NoMembers?
    requires part == (Quoted(child.name), Print(child.value, depth, fmt))
    requires start + |PrintMembers(child, depth, fmt)| < out.Length
    modifies out
    ensures start <= ptr <= start + |PrintMembers(child, depth, fmt)|
    ensures out[..ptr] + PrintMembers(child.next, depth, fmt) == old(out[..start]) + PrintMembers(child, depth, fmt)
  {
    hide PrintableMembers, Print, Quoted, Tabs;
    ghost var before := out[..start];
    ptr := start;
    if fmt {
      ptr := Extend(out, ptr, Tabs(depth));
    }
    ptr := Extend(out, ptr, part.0);
    ptr := Extend(out, ptr, [COLON] + if fmt then [TAB] else []);
    JsonBuffer.NameText(before, child.name, depth, fmt);
    assert out[..ptr] == before + MemberName(child.name, depth, fmt);
    ptr := Extend(out, ptr, part.1);
    ptr := Extend(out, ptr, (if !last then [COMMA] else []) + if fmt then [LF] else []);
    MemberText(before, child, depth, fmt);
  }

  /** The second loop of print_object. */
  method JoinMembers(out: array<byte>, start: nat, parts: seq<(Text, Text)>, ghost members: Members, depth: nat, fmt: bool)
    returns (ptr: nat)
    requires PrintableMembers(members) && parts == Parts(members, depth, fmt)
    requires start + |PrintMembers(members, depth, fmt)| < out.Length
    modifies out
    ensures ptr == start + |PrintMembers(members, depth, fmt)|
    ensures out[..ptr] == old(out[..start]) + PrintMembers(members, depth, fmt)
  {
    hide PrintMembers, Parts, PrintableMembers;
    ptr := start;
    ghost var child, text := members, old(out[..start]) + PrintMembers(members, depth, fmt);
    for i := 0 to |parts|
      invariant PrintableMembers(child) && ptr <= |text| && parts[i..] == Parts(child, depth, fmt)
      invariant out[..ptr] + PrintMembers(child, depth, fmt) == text
    {
      FirstPart(child, depth, fmt);
      assert parts[i] == parts[i..][0] && parts[i + 1..] == parts[i..][1..];
      ptr := JoinMember(out, ptr, parts[i], i == |parts| - 1, child, depth, fmt);
      child := child.next;
    }
    NoPart(child, depth, fmt);
    assert out[..ptr] + [] == out[..ptr];
  }

  lemma FirstPart(members: Members, depth: nat, fmt: bool)
    requires PrintableMembers(members) && Parts(members, depth, fmt) != []
    ensures members.Member? && PrintableMembers(members.next)
    ensures var parts := Parts(members, depth, fmt);
            && parts[0] == (Quoted(members.name), Print(members.value, depth, fmt))
            && parts[1..] == Parts(members.next, depth, fmt)
            && (members.next.NoMembers? <==> |parts| == 1)
  {
  }

  lemma NoPart(members: Members, depth: nat, fmt: bool)
    requires PrintableMembers(members) && Parts(members, depth, fmt) == []
    ensures PrintMembers(members, depth, fmt) == []
  {
  }

  /** print_object */
  method JoinObject(members: Members, depth: nat, fmt: bool) returns (out: array<byte>)
    requires PrintableMembers(members)
    ensures fresh(out) && Holds(out, Print(Obj(members), depth, fmt))
    decreases members, 1
  {
    hide Print, PrintMembers, Tabs;
    if members.NoMembers? {
      EmptyObject(depth, fmt);
      out := Literal([LBRACE] + IfFmt(fmt, [LF] + Tabs(depth - 1)) + [RBRACE], if fmt then depth + 4 else 3);
      return;
    }
    var parts, len := MemberTexts(members, depth + 1, fmt);
    MembersFit(members, depth + 1, fmt);
    out := new byte[len];
    var ptr := Extend(out, 0, [LBRACE] + IfFmt(fmt, [LF]));
    ptr := JoinMembers(out, ptr, parts, members, depth + 1, fmt);
    ObjectText(members, depth, fmt);
    Close(out, ptr, (if fmt then Tabs(depth) else []) + [RBRACE],
          [LBRACE] + IfFmt(fmt, [LF]) + PrintMembers(members, depth + 1, fmt));
  }
}
