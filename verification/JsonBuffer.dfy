/** cJSON_PrintBuffered: the printer that appends to one growing buffer. */
module JsonBuffer {
  import opened Prelude
  import opened JsonText
  import opened JsonStrings

  // ----- pow2gt

  /** Bitwise or. */
  function Or(a: nat, b: nat): (r: nat)
    decreases a + b
  {
    if a == 0 then b else if b == 0 then a
    else 2 * Or(a / 2, b / 2) + if a % 2 == 1 || b % 2 == 1 then 1 else 0
  }

  function Pow2(n: nat): (r: nat)
    ensures r > 0
  {
    if n == 0 then 1 else 2 * Pow2(n - 1)
  }

  /** x >> n */
  function Shift(x: nat, n: nat): nat {
    if n == 0 then x else Shift(x / 2, n - 1)
  }

  /** x | x >> w */
  function Spread(x: nat, w: nat): nat {
    Or(x, Shift(x, w))
  }

  /** The bit trick of pow2gt. */
  function Smear(x: nat): nat
    requires x > 0
  {
    Spread(Spread(Spread(Spread(Spread(x - 1, 1), 2), 4), 8), 16) + 1
  }

  ghost predicate IsPower(n: nat)
    decreases n
  {
    n == 1 || (n > 0 && n % 2 == 0 && IsPower(n / 2))
  }

  /** The least power of two that is not below x, on unbounded integers; p is a lower candidate. */
  function PowerFrom(x: nat, p: nat): (r: nat)
    requires 0 < p < 2 * x && IsPower(p)
    ensures x <= r < 2 * x && IsPower(r)
    decreases 2 * x - p
  {
    if x <= p then p else assert IsPower(2 * p); PowerFrom(x, 2 * p)
  }

  lemma {:induction false} OneCandidate(p: nat, q: nat)
    requires IsPower(p) && IsPower(q) && p < q
    ensures 2 * p <= q
    decreases q
  {
    if p > 1 {
      OneCandidate(p / 2, q / 2);
    }
  }

  lemma {:induction false} Pow2IsPower(n: nat)
    ensures IsPower(Pow2(n))
  {
    if n > 0 {
      Pow2IsPower(n - 1);
    }
  }

  /** n bits, all set. */
  function Ones(n: nat): (r: nat)
    ensures r + 1 == Pow2(n)
  {
    if n == 0 then 0 else 2 * Ones(n - 1) + 1
  }

  lemma {:induction false} ShiftTwice(x: nat, m: nat, n: nat)
    ensures Shift(x, m + n) == Shift(Shift(x, m), n)
  {
    if m > 0 {
      ShiftTwice(x / 2, m - 1, n);
    }
  }

  lemma {:induction false} ShiftOnes(m: nat, n: nat)
    ensures Shift(Ones(m), n) == if n <= m then Ones(m - n) else 0
  {
    if n > 0 {
      if m > 0 {
        assert Ones(m) / 2 == Ones(m - 1);
        ShiftOnes(m - 1, n - 1);
      } else {
        ShiftOnes(0, n - 1);
      }
    }
  }

  lemma {:induction false} OrShift(a: nat, b: nat, n: nat)
    ensures Shift(Or(a, b), n) == Or(Shift(a, n), Shift(b, n))
  {
    if n > 0 {
      assert Or(a, b) / 2 == Or(a / 2, b / 2);
      OrShift(a / 2, b / 2, n - 1);
    }
  }

  /** Ones above the last w bits, and or with ones below. */
  lemma {:induction false} OrOnes(a: nat, w: nat, n: nat)
    requires Shift(a, w) == Ones(n)
    ensures Or(a, Ones(w)) == Ones(n + w)
  {
    if w > 0 {
      OrOnes(a / 2, w - 1, n);
      assert Ones(w) % 2 == 1 && Ones(w) / 2 == Ones(w - 1);
    }
  }

  /** Of the bits up to the top one, m, the first w are set; all of them if there are no more. */
  ghost predicate Filled(x: nat, m: nat, w: nat) {
    Shift(x, if w <= m + 1 then m + 1 - w else 0) == Ones(if w <= m + 1 then w else m + 1)
  }

  lemma SpreadFew(x: nat, w: nat, n: nat)
    requires w <= n && Shift(x, n) == Ones(w)
    ensures Shift(Spread(x, w), n - w) == Ones(2 * w)
  {
    hide Or, Shift, Ones;
    OrShift(x, Shift(x, w), n - w);
    ShiftTwice(x, w, n - w);
    ShiftTwice(x, n - w, w);
    OrOnes(Shift(x, n - w), w, w);
  }

  lemma SpreadRest(x: nat, w: nat, n: nat)
    requires n < w && Shift(x, n) == Ones(w)
    ensures Spread(x, w) == Ones(n + w)
  {
    hide Or, Shift, Ones;
    ShiftTwice(x, n, w - n);
    ShiftOnes(w, w - n);
    OrOnes(x, n, w);
  }

  lemma SpreadNone(w: nat, n: nat)
    requires n < w
    ensures Spread(Ones(n), w) == Ones(n)
  {
    hide Shift, Ones;
    ShiftOnes(n, w);
  }

  /** Each step of the trick doubles the number of bits that are set. */
  lemma SpreadFills(x: nat, m: nat, w: nat)
    requires Filled(x, m, w)
    ensures Filled(Spread(x, w), m, 2 * w)
  {
    hide Spread, Ones;
    if w > m + 1 {
      SpreadNone(w, m + 1);
    } else if 2 * w <= m + 1 {
      SpreadFew(x, w, m + 1 - w);
    } else {
      SpreadRest(x, w, m + 1 - w);
    }
  }

  lemma {:induction false} TopBit(x: nat, k: nat) returns (m: nat)
    requires 0 < x < Pow2(k)
    ensures m < k && Shift(x, m) == 1 && Pow2(m) <= x < Pow2(m + 1)
  {
    if x == 1 {
      m := 0;
    } else {
      var h := TopBit(x / 2, k - 1);
      m := h + 1;
    }
  }

  /** On 32 bits, from one up to 2^30, pow2gt yields the least power of two that is not below its argument. */
  lemma SmearIsPower(x: nat)
    requires 0 < x <= 0x4000_0000
    ensures Smear(x) == PowerFrom(x, 1)
  {
    if x > 1 {
      Pow2Of30();
      hide Pow2, Spread, Filled;
      var m := TopBit(x - 1, 30);
      var a := Spread(x - 1, 1);
      var b := Spread(a, 2);
      var c := Spread(b, 4);
      var d := Spread(c, 8);
      SpreadFills(x - 1, m, 1);
      SpreadFills(a, m, 2);
      SpreadFills(b, m, 4);
      SpreadFills(c, m, 8);
      SpreadFills(d, m, 16);
      AllFilled(Spread(d, 16), m, 32);
      SamePower(x, m);
    }
  }

  lemma AllFilled(x: nat, m: nat, w: nat)
    requires Filled(x, m, w) && m < w
    ensures x + 1 == Pow2(m + 1)
  {
  }

  lemma TenBits(n: nat)
    ensures Pow2(n + 10) == 0x400 * Pow2(n)
  {
    assert Pow2(n + 2) == 4 * Pow2(n) && Pow2(n + 4) == 4 * Pow2(n + 2) && Pow2(n + 6) == 4 * Pow2(n + 4);
    assert Pow2(n + 8) == 4 * Pow2(n + 6);
  }

  lemma Pow2Of30()
    ensures Pow2(30) == 0x4000_0000
  {
    TenBits(0);
    TenBits(10);
    TenBits(20);
  }

  /** pow2gt; where the code would compute beyond the range of int, the next power of two. */
  function NewSize(total: nat): (r: nat)
    requires total > 0
    ensures r == PowerFrom(total, 1)
  {
    if total <= 0x4000_0000 then SmearIsPower(total); Smear(total) else PowerFrom(total, 1)
  }

  lemma SamePower(x: nat, m: nat)
    requires Pow2(m) <= x - 1 < Pow2(m + 1)
    ensures PowerFrom(x, 1) == Pow2(m + 1)
  {
    Pow2IsPower(m + 1);
    var p, q := PowerFrom(x, 1), Pow2(m + 1);
    if p < q {
      OneCandidate(p, q);
    } else if q < p {
      OneCandidate(q, p);
    }
  }

  // ----- the buffer

  /** b0 became b: still the same up to o, and from there s and a terminator. */
  ghost predicate Wrote(b0: Text, b: Text, o: nat, s: Text) {
    && o <= |b0| && o + |s| < |b|
    && b[..o] == b0[..o] && b[o..o + |s|] == s && b[o + |s|] == 0
  }

  lemma PatchWrote(b0: Text, b1: Text, o: nat, s: Text)
    requires o <= |b0| <= |b1| && b1[..|b0|] == b0 && o + |s| < |b1|
    ensures Wrote(b0, Patch(b1, o, s + [0]), o, s)
  {
    var b := Patch(b1, o, s + [0]);
    PatchEdge(b1, o, s + [0]);
    assert b[o..o + |s|] == b[o..o + |s| + 1][..|s|];
    assert b[o + |s|] == b[o..o + |s| + 1][|s|];
    assert b1[..o] == b1[..|b0|][..o];
  }

  class PrintBuffer {
    var buffer: array<byte>
    var offset: nat

    constructor (prebuffer: nat)
      ensures fresh(buffer) && buffer.Length == prebuffer && offset == 0
    {
      buffer := new byte[prebuffer];
      offset := 0;
    }

    /** What has been printed so far. */
    ghost function Printed(): Text
      requires offset <= buffer.Length
      reads this, buffer
    {
      buffer[..offset]
    }

    /** ensure, when allocation succeeds: room for needed more bytes, and nothing lost. */
    method Ensure(needed: nat)
      requires offset <= buffer.Length && needed > 0
      modifies this`buffer
      ensures buffer == old(buffer) || fresh(buffer)
      ensures offset + needed <= buffer.Length
      ensures old(buffer.Length) <= buffer.Length && buffer[..old(buffer.Length)] == old(buffer[..])
      ensures buffer == old(buffer) <==> offset + needed <= old(buffer.Length)
      ensures buffer != old(buffer) ==> buffer.Length == PowerFrom(offset + needed, 1) < 2 * (offset + needed)
    {
      var total := needed + offset;
      if total <= buffer.Length {
        return;
      }
      var newbuffer := new byte[NewSize(total)];
      for k := 0 to buffer.Length
        modifies newbuffer
        invariant newbuffer[..k] == buffer[..k]
      {
        newbuffer[k] := buffer[k];
      }
      assert newbuffer[..buffer.Length] == buffer[..];
      buffer := newbuffer;
    }

    /** update: strlen from offset on, which stops at end. */
    method Update(ghost end: nat) returns (r: nat)
      requires offset <= end < buffer.Length && buffer[end] == 0 && forall k :: offset <= k < end ==> buffer[k] != 0
      ensures r == end
    {
      r := offset;
      while buffer[r] != 0
        invariant offset <= r <= end
        decreases end - r
      {
        r := r + 1;
      }
    }

    /** ensure, stores through the pointer that it returned, and a larger offset; with nul, a terminator is stored too. */
    method Append(s: Text, nul: bool)
      requires offset <= buffer.Length && (|s| > 0 || nul)
      modifies this, buffer
      ensures buffer == old(buffer) || fresh(buffer)
      ensures offset <= buffer.Length && Printed() == old(Printed()) + s
    {
      ghost var b0 := buffer[..];
      Ensure(if nul then |s| + 1 else |s|);
      ghost var b1 := buffer[..];
      assert b1[..offset] == b1[..|b0|][..offset];
      PatchEdge(b1, offset, s);
      Put(buffer, offset, s);
      offset := offset + |s|;
      ghost var b2 := buffer[..];
      assert b2[..offset] == b2[..old(offset)] + b2[old(offset)..offset];
      if nul {
        PatchEdge(b2, offset, [0]);
        Put(buffer, offset, [0]);
      }
    }

    /** ensure and strcpy; the offset stays. */
    method Store(s: Text, needed: nat)
      requires offset <= buffer.Length && |s| < needed
      modifies this`buffer, buffer
      ensures buffer == old(buffer) || fresh(buffer)
      ensures Wrote(old(buffer[..]), buffer[..], offset, s)
    {
      ghost var b0 := buffer[..];
      Ensure(needed);
      PatchWrote(b0, buffer[..], offset, s);
      Put(buffer, offset, s + [0]);
    }

    /** print_number for an int. */
    method PrintNumber(n: int)
      requires offset <= buffer.Length && INT_MIN <= n <= INT_MAX
      modifies this`buffer, buffer
      ensures buffer == old(buffer) || fresh(buffer)
      ensures Wrote(old(buffer[..]), buffer[..], offset, Decimal(n))
    {
      DecimalLength(n);
      Store(Decimal(n), if n == 0 then 2 else 21);
    }

    /** print_string_ptr into the buffer. */
    method PrintString(str: Text)
      requires offset <= buffer.Length && NulFree(str)
      modifies this`buffer, buffer
      ensures buffer == old(buffer) || fresh(buffer)
      ensures Wrote(old(buffer[..]), buffer[..], offset, Quoted(str))
    {
      ghost var b0 := buffer[..];
      var flag, needed := StringSpace(str);
      Ensure(needed);
      PatchWrote(b0, buffer[..], offset, Quoted(str));
      WriteString(buffer, offset, str, flag);
    }

    /** A child was printed at the offset; update moves the offset behind it. */
    method Advance(ghost b0: Text, ghost o: nat, ghost s: Text)
      requires Wrote(b0, buffer[..], o, s) && o <= offset <= o + |s| && NulFree(s)
      modifies this`offset
      ensures offset < buffer.Length && Printed() == b0[..o] + s
    {
      ghost var b := buffer[..];
      assert forall k :: o <= k < o + |s| ==> buffer[k] == b[o..o + |s|][k - o];
      offset := Update(o + |s|);
      assert b[..o + |s|] == b[..o] + b[o..o + |s|];
    }

    /** print_value with a print buffer: the text of the tree and a terminator, from the offset at entry on. */
    method PrintValue(t: Json, depth: nat, fmt: bool)
      requires offset <= buffer.Length && Printable(t)
      modifies this, buffer
      ensures buffer == old(buffer) || fresh(buffer)
      ensures Wrote(old(buffer[..]), buffer[..], old(offset), Print(t, depth, fmt))
      ensures old(offset) <= offset <= old(offset) + |Print(t, depth, fmt)|
      decreases t, 0
    {
      match t
      case Null => Store(NULL_TEXT, 5);
      case False => Store(FALSE_TEXT, 6);
      case True => Store(TRUE_TEXT, 5);
      case Num(v) => PrintNumber(v.Floor);
      case Str(s) => PrintString(s);
      case Arr(items) => PrintArray(items, depth, fmt);
      case Obj(members) => PrintObject(members, depth, fmt);
    }

    /** print_value, then update. */
    method PrintChild(t: Json, depth: nat, fmt: bool)
      requires offset <= buffer.Length && Printable(t)
      modifies this, buffer
      ensures buffer == old(buffer) || fresh(buffer)
      ensures offset <= buffer.Length && Printed() == old(Printed()) + Print(t, depth, fmt)
      decreases t, 1
    {
      ghost var b0, o := buffer[..], offset;
      PrintNulFree(t, depth, fmt);
      PrintValue(t, depth, fmt);
      Advance(b0, o, Print(t, depth, fmt));
    }

    /** The closing text behind what was printed. */
    method Finish(ghost b0: Text, ghost o: nat, ghost done: Text, close: Text, needed: nat)
      requires offset <= buffer.Length && |close| < needed
      requires o <= |b0| && Printed() == b0[..o] + done
      modifies this`buffer, buffer
      ensures buffer == old(buffer) || fresh(buffer)
      ensures Wrote(b0, buffer[..], o, done + close)
      ensures o <= offset <= o + |done + close|
    {
      ghost var b1 := buffer[..];
      Store(close, needed);
      Closed(b0, b1, buffer[..], o, done, close);
    }

    /** print_array */
    method PrintArray(items: Items, depth: nat, fmt: bool)
      requires offset <= buffer.Length && PrintableItems(items)
      modifies this, buffer
      ensures buffer == old(buffer) || fresh(buffer)
      ensures Wrote(old(buffer[..]), buffer[..], old(offset), Print(Arr(items), depth, fmt))
      ensures old(offset) <= offset <= old(offset) + |Print(Arr(items), depth, fmt)|
      decreases items, 1
    {
      hide PrintItems, PrintableItems, Wrote;
      if items.NoItems? {
        Store([LBRACKET, RBRACKET], 3);
        return;
      }
      ghost var b0, o := buffer[..], offset;
      Append([LBRACKET], false);
      PrintChildren(items, depth, fmt);
      Finish(b0, o, [LBRACKET] + PrintItems(items, depth, fmt), [RBRACKET], 2);
    }

    /** The loop of print_array. */
    method PrintChildren(items: Items, depth: nat, fmt: bool)
      requires offset <= buffer.Length && PrintableItems(items)
      modifies this, buffer
      ensures buffer == old(buffer) || fresh(buffer)
      ensures offset <= buffer.Length && Printed() == old(Printed()) + PrintItems(items, depth, fmt)
      decreases items, 0
    {
      var child := items;
      ghost var start := Printed();
      while child.Item?
        invariant offset <= buffer.Length && PrintableItems(child) && (child == items || child < items)
        invariant buffer == old(buffer) || fresh(buffer)
        invariant Printed() + PrintItems(child, depth, fmt) == start + PrintItems(items, depth, fmt)
        decreases child
      {
        ghost var before := Printed();
        PrintChild(child.head, depth + 1, fmt);
        if child.next.Item? {
          Append([COMMA] + if fmt then [SPACE] else [], true);
        }
        ItemText(before, Printed(), child, depth, fmt);
        child := child.next;
      }
    }

    /** print_object */
    method PrintObject(members: Members, depth: nat, fmt: bool)
      requires offset <= buffer.Length && PrintableMembers(members)
      modifies this, buffer
      ensures buffer == old(buffer) || fresh(buffer)
      ensures Wrote(old(buffer[..]), buffer[..], old(offset), Print(Obj(members), depth, fmt))
      ensures old(offset) <= offset <= old(offset) + |Print(Obj(members), depth, fmt)|
      decreases members, 1
    {
      hide Print, PrintMembers, Wrote, Tabs;
      if members.NoMembers? {
        EmptyObject(depth, fmt);
        Store([LBRACE] + IfFmt(fmt, [LF] + Tabs(depth - 1)) + [RBRACE], if fmt then depth + 4 else 3);
        return;
      }
      ghost var b0, o := buffer[..], offset;
      Append([LBRACE] + IfFmt(fmt, [LF]), true);
      PrintPairs(members, depth + 1, fmt);
      ObjectText(members, depth, fmt);
      Finish(b0, o, [LBRACE] + IfFmt(fmt, [LF]) + PrintMembers(members, depth + 1, fmt),
             (if fmt then Tabs(depth) else []) + [RBRACE], if fmt then depth + 2 else 2);
    }

    /** A name with its indentation, colon and tab. */
    method PrintName(name: Text, depth: nat, fmt: bool)
      requires offset <= buffer.Length && NulFree(name) && depth > 0
      modifies this, buffer
      ensures buffer == old(buffer) || fresh(buffer)
      ensures offset <= buffer.Length && Printed() == old(Printed()) + MemberName(name, depth, fmt)
    {
      ghost var start := Printed();
      if fmt {
        Append(Tabs(depth), false);
      }
      assert Printed() == start + IfFmt(fmt, Tabs(depth));
      ghost var b0, o := buffer[..], offset;
      EscapeNulFree(name);
      PrintString(name);
      Advance(b0, o, Quoted(name));
      Append([COLON] + if fmt then [TAB] else [], false);
      NameText(start, name, depth, fmt);
    }

    /** The loop of print_object. */
    method PrintPairs(members: Members, depth: nat, fmt: bool)
      requires offset <= buffer.Length && PrintableMembers(members) && depth > 0
      modifies this, buffer
      ensures buffer == old(buffer) || fresh(buffer)
      ensures offset <= buffer.Length && Printed() == old(Printed()) + PrintMembers(members, depth, fmt)
      decreases members, 0
    {
      var child := members;
      ghost var start := Printed();
      while child.Member?
        invariant offset <= buffer.Length && PrintableMembers(child) && (child == members || child < members)
        invariant buffer == old(buffer) || fresh(buffer)
        invariant Printed() + PrintMembers(child, depth, fmt) == start + PrintMembers(members, depth, fmt)
        decreases child
      {
        ghost var before := Printed();
        PrintName(child.name, depth, fmt);
        PrintChild(child.value, depth, fmt);
        Append((if child.next.Member? then [COMMA] else []) + if fmt then [LF] else [], true);
        MemberText(before, child, depth, fmt);
        child := child.next;
      }
    }
  }

  lemma EmptyObject(depth: nat, fmt: bool)
    ensures Print(Obj(NoMembers), depth, fmt) == [LBRACE] + IfFmt(fmt, [LF] + Tabs(depth - 1)) + [RBRACE]
  {
  }

  lemma ObjectText(members: Members, depth: nat, fmt: bool)
    requires members.Member? && PrintableMembers(members)
    ensures Print(Obj(members), depth, fmt)
         == [LBRACE] + IfFmt(fmt, [LF]) + PrintMembers(members, depth + 1, fmt)
            + ((if fmt then Tabs(depth) else []) + [RBRACE])
  {
    hide PrintMembers, PrintableMembers, Tabs;
    var front := [LBRACE] + IfFmt(fmt, [LF]) + PrintMembers(members, depth + 1, fmt);
    assert front + (IfFmt(fmt, Tabs(depth)) + [RBRACE]) == front + IfFmt(fmt, Tabs(depth)) + [RBRACE];
  }

  lemma NameText(start: Text, name: Text, depth: nat, fmt: bool)
    ensures start + IfFmt(fmt, Tabs(depth)) + Quoted(name) + ([COLON] + if fmt then [TAB] else [])
         == start + MemberName(name, depth, fmt)
  {
  }

  lemma MemberText(before: Text, child: Members, depth: nat, fmt: bool)
    requires child.Member? && PrintableMembers(child)
    ensures before + MemberName(child.name, depth, fmt) + Print(child.value, depth, fmt)
            + ((if child.next.Member? then [COMMA] else []) + if fmt then [LF] else [])
            + PrintMembers(child.next, depth, fmt)
         == before + PrintMembers(child, depth, fmt)
  {
    assert (if child.next.Member? then [COMMA] else []) + (if fmt then [LF] else []) == MemberEnd(child.next, fmt);
    Associate(before, MemberName(child.name, depth, fmt), Print(child.value, depth, fmt), MemberEnd(child.next, fmt),
              PrintMembers(child.next, depth, fmt));
  }

  lemma Associate(a: Text, b: Text, c: Text, d: Text, e: Text)
    ensures a + b + c + d + e == a + (b + c + d + e)
  {
  }

  /** cJSON_PrintBuffered, for any size of the first buffer: the text that it returns, in the final buffer. */
  method PrintBuffered(t: Json, prebuffer: nat, fmt: bool) returns (out: array<byte>)
    requires Printable(t)
    ensures fresh(out) && |Print(t, 0, fmt)| < out.Length
    ensures out[..|Print(t, 0, fmt)|] == Print(t, 0, fmt) && out[|Print(t, 0, fmt)|] == 0
  {
    var p := new PrintBuffer(prebuffer);
    p.PrintValue(t, 0, fmt);
    out := p.buffer;
    assert out[..][0..|Print(t, 0, fmt)|] == out[..|Print(t, 0, fmt)|];
  }

  lemma ItemText(before: Text, after: Text, child: Items, depth: nat, fmt: bool)
    requires child.Item? && PrintableItems(child)
    requires after == before + Print(child.head, depth + 1, fmt) + ItemEnd(child.next, fmt)
          || (child.next.NoItems? && after == before + Print(child.head, depth + 1, fmt))
    ensures after + PrintItems(child.next, depth, fmt) == before + PrintItems(child, depth, fmt)
  {
  }

  /** The end of an array or object: the closing text behind what was printed. */
  lemma Closed(b0: Text, b1: Text, b2: Text, o: nat, done: Text, close: Text)
    requires o <= |b0| && o + |done| <= |b1| && b1[..o + |done|] == b0[..o] + done && Wrote(b1, b2, o + |done|, close)
    ensures Wrote(b0, b2, o, done + close)
  {
    assert b2[..o + |done|] == b0[..o] + done;
    assert b2[..o] == b2[..o + |done|][..o];
    assert b2[o..o + |done| + |close|] == b2[..o + |done|][o..] + b2[o + |done|..o + |done| + |close|];
  }

  /** Ten digits suffice for an int. */
  lemma DecimalLength(n: int)
    requires INT_MIN <= n <= INT_MAX
    ensures |Decimal(n)| <= 11 && (n == 0 ==> |Decimal(n)| == 1)
  {
    DigitsLength(if n < 0 then -n else n, 10);
  }

  function TenTo(k: nat): nat {
    if k == 0 then 1 else 10 * TenTo(k - 1)
  }

  lemma {:induction false} DigitsLength(n: nat, k: nat)
    requires n < TenTo(k) && k > 0
    ensures |Digits(n)| <= k
  {
    if n >= 10 {
      DigitsLength(n / 10, k - 1);
    }
  }
}
