/**
 * The layout of the small-memory heap (mem.c): a region tiled by blocks, each a header followed by its payload.
 * Offsets count bytes from heap_ptr.  The sizes are those of a 32-bit build with RT_ALIGN_SIZE 4.
 */
module HeapBlocks {
  import opened Prelude

  const SIZEOF: nat := 12    // SIZEOF_STRUCT_MEM
  const MIN_SIZE: nat := 12  // MIN_SIZE and MIN_SIZE_ALIGNED

  function Align(n: nat): (r: nat)
    ensures n <= r < n + 4 && Aligned(r)
  {
    (n + 3) / 4 * 4
  }

  /** A block from its header at offset at up to the next header at offset next. */
  datatype Block = Block(at: nat, next: nat, used: bool) {
    function Payload(): int {
      next - at - SIZEOF
    }
  }

  /** heap_mem: the words that the allocator keeps in front of each payload. */
  datatype Header = Header(used: bool, next: nat, prev: nat)

  /** The blocks tile [0, end): each starts where the one before ends, with room for its header and more. */
  ghost predicate Tiled(bs: seq<Block>, end: nat) {
    && bs != [] && bs[0].at == 0 && bs[|bs| - 1].next == end
    && (forall i :: 0 <= i < |bs| ==> bs[i].at + SIZEOF < bs[i].next)
    && (forall i, j :: 0 <= i < j < |bs| ==> bs[i].next <= bs[j].at && (j == i + 1 ==> bs[i].next == bs[j].at))
  }

  predicate Aligned(n: int) {
    n % 4 == 0
  }

  lemma AlignedSum(a: nat, b: nat)
    requires Aligned(a) && Aligned(b)
    ensures Aligned(a + SIZEOF + b)
  {
  }

  ghost predicate AllAligned(bs: seq<Block>) {
    forall i {:trigger Aligned(bs[i].at)} :: 0 <= i < |bs| ==> Aligned(bs[i].at)
  }

  ghost predicate NoFreeNeighbours(bs: seq<Block>) {
    forall i, j :: 0 <= i && j == i + 1 < |bs| ==> bs[i].used || bs[j].used
  }

  ghost predicate HeaderAt(h: map<nat, Header>, bs: seq<Block>, k: nat)
    requires k < |bs|
  {
    bs[k].at in h && h[bs[k].at] == Header(bs[k].used, bs[k].next, if k == 0 then 0 else bs[k - 1].at)
  }

  /** The headers in memory are those of the blocks; the end sentinel is a used block that points to itself. */
  ghost predicate Headers(h: map<nat, Header>, bs: seq<Block>, end: nat) {
    && (forall k :: 0 <= k < |bs| ==> HeaderAt(h, bs, k))
    && end in h && h[end].used && h[end].next == end
  }

  /** Block i is cut at offset p; the first part is in use, the rest is free. */
  function SplitAt(bs: seq<Block>, i: nat, p: nat): seq<Block>
    requires i < |bs|
  {
    bs[..i] + [Block(bs[i].at, p, true), Block(p, bs[i].next, false)] + bs[i + 1..]
  }

  /** Blocks i and i + 1 become one free block. */
  function MergeAt(bs: seq<Block>, i: nat): seq<Block>
    requires i + 1 < |bs|
  {
    bs[..i] + [Block(bs[i].at, bs[i + 1].next, false)] + bs[i + 2..]
  }

  function Mark(bs: seq<Block>, i: nat, used: bool): seq<Block>
    requires i < |bs|
  {
    bs[i := bs[i].(used := used)]
  }

  lemma SplitTiled(bs: seq<Block>, i: nat, p: nat, end: nat)
    requires Tiled(bs, end) && i < |bs|
    requires bs[i].at + SIZEOF < p && p + SIZEOF < bs[i].next
    ensures Tiled(SplitAt(bs, i, p), end)
  {
    var r := SplitAt(bs, i, p);
    assert r[0].at == 0 && r[|r| - 1].next == end;
    forall k, l | 0 <= k < l < |r|
      ensures r[k].next <= r[l].at && (l == k + 1 ==> r[k].next == r[l].at)
    {
      SplitPiece(bs, i, p, k);
      SplitPiece(bs, i, p, l);
    }
    forall k | 0 <= k < |r|
      ensures r[k].at + SIZEOF < r[k].next
    {
      SplitPiece(bs, i, p, k);
    }
  }

  lemma SplitPiece(bs: seq<Block>, i: nat, p: nat, k: nat)
    requires i < |bs| && k <= |bs|
    ensures SplitAt(bs, i, p)[k]
         == if k < i then bs[k] else if k == i then Block(bs[i].at, p, true)
            else if k == i + 1 then Block(p, bs[i].next, false) else bs[k - 1]
  {
  }

  lemma MergeTiled(bs: seq<Block>, i: nat, end: nat)
    requires Tiled(bs, end) && i + 1 < |bs|
    ensures Tiled(MergeAt(bs, i), end)
  {
    var r := MergeAt(bs, i);
    assert forall k :: 0 <= k < |r| ==>
      r[k] == if k < i then bs[k] else if k == i then Block(bs[i].at, bs[i + 1].next, false) else bs[k + 1];
  }

  /** The header words after rt_malloc or rt_realloc has cut block i at p. */
  function SplitHdr(h: map<nat, Header>, b: Block, p: nat, end: nat): map<nat, Header>
    requires b.at in h && b.next in h
  {
    var h1 := h[p := Header(false, b.next, b.at)];
    var h2 := h1[b.at := Header(true, p, h[b.at].prev)];
    if b.next != end then h2[b.next := h2[b.next].(prev := p)] else h2
  }

  /** The header words after plug_holes has joined b and its successor c. */
  function MergeHdr(h: map<nat, Header>, b: Block, c: Block): map<nat, Header>
    requires b.at in h && c.next in h
  {
    var h1 := h[b.at := h[b.at].(next := c.next)];
    h1[c.next := h1[c.next].(prev := b.at)]
  }

  lemma NextInHeaders(h: map<nat, Header>, bs: seq<Block>, i: nat, end: nat)
    requires Tiled(bs, end) && Headers(h, bs, end) && i < |bs|
    ensures bs[i].next in h && bs[i].next <= end
    ensures bs[i].next == if i + 1 < |bs| then bs[i + 1].at else end
  {
    if i + 1 < |bs| {
      assert HeaderAt(h, bs, i + 1);
    }
  }

  lemma SplitHeaderAt(h: map<nat, Header>, bs: seq<Block>, i: nat, p: nat, end: nat, k: nat)
    requires Tiled(bs, end) && Headers(h, bs, end) && i < |bs| && bs[i].at in h && bs[i].next in h
    requires bs[i].at + SIZEOF < p && p + SIZEOF < bs[i].next
    requires k < |bs| + 1
    ensures HeaderAt(SplitHdr(h, bs[i], p, end), SplitAt(bs, i, p), k)
  {
    var r := SplitAt(bs, i, p);
    NextInHeaders(h, bs, i, end);
    assert HeaderAt(h, bs, i);
    if k < i {
      assert HeaderAt(h, bs, k) && r[k] == bs[k] && bs[k].next <= bs[i].at;
    } else if k > i + 1 {
      assert HeaderAt(h, bs, k - 1) && r[k] == bs[k - 1] && bs[i].next <= bs[k - 1].at;
    }
  }

  lemma SplitHeaders(h: map<nat, Header>, bs: seq<Block>, i: nat, p: nat, end: nat)
    requires Tiled(bs, end) && Headers(h, bs, end) && i < |bs| && bs[i].at in h && bs[i].next in h
    requires bs[i].at + SIZEOF < p && p + SIZEOF < bs[i].next
    ensures Headers(SplitHdr(h, bs[i], p, end), SplitAt(bs, i, p), end)
  {
    NextInHeaders(h, bs, i, end);
    forall k | 0 <= k < |bs| + 1
      ensures HeaderAt(SplitHdr(h, bs[i], p, end), SplitAt(bs, i, p), k)
    {
      SplitHeaderAt(h, bs, i, p, end, k);
    }
  }

  lemma MergeHeaderAt(h: map<nat, Header>, bs: seq<Block>, i: nat, end: nat, k: nat)
    requires Tiled(bs, end) && Headers(h, bs, end) && i + 1 < |bs| && !bs[i].used && bs[i].at in h && bs[i + 1].next in h
    requires k < |bs| - 1
    ensures HeaderAt(MergeHdr(h, bs[i], bs[i + 1]), MergeAt(bs, i), k)
  {
    var r := MergeAt(bs, i);
    NextInHeaders(h, bs, i + 1, end);
    assert HeaderAt(h, bs, i);
    if k < i {
      assert HeaderAt(h, bs, k) && r[k] == bs[k] && bs[k].next <= bs[i].at;
    } else if k > i {
      assert HeaderAt(h, bs, k + 1) && r[k] == bs[k + 1] && bs[i + 1].next <= bs[k + 1].at;
    }
  }

  lemma MergeHeaders(h: map<nat, Header>, bs: seq<Block>, i: nat, end: nat)
    requires Tiled(bs, end) && Headers(h, bs, end) && i + 1 < |bs| && !bs[i].used && bs[i].at in h && bs[i + 1].next in h
    ensures Headers(MergeHdr(h, bs[i], bs[i + 1]), MergeAt(bs, i), end)
  {
    NextInHeaders(h, bs, i + 1, end);
    var r, h' := MergeAt(bs, i), MergeHdr(h, bs[i], bs[i + 1]);
    forall k | 0 <= k < |r|
      ensures HeaderAt(h', r, k)
    {
      MergeHeaderAt(h, bs, i, end, k);
    }
  }

  lemma MarkTiled(bs: seq<Block>, i: nat, used: bool, end: nat)
    requires Tiled(bs, end) && i < |bs|
    ensures Tiled(Mark(bs, i, used), end)
  {
  }

  lemma MarkHeaders(h: map<nat, Header>, bs: seq<Block>, i: nat, end: nat, used: bool)
    requires Tiled(bs, end) && Headers(h, bs, end) && i < |bs|
    ensures bs[i].at in h
    ensures Headers(h[bs[i].at := h[bs[i].at].(used := used)], Mark(bs, i, used), end)
    ensures Tiled(Mark(bs, i, used), end)
  {
    MarkTiled(bs, i, used, end);
    var r := Mark(bs, i, used);
    assert HeaderAt(h, bs, i);
    var h' := h[bs[i].at := h[bs[i].at].(used := used)];
    forall k | 0 <= k < |bs|
      ensures HeaderAt(h', r, k)
    {
      assert HeaderAt(h, bs, k);
      assert k != i ==> bs[k].at != bs[i].at;
    }
  }

  // ----- accounting

  /** What a block contributes to used_mem: header and payload if it is in use. */
  function Span(b: Block): int {
    if b.used then b.next - b.at else 0
  }

  function SpanTo(bs: seq<Block>, n: nat): int
    requires n <= |bs|
  {
    if n == 0 then 0 else SpanTo(bs, n - 1) + Span(bs[n - 1])
  }

  /** The bytes covered by blocks in use, headers included. */
  function UsedSpan(bs: seq<Block>): int {
    SpanTo(bs, |bs|)
  }

  function FreeTo(bs: seq<Block>, n: nat): int
    requires n <= |bs|
  {
    if n == 0 then 0 else FreeTo(bs, n - 1) + if bs[n - 1].used then 0 else bs[n - 1].next - bs[n - 1].at
  }

  function FreeSpan(bs: seq<Block>): int {
    FreeTo(bs, |bs|)
  }

  lemma {:induction false} SpanToConcat(a: seq<Block>, b: seq<Block>, n: nat)
    requires n <= |b|
    ensures SpanTo(a + b, |a| + n) == UsedSpan(a) + SpanTo(b, n)
  {
    if n == 0 {
      SpanToPrefix(a, b, |a|);
    } else {
      SpanToConcat(a, b, n - 1);
    }
  }

  lemma {:induction false} SpanToPrefix(a: seq<Block>, b: seq<Block>, n: nat)
    requires n <= |a|
    ensures SpanTo(a + b, n) == SpanTo(a, n)
  {
    if n > 0 {
      SpanToPrefix(a, b, n - 1);
    }
  }

  lemma UsedSpanConcat(a: seq<Block>, b: seq<Block>)
    ensures UsedSpan(a + b) == UsedSpan(a) + UsedSpan(b)
  {
    SpanToConcat(a, b, |b|);
  }

  /** Replacing the blocks i, ..., j - 1 changes the total by the difference of their own totals. */
  lemma UsedSpanSplice(bs: seq<Block>, i: nat, j: nat, mid: seq<Block>)
    requires i <= j <= |bs|
    ensures UsedSpan(bs[..i] + mid + bs[j..]) == UsedSpan(bs) - UsedSpan(bs[i..j]) + UsedSpan(mid)
  {
    UsedSpanConcat(bs[..i] + mid, bs[j..]);
    UsedSpanConcat(bs[..i], mid);
    UsedSpanConcat(bs[..i] + bs[i..j], bs[j..]);
    UsedSpanConcat(bs[..i], bs[i..j]);
    assert bs == bs[..i] + bs[i..j] + bs[j..];
  }

  lemma UsedSpanOne(b: Block)
    ensures UsedSpan([b]) == Span(b)
  {
    assert SpanTo([b], 0) == 0;
  }

  lemma UsedSpanTwo(b: Block, c: Block)
    ensures UsedSpan([b, c]) == Span(b) + Span(c)
  {
    assert SpanTo([b, c], 0) == 0;
    assert SpanTo([b, c], 1) == Span(b);
  }

  lemma SplitSpan(bs: seq<Block>, i: nat, p: nat)
    requires i < |bs|
    ensures UsedSpan(SplitAt(bs, i, p)) == UsedSpan(bs) + (p - bs[i].at) - Span(bs[i])
  {
    var b, c := Block(bs[i].at, p, true), Block(p, bs[i].next, false);
    UsedSpanSplice(bs, i, i + 1, [b, c]);
    UsedSpanTwo(b, c);
    assert bs[i..i + 1] == [bs[i]];
    UsedSpanOne(bs[i]);
  }

  lemma MergeSpan(bs: seq<Block>, i: nat)
    requires i + 1 < |bs| && !bs[i].used && !bs[i + 1].used
    ensures UsedSpan(MergeAt(bs, i)) == UsedSpan(bs)
  {
    var b := Block(bs[i].at, bs[i + 1].next, false);
    UsedSpanSplice(bs, i, i + 2, [b]);
    UsedSpanOne(b);
    assert bs[i..i + 2] == [bs[i], bs[i + 1]];
    UsedSpanTwo(bs[i], bs[i + 1]);
  }

  lemma MarkSpan(bs: seq<Block>, i: nat, used: bool)
    requires i < |bs|
    ensures UsedSpan(Mark(bs, i, used)) == UsedSpan(bs) - Span(bs[i]) + Span(bs[i].(used := used))
  {
    var b := bs[i].(used := used);
    UsedSpanSplice(bs, i, i + 1, [b]);
    UsedSpanOne(b);
    assert bs[i..i + 1] == [bs[i]];
    UsedSpanOne(bs[i]);
    assert Mark(bs, i, used) == bs[..i] + [b] + bs[i + 1..];
  }

  lemma {:induction false} SpansUpTo(bs: seq<Block>, n: nat, end: nat)
    requires Tiled(bs, end) && 0 < n <= |bs|
    ensures SpanTo(bs, n) + FreeTo(bs, n) == bs[n - 1].next
  {
    assert SpanTo(bs, 0) == FreeTo(bs, 0) == 0;
    if n > 1 {
      SpansUpTo(bs, n - 1, end);
      assert bs[n - 2].next == bs[n - 1].at;
    }
  }

  /** Used and free bytes together are the whole region up to the sentinel. */
  lemma SpansAddUp(bs: seq<Block>, end: nat)
    requires Tiled(bs, end)
    ensures UsedSpan(bs) + FreeSpan(bs) == end
  {
    SpansUpTo(bs, |bs|, end);
  }

  /** With nothing live, coalescing has left a single free block. */
  lemma AllFree(bs: seq<Block>, end: nat)
    requires Tiled(bs, end) && NoFreeNeighbours(bs)
    requires forall i :: 0 <= i < |bs| ==> !bs[i].used
    ensures bs == [Block(0, end, false)]
  {
    var second := bs[if |bs| > 1 then 1 else 0];
    if |bs| > 1 {
      assert false;
    }
  }

  // ----- live memory

  /** Byte k belongs to the payload of a block in use. */
  ghost predicate Live(bs: seq<Block>, k: int) {
    exists b :: b in bs && b.used && b.at + SIZEOF <= k < b.next
  }

  /** Every block in use in bs is still there, unchanged, in bs'. */
  ghost predicate KeepsUsed(bs: seq<Block>, bs': seq<Block>) {
    forall b :: b in bs && b.used ==> b in bs'
  }

  lemma EndsBy(bs: seq<Block>, end: nat)
    requires Tiled(bs, end)
    ensures forall i :: 0 <= i < |bs| ==> bs[i].next <= end
  {
    forall i | 0 <= i < |bs|
      ensures bs[i].next <= end
    {
      assert i < |bs| - 1 ==> bs[i].next <= bs[|bs| - 1].at;
    }
  }

  lemma HeaderNotLive(bs: seq<Block>, end: nat, i: nat, k: int)
    requires Tiled(bs, end) && i < |bs|
    requires bs[i].at <= k < bs[i].at + SIZEOF || end <= k || (!bs[i].used && bs[i].at <= k < bs[i].next)
    ensures !Live(bs, k)
  {
    EndsBy(bs, end);
    forall b | b in bs && b.used
      ensures !(b.at + SIZEOF <= k < b.next)
    {
      var j :| 0 <= j < |bs| && bs[j] == b;
    }
  }

  lemma SplitKeeps(bs: seq<Block>, i: nat, p: nat)
    requires i < |bs|
    ensures forall b :: b in bs && b != bs[i] ==> b in SplitAt(bs, i, p)
    ensures forall b :: b in SplitAt(bs, i, p) ==>
              b in bs || b == Block(bs[i].at, p, true) || b == Block(p, bs[i].next, false)
    ensures Block(bs[i].at, p, true) in SplitAt(bs, i, p)
  {
    assert bs == bs[..i] + [bs[i]] + bs[i + 1..];
  }

  lemma MergeKeeps(bs: seq<Block>, i: nat)
    requires i + 1 < |bs| && !bs[i].used && !bs[i + 1].used
    ensures KeepsUsed(bs, MergeAt(bs, i)) && KeepsUsed(MergeAt(bs, i), bs)
    ensures forall b :: b in bs && b != bs[i] && b != bs[i + 1] ==> b in MergeAt(bs, i)
    ensures forall b :: b in MergeAt(bs, i) ==> b in bs || b == Block(bs[i].at, bs[i + 1].next, false)
    ensures Block(bs[i].at, bs[i + 1].next, false) in MergeAt(bs, i)
  {
    assert bs == bs[..i] + [bs[i], bs[i + 1]] + bs[i + 2..];
  }

  lemma MarkKeeps(bs: seq<Block>, i: nat, used: bool)
    requires i < |bs|
    ensures forall b :: b in bs && b != bs[i] ==> b in Mark(bs, i, used)
    ensures forall b :: b in Mark(bs, i, used) ==> b in bs || b == bs[i].(used := used)
    ensures bs[i].(used := used) in Mark(bs, i, used)
  {
    var r := Mark(bs, i, used);
    assert r[i] == bs[i].(used := used);
    forall b | b in bs && b != bs[i]
      ensures b in r
    {
      var j :| 0 <= j < |bs| && bs[j] == b;
      assert r[j] == b;
    }
  }

  /** Two different blocks do not overlap. */
  lemma BlocksApart(bs: seq<Block>, end: nat, b: Block, c: Block)
    requires Tiled(bs, end) && b in bs && c in bs && b != c
    ensures b.next <= c.at || c.next <= b.at
  {
  }

  // ----- the lowest-free hint

  /** lfree is a free block of the chain, or the end. */
  ghost predicate HintOk(bs: seq<Block>, end: nat, lfree: nat) {
    lfree == end || exists b :: b in bs && b.at == lfree && !b.used
  }

  /** No free block lies below lfree. */
  ghost predicate Lowest(bs: seq<Block>, lfree: nat) {
    forall b :: b in bs && !b.used ==> lfree <= b.at
  }

  lemma MergeHint(bs: seq<Block>, i: nat, end: nat, lfree: nat)
    requires Tiled(bs, end) && i + 1 < |bs| && !bs[i].used && !bs[i + 1].used && HintOk(bs, end, lfree)
    ensures var l := if lfree == bs[i + 1].at then bs[i].at else lfree;
            HintOk(MergeAt(bs, i), end, l)
  {
    MergeKeeps(bs, i);
    EndsBy(bs, end);
    var m := Block(bs[i].at, bs[i + 1].next, false);
    assert bs[i] in bs && bs[i + 1] in bs;
    if lfree != end && lfree != bs[i].at && lfree != bs[i + 1].at {
      var b :| b in bs && b.at == lfree && !b.used;
      assert b in MergeAt(bs, i);
    } else if lfree != end {
      assert m in MergeAt(bs, i);
    }
  }
}
