/**
 * The layout of a memheap pool (memheap.c): blocks tile the pool up to the tail item, and the free ones are listed in
 * the order of the free ring.  Offsets count bytes from start_addr, in a 32-bit build with RT_ALIGN_SIZE 4.
 */
module PoolLayout {
  import opened Prelude
  import opened HeapBlocks
  import opened Rings

  const ITEM: nat := 24      // RT_MEMHEAP_SIZE
  const MINIALLOC: nat := 12 // RT_MEMHEAP_MINIALLOC
  const HEADER: int := -1    // the address of free_header

  /** MEMITEM_SIZE */
  function Size(b: Block): int {
    b.next - b.at - ITEM
  }

  ghost predicate Roomy(bs: seq<Block>) {
    forall i :: 0 <= i < |bs| ==> Size(bs[i]) >= MINIALLOC
  }

  /** Block i has room, is aligned, and ends where the next one or the tail item starts. */
  ghost predicate BlockOk(bs: seq<Block>, end: nat, i: int) {
    0 <= i < |bs| ==>
      && Size(bs[i]) >= MINIALLOC && Aligned(bs[i].at) && (i == 0 ==> bs[i].at == 0)
      && bs[i].next == if i + 1 < |bs| then bs[i + 1].at else end
  }

  ghost predicate Layout(bs: seq<Block>, end: nat) {
    bs != [] && forall i :: BlockOk(bs, end, i)
  }

  /** The blocks tile the pool. */
  lemma LayoutTiles(bs: seq<Block>, end: nat)
    requires Layout(bs, end)
    ensures Tiled(bs, end) && Roomy(bs) && AllAligned(bs)
  {
    forall i | 0 <= i < |bs|
      ensures Size(bs[i]) >= MINIALLOC && Aligned(bs[i].at)
    {
      assert BlockOk(bs, end, i);
    }
    assert BlockOk(bs, end, 0) && BlockOk(bs, end, |bs| - 1);
    forall i, j | 0 <= i < j < |bs|
      ensures bs[i].next <= bs[j].at && (j == i + 1 ==> bs[i].next == bs[j].at)
    {
      LayoutOrder(bs, end, i, j);
    }
  }

  lemma {:induction false} LayoutOrder(bs: seq<Block>, end: nat, i: nat, j: nat)
    requires Layout(bs, end) && i < j < |bs|
    ensures bs[i].next <= bs[j].at && (j == i + 1 ==> bs[i].next == bs[j].at)
  {
    assert BlockOk(bs, end, j - 1);
    if j > i + 1 {
      LayoutOrder(bs, end, i, j - 1);
    } else {
      assert BlockOk(bs, end, i);
    }
  }

  ghost predicate Apart(bs: seq<Block>, i: int) {
    0 <= i && i + 1 < |bs| ==> bs[i].used || bs[i + 1].used
  }

  /** NoFreeNeighbours, unfolded by name only. */
  ghost predicate Spread(bs: seq<Block>) {
    forall i :: Apart(bs, i)
  }

  lemma SpreadIff(bs: seq<Block>)
    ensures Spread(bs) <==> NoFreeNeighbours(bs)
  {
    if Spread(bs) {
      forall i, j | 0 <= i && j == i + 1 < |bs|
        ensures bs[i].used || bs[j].used
      {
        assert Apart(bs, i);
      }
    }
  }

  lemma SplitLayout(bs: seq<Block>, i: nat, p: nat, end: nat)
    requires Layout(bs, end) && i < |bs| && Aligned(p)
    requires bs[i].at + ITEM + MINIALLOC <= p && p + ITEM + MINIALLOC <= bs[i].next
    ensures Layout(SplitAt(bs, i, p), end)
  {
    var r := SplitAt(bs, i, p);
    forall k
      ensures BlockOk(r, end, k)
    {
      if 0 <= k < |r| {
        SplitPiece(bs, i, p, k);
        if k + 1 < |r| {
          SplitPiece(bs, i, p, k + 1);
        }
        assert BlockOk(bs, end, if k <= i then k else k - 1);
      }
    }
  }

  lemma MarkLayout(bs: seq<Block>, i: nat, used: bool, end: nat)
    requires Layout(bs, end) && i < |bs|
    ensures Layout(Mark(bs, i, used), end)
  {
    var r := Mark(bs, i, used);
    forall k
      ensures BlockOk(r, end, k)
    {
      assert BlockOk(bs, end, k);
    }
  }

  // ----- the free blocks

  ghost predicate FreeIn(bs: seq<Block>, x: int) {
    exists b :: b in bs && b.at == x && !b.used
  }

  /** order lists exactly the free blocks, each once. */
  ghost predicate FreeOrder(bs: seq<Block>, order: seq<int>) {
    Distinct(order) && forall x {:trigger FreeIn(bs, x)} :: x in order <==> FreeIn(bs, x)
  }

  /** The block that starts at x. */
  ghost function IndexAt(bs: seq<Block>, x: int): (i: nat)
    requires FreeIn(bs, x)
    ensures i < |bs| && bs[i].at == x && !bs[i].used
  {
    var b :| b in bs && b.at == x && !b.used;
    var i :| 0 <= i < |bs| && bs[i] == b;
    i
  }

  lemma StartsApart(bs: seq<Block>, end: nat, b: Block, c: Block)
    requires Layout(bs, end) && b in bs && c in bs && b.at == c.at
    ensures b == c
  {
    LayoutTiles(bs, end);
    if b != c {
      BlocksApart(bs, end, b, c);
    }
  }

  lemma SplitFree(bs: seq<Block>, end: nat, i: nat, p: nat, x: int)
    requires Layout(bs, end) && i < |bs| && bs[i].at < p
    ensures FreeIn(SplitAt(bs, i, p), x) <==> (FreeIn(bs, x) && x != bs[i].at) || x == p
  {
    LayoutTiles(bs, end);
    var r := SplitAt(bs, i, p);
    SplitKeeps(bs, i, p);
    SplitPiece(bs, i, p, i + 1);
    assert r[i + 1] in r;
    if FreeIn(bs, x) && x != bs[i].at {
      var b :| b in bs && b.at == x && !b.used;
      assert b in r;
    }
    if FreeIn(r, x) && x != p {
      var b :| b in r && b.at == x && !b.used;
      assert b in bs;
      if b.at == bs[i].at {
        StartsApart(bs, end, b, bs[i]);
        NotSplit(bs, end, i, p);
      }
    }
  }

  /** The block that was cut is gone. */
  lemma NotSplit(bs: seq<Block>, end: nat, i: nat, p: nat)
    requires Layout(bs, end) && i < |bs|
    ensures forall b :: b in SplitAt(bs, i, p) && b.at == bs[i].at && b.at != p ==> b.used
  {
    LayoutTiles(bs, end);
    var r := SplitAt(bs, i, p);
    forall b | b in r && b.at == bs[i].at && b.at != p
      ensures b.used
    {
      var k :| 0 <= k < |r| && r[k] == b;
      SplitPiece(bs, i, p, k);
    }
  }

  lemma MarkFree(bs: seq<Block>, end: nat, i: nat, used: bool, x: int)
    requires Layout(bs, end) && i < |bs|
    ensures FreeIn(Mark(bs, i, used), x) <==> if x == bs[i].at then !used else FreeIn(bs, x)
  {
    LayoutTiles(bs, end);
    var r := Mark(bs, i, used);
    MarkKeeps(bs, i, used);
    MarkTiled(bs, i, used, end);
    if x == bs[i].at {
      if FreeIn(r, x) {
        var b :| b in r && b.at == x && !b.used;
        StartsApart(r, end, b, r[i]);
      }
    } else if FreeIn(bs, x) {
      var b :| b in bs && b.at == x && !b.used;
      assert b in r;
    }
  }

  /** Block i swallows the block behind it and keeps its own flag. */
  function Swallow(bs: seq<Block>, i: nat): seq<Block>
    requires i + 1 < |bs|
  {
    bs[..i] + [Block(bs[i].at, bs[i + 1].next, bs[i].used)] + bs[i + 2..]
  }

  lemma SwallowPiece(bs: seq<Block>, i: nat, k: nat)
    requires i + 1 < |bs| && k < |bs| - 1
    ensures Swallow(bs, i)[k]
         == if k < i then bs[k] else if k == i then Block(bs[i].at, bs[i + 1].next, bs[i].used) else bs[k + 1]
  {
  }

  lemma SwallowKeeps(bs: seq<Block>, i: nat)
    requires i + 1 < |bs|
    ensures forall b :: b in bs && b != bs[i] && b != bs[i + 1] ==> b in Swallow(bs, i)
    ensures forall b :: b in Swallow(bs, i) ==> b in bs || b == Block(bs[i].at, bs[i + 1].next, bs[i].used)
    ensures Block(bs[i].at, bs[i + 1].next, bs[i].used) in Swallow(bs, i)
  {
    assert bs == bs[..i] + [bs[i], bs[i + 1]] + bs[i + 2..];
  }

  lemma SwallowLayout(bs: seq<Block>, i: nat, end: nat)
    requires Layout(bs, end) && i + 1 < |bs|
    ensures Layout(Swallow(bs, i), end)
  {
    var r := Swallow(bs, i);
    forall k
      ensures BlockOk(r, end, k)
    {
      if 0 <= k < |r| {
        SwallowPiece(bs, i, k);
        if k + 1 < |r| {
          SwallowPiece(bs, i, k + 1);
        }
        assert BlockOk(bs, end, if k <= i then k else k + 1) && BlockOk(bs, end, i + 1);
      }
    }
  }

  lemma SwallowFree(bs: seq<Block>, end: nat, i: nat, x: int)
    requires Layout(bs, end) && i + 1 < |bs| && !bs[i + 1].used
    ensures FreeIn(Swallow(bs, i), x) <==> FreeIn(bs, x) && x != bs[i + 1].at
  {
    LayoutTiles(bs, end);
    var r := Swallow(bs, i);
    SwallowKeeps(bs, i);
    assert bs[i] in bs && bs[i + 1] in bs;
    if FreeIn(r, x) {
      var b :| b in r && b.at == x && !b.used;
      assert b in bs || b.at == bs[i].at;
      NotSwallowed(bs, end, i, b);
    }
    if FreeIn(bs, x) && x != bs[i + 1].at {
      var b :| b in bs && b.at == x && !b.used;
      if b != bs[i] {
        assert b in r;
      }
    }
  }

  lemma NotSwallowed(bs: seq<Block>, end: nat, i: nat, b: Block)
    requires Layout(bs, end) && i + 1 < |bs| && b in Swallow(bs, i)
    ensures b.at != bs[i + 1].at
  {
    LayoutTiles(bs, end);
    var r := Swallow(bs, i);
    var k :| 0 <= k < |r| && r[k] == b;
    SwallowPiece(bs, i, k);
  }

  // ----- available_size

  /** What a block contributes to available_size. */
  function Spare(b: Block): int {
    if b.used then 0 else Size(b)
  }

  function SpareTo(bs: seq<Block>, n: nat): int
    requires n <= |bs|
  {
    if n == 0 then 0 else SpareTo(bs, n - 1) + Spare(bs[n - 1])
  }

  /** The sum of the sizes of the free blocks. */
  function FreeBytes(bs: seq<Block>): int {
    SpareTo(bs, |bs|)
  }

  lemma {:induction false} SpareToConcat(a: seq<Block>, b: seq<Block>, n: nat)
    requires n <= |b|
    ensures SpareTo(a + b, |a| + n) == FreeBytes(a) + SpareTo(b, n)
  {
    if n == 0 {
      SpareToPrefix(a, b, |a|);
    } else {
      SpareToConcat(a, b, n - 1);
    }
  }

  lemma {:induction false} SpareToPrefix(a: seq<Block>, b: seq<Block>, n: nat)
    requires n <= |a|
    ensures SpareTo(a + b, n) == SpareTo(a, n)
  {
    if n > 0 {
      SpareToPrefix(a, b, n - 1);
    }
  }

  lemma FreeBytesConcat(a: seq<Block>, b: seq<Block>)
    ensures FreeBytes(a + b) == FreeBytes(a) + FreeBytes(b)
  {
    SpareToConcat(a, b, |b|);
  }

  lemma FreeBytesSplice(bs: seq<Block>, i: nat, j: nat, mid: seq<Block>)
    requires i <= j <= |bs|
    ensures FreeBytes(bs[..i] + mid + bs[j..]) == FreeBytes(bs) - FreeBytes(bs[i..j]) + FreeBytes(mid)
  {
    FreeBytesConcat(bs[..i] + mid, bs[j..]);
    FreeBytesConcat(bs[..i], mid);
    FreeBytesConcat(bs[..i] + bs[i..j], bs[j..]);
    FreeBytesConcat(bs[..i], bs[i..j]);
    assert bs == bs[..i] + bs[i..j] + bs[j..];
  }

  lemma FreeBytesOne(b: Block)
    ensures FreeBytes([b]) == Spare(b)
  {
    assert SpareTo([b], 0) == 0;
  }

  lemma FreeBytesTwo(b: Block, c: Block)
    ensures FreeBytes([b, c]) == Spare(b) + Spare(c)
  {
    assert SpareTo([b, c], 0) == 0;
    assert SpareTo([b, c], 1) == Spare(b);
  }

  lemma SplitBytes(bs: seq<Block>, i: nat, p: nat)
    requires i < |bs|
    ensures FreeBytes(SplitAt(bs, i, p)) == FreeBytes(bs) - Spare(bs[i]) + (bs[i].next - p - ITEM)
  {
    var b, c := Block(bs[i].at, p, true), Block(p, bs[i].next, false);
    FreeBytesSplice(bs, i, i + 1, [b, c]);
    FreeBytesTwo(b, c);
    assert bs[i..i + 1] == [bs[i]];
    FreeBytesOne(bs[i]);
  }

  lemma SwallowBytes(bs: seq<Block>, i: nat)
    requires i + 1 < |bs| && !bs[i + 1].used && bs[i].next == bs[i + 1].at
    ensures FreeBytes(Swallow(bs, i))
         == if bs[i].used then FreeBytes(bs) - Size(bs[i + 1]) else FreeBytes(bs) + ITEM
  {
    var b := Block(bs[i].at, bs[i + 1].next, bs[i].used);
    FreeBytesSplice(bs, i, i + 2, [b]);
    FreeBytesOne(b);
    assert bs[i..i + 2] == [bs[i], bs[i + 1]];
    FreeBytesTwo(bs[i], bs[i + 1]);
  }

  lemma MarkBytes(bs: seq<Block>, i: nat, used: bool)
    requires i < |bs|
    ensures FreeBytes(Mark(bs, i, used)) == FreeBytes(bs) - Spare(bs[i]) + Spare(bs[i].(used := used))
  {
    var b := bs[i].(used := used);
    FreeBytesSplice(bs, i, i + 1, [b]);
    FreeBytesOne(b);
    assert bs[i..i + 1] == [bs[i]];
    FreeBytesOne(bs[i]);
    assert Mark(bs, i, used) == bs[..i] + [b] + bs[i + 1..];
  }

  /** No free block is larger than available_size; one that is as large is the only one. */
  lemma {:induction false} BytesBound(bs: seq<Block>, n: nat, i: nat)
    requires Roomy(bs) && n <= |bs|
    ensures SpareTo(bs, n) >= 0
    ensures i < n ==> SpareTo(bs, n) >= Spare(bs[i])
    ensures i < n && SpareTo(bs, n) == Spare(bs[i]) ==> forall j :: 0 <= j < n && j != i ==> bs[j].used
    ensures SpareTo(bs, n) == 0 ==> forall j :: 0 <= j < n ==> bs[j].used
  {
    if n > 0 {
      BytesBound(bs, n - 1, i);
    }
  }

  // ----- the block ring

  /** The addresses on the block ring: all blocks, then the tail item. */
  ghost function Offsets(bs: seq<Block>, end: nat): (r: seq<int>)
    ensures |r| == |bs| + 1
    ensures forall k {:trigger r[k]} :: 0 <= k < |bs| ==> r[k] == bs[k].at
    ensures r[|bs|] == end
  {
    seq(|bs| + 1, k requires 0 <= k <= |bs| => if k < |bs| then bs[k].at else end)
  }

  lemma SplitOffsets(bs: seq<Block>, i: nat, p: nat, end: nat)
    requires i < |bs|
    ensures Offsets(SplitAt(bs, i, p), end) == Inserted(Offsets(bs, end), i + 1, p)
  {
    var r := SplitAt(bs, i, p);
    forall k | 0 <= k < |r|
      ensures Offsets(r, end)[k] == Inserted(Offsets(bs, end), i + 1, p)[k]
    {
      SplitPiece(bs, i, p, k);
    }
  }

  lemma SwallowOffsets(bs: seq<Block>, i: nat, end: nat)
    requires i + 1 < |bs|
    ensures Offsets(Swallow(bs, i), end) == Removed(Offsets(bs, end), i + 1)
  {
    var r := Swallow(bs, i);
    forall k | 0 <= k < |r|
      ensures Offsets(r, end)[k] == Removed(Offsets(bs, end), i + 1)[k]
    {
      SwallowPiece(bs, i, k);
    }
  }

  lemma MarkOffsets(bs: seq<Block>, i: nat, used: bool, end: nat)
    requires i < |bs|
    ensures Offsets(Mark(bs, i, used), end) == Offsets(bs, end)
  {
  }

  /** Every address on the block ring is a block or the tail, and none is repeated. */
  lemma OffsetsFresh(bs: seq<Block>, end: nat, i: nat, p: nat)
    requires Layout(bs, end) && i < |bs| && bs[i].at < p < bs[i].next
    ensures p !in Offsets(bs, end)
  {
    LayoutTiles(bs, end);
    forall k | 0 <= k < |bs|
      ensures bs[k].at != p
    {
      if k != i {
        assert k < i ==> bs[k].next <= bs[i].at;
      }
    }
    EndsBy(bs, end);
  }
}
