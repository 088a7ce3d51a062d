/** The items of a memheap pool as they lie in memory: what their words hold, and what a write leaves alone. */
module PoolItems {
  import opened Prelude
  import opened HeapBlocks
  import opened Rings
  import opened PoolLayout
  import opened SmallHeap

  const MAGIC: nat := 0x1ea01ea0 // RT_MEMHEAP_MAGIC
  const LINKS: nat := 16         // next_free and prev_free are the last two words of an item

  /** The addresses of the pool, of free_header and of the memheap object. */
  datatype Site = Site(start: nat, header: nat, pool: nat)

  function Address(site: Site, x: int): nat {
    if x == HEADER then site.header else if x < 0 then 0 else site.start + x
  }

  /** magic, pool_ptr, next and prev */
  function BlockWords(site: Site, used: bool, next: int, prev: int): (r: seq<byte>)
    ensures |r| == LINKS
  {
    Le(if used then MAGIC + 1 else MAGIC, 4) + Le(site.pool, 4) + Le(Address(site, next), 4) + Le(Address(site, prev), 4)
  }

  /** next_free and prev_free */
  function LinkWords(next: nat, prev: nat): (r: seq<byte>)
    ensures |r| == ITEM - LINKS
  {
    Le(next, 4) + Le(prev, 4)
  }

  ghost predicate HoldsAt(m: seq<byte>, x: int, w: seq<byte>) {
    0 <= x && x + |w| <= |m| && m[x..x + |w|] == w
  }

  ghost predicate BlockStored(m: seq<byte>, site: Site, next: map<int, int>, prev: map<int, int>, inUse: map<int, bool>,
                              x: int) {
    x in next && x in prev && x in inUse && HoldsAt(m, x, BlockWords(site, inUse[x], next[x], prev[x]))
  }

  ghost predicate LinkStored(m: seq<byte>, site: Site, next: map<int, int>, prev: map<int, int>, x: int) {
    x in next && x in prev && HoldsAt(m, x + LINKS, LinkWords(Address(site, next[x]), Address(site, prev[x])))
  }

  /** The first four words of all items are stored, except those yet to be written. */
  ghost predicate BlocksStored(m: seq<byte>, site: Site, next: map<int, int>, prev: map<int, int>, inUse: map<int, bool>,
                               nodes: seq<int>, pending: set<int>) {
    forall x {:trigger BlockStored(m, site, next, prev, inUse, x)} ::
      x in nodes && x !in pending ==> BlockStored(m, site, next, prev, inUse, x)
  }

  /** So are the last two words of the items on the free ring. */
  ghost predicate LinksStored(m: seq<byte>, site: Site, next: map<int, int>, prev: map<int, int>, order: seq<int>,
                              pending: set<int>) {
    forall x {:trigger LinkStored(m, site, next, prev, x)} ::
      x in order && x !in pending ==> LinkStored(m, site, next, prev, x)
  }

  ghost predicate Among(order: seq<int>, gone: set<int>, nodes: seq<int>) {
    forall x :: x in order && x !in gone ==> x in nodes
  }

  // ----- payloads

  /** Byte k belongs to the payload of a block in use. */
  ghost predicate Payload(bs: seq<Block>, k: int) {
    exists b :: b in bs && b.used && b.at + ITEM <= k < b.next
  }

  /** No payload byte of a block in use has changed. */
  ghost predicate KeptPayloads(bs: seq<Block>, m: seq<byte>, m': seq<byte>) {
    |m| == |m'| && forall k {:trigger Payload(bs, k), m'[k]} :: 0 <= k < |m| && Payload(bs, k) ==> m'[k] == m[k]
  }

  /** Every payload in bs is part of one in bs'. */
  ghost predicate Covers(bs: seq<Block>, bs': seq<Block>) {
    forall b :: b in bs && b.used ==> exists b' :: b' in bs' && b'.used && b'.at == b.at && b.next <= b'.next
  }

  lemma KeptCovered(bs: seq<Block>, bs': seq<Block>, m: seq<byte>, m': seq<byte>)
    requires Covers(bs, bs') && KeptPayloads(bs', m, m')
    ensures KeptPayloads(bs, m, m')
  {
    forall k | 0 <= k < |m| && Payload(bs, k)
      ensures m'[k] == m[k]
    {
      var b :| b in bs && b.used && b.at + ITEM <= k < b.next;
      var b' :| b' in bs' && b'.used && b'.at == b.at && b.next <= b'.next;
      assert Payload(bs', k);
    }
  }

  lemma KeepsCovers(bs: seq<Block>, bs': seq<Block>)
    requires KeepsUsed(bs, bs')
    ensures Covers(bs, bs')
  {
  }

  /** Cutting or handing out a free block loses no payload. */
  lemma TakeCovers(bs: seq<Block>, i: nat, p: nat)
    requires i < |bs| && !bs[i].used
    ensures Covers(bs, SplitAt(bs, i, p)) && Covers(bs, Mark(bs, i, true))
  {
    SplitKeeps(bs, i, p);
    MarkKeeps(bs, i, true);
    KeepsCovers(bs, SplitAt(bs, i, p));
    KeepsCovers(bs, Mark(bs, i, true));
  }

  /** Nor does swallowing one; and if the swallower is free, no payload is new. */
  lemma SwallowCovers(bs: seq<Block>, i: nat)
    requires i + 1 < |bs| && !bs[i + 1].used && bs[i].next <= bs[i + 1].next
    ensures Covers(bs, Swallow(bs, i)) && (!bs[i].used ==> Covers(Swallow(bs, i), bs))
  {
    SwallowKeeps(bs, i);
    var s := Block(bs[i].at, bs[i + 1].next, bs[i].used);
    forall b | b in bs && b.used
      ensures exists b' :: b' in Swallow(bs, i) && b'.used && b'.at == b.at && b.next <= b'.next
    {
      if b == bs[i] {
        assert s in Swallow(bs, i);
      } else {
        assert b in Swallow(bs, i);
      }
    }
    if !bs[i].used {
      KeepsCovers(Swallow(bs, i), bs);
    }
  }

  lemma KeptTwice(bs: seq<Block>, m0: seq<byte>, m1: seq<byte>, m2: seq<byte>)
    requires KeptPayloads(bs, m0, m1) && KeptPayloads(bs, m1, m2)
    ensures KeptPayloads(bs, m0, m2)
  {
  }

  // ----- what lies apart

  ghost predicate Gap(x: int, y: int) {
    x == y || x + ITEM <= y || y + ITEM <= x
  }

  /** Two items of the block ring do not overlap. */
  lemma ItemsGap(bs: seq<Block>, end: nat, x: int, y: int)
    requires Layout(bs, end) && x in Offsets(bs, end) && y in Offsets(bs, end)
    ensures Gap(x, y) && 0 <= x <= end
  {
    LayoutTiles(bs, end);
    EndsBy(bs, end);
    var i :| 0 <= i <= |bs| && Offsets(bs, end)[i] == x;
    var j :| 0 <= j <= |bs| && Offsets(bs, end)[j] == y;
  }

  /** No item, not even the tail, shares a byte with a payload in use. */
  lemma ItemsApart(bs: seq<Block>, end: nat, x: int, k: int)
    requires Layout(bs, end) && x in Offsets(bs, end) && x <= k < x + ITEM
    ensures !Payload(bs, k)
  {
    LayoutTiles(bs, end);
    EndsBy(bs, end);
    var i :| 0 <= i <= |bs| && Offsets(bs, end)[i] == x;
    forall b | b in bs && b.used
      ensures !(b.at + ITEM <= k < b.next)
    {
      if i < |bs| && b != bs[i] {
        BlocksApart(bs, end, b, bs[i]);
      }
    }
  }

  lemma HoldsStill(m: seq<byte>, m': seq<byte>, x: int, w: seq<byte>, lo: int, hi: int)
    requires HoldsAt(m, x, w) && SameOutside(m, m', lo, hi) && (hi <= x || x + |w| <= lo)
    ensures HoldsAt(m', x, w)
  {
  }

  /** The first four words of item x have been written. */
  lemma BlockWritten(m: seq<byte>, m': seq<byte>, site: Site, next: map<int, int>, prev: map<int, int>,
                     inUse: map<int, bool>, bs: seq<Block>, end: nat, x: int, pending: set<int>)
    requires Layout(bs, end) && x in Offsets(bs, end) && SameOutside(m, m', x, x + LINKS)
    requires BlocksStored(m, site, next, prev, inUse, Offsets(bs, end), pending)
    requires BlockStored(m', site, next, prev, inUse, x)
    ensures BlocksStored(m', site, next, prev, inUse, Offsets(bs, end), pending - {x})
  {
    forall y | y in Offsets(bs, end) && y !in pending && y != x
      ensures BlockStored(m', site, next, prev, inUse, y)
    {
      ItemsGap(bs, end, x, y);
      assert BlockStored(m, site, next, prev, inUse, y);
      HoldsStill(m, m', y, BlockWords(site, inUse[y], next[y], prev[y]), x, x + LINKS);
    }
  }

  /** A write elsewhere in an item, or in a payload, leaves the first four words of all items. */
  lemma BlocksStay(m: seq<byte>, m': seq<byte>, site: Site, next: map<int, int>, prev: map<int, int>,
                   inUse: map<int, bool>, bs: seq<Block>, end: nat, lo: int, hi: int, pending: set<int>)
    requires Layout(bs, end) && SameOutside(m, m', lo, hi)
    requires BlocksStored(m, site, next, prev, inUse, Offsets(bs, end), pending)
    requires forall y :: y in Offsets(bs, end) ==> hi <= y || y + LINKS <= lo
    ensures BlocksStored(m', site, next, prev, inUse, Offsets(bs, end), pending)
  {
    forall y | y in Offsets(bs, end) && y !in pending
      ensures BlockStored(m', site, next, prev, inUse, y)
    {
      assert BlockStored(m, site, next, prev, inUse, y);
      HoldsStill(m, m', y, BlockWords(site, inUse[y], next[y], prev[y]), lo, hi);
    }
  }

  /** So are the last two words of the items on the free ring left. */
  lemma LinksStay(m: seq<byte>, m': seq<byte>, site: Site, next: map<int, int>, prev: map<int, int>,
                  order: seq<int>, lo: int, hi: int, pending: set<int>, done: set<int>)
    requires SameOutside(m, m', lo, hi) && LinksStored(m, site, next, prev, order, pending)
    requires forall y :: y in order && y !in pending && y !in done ==> hi <= y + LINKS || y + ITEM <= lo
    requires forall y :: y in done ==> LinkStored(m', site, next, prev, y)
    ensures LinksStored(m', site, next, prev, order, pending - done)
  {
    forall y | y in order && y !in pending && y !in done
      ensures LinkStored(m', site, next, prev, y)
    {
      assert LinkStored(m, site, next, prev, y);
      HoldsStill(m, m', y + LINKS, LinkWords(Address(site, next[y]), Address(site, prev[y])), lo, hi);
    }
  }

  /** A write within an item keeps all payloads. */
  lemma ItemWriteKeeps(bs: seq<Block>, end: nat, x: int, m: seq<byte>, m': seq<byte>, lo: int, hi: int)
    requires Layout(bs, end) && x in Offsets(bs, end) && SameOutside(m, m', lo, hi) && x <= lo && hi <= x + ITEM
    ensures KeptPayloads(bs, m, m')
  {
    forall k | 0 <= k < |m| && Payload(bs, k)
      ensures m'[k] == m[k]
    {
      if lo <= k < hi {
        ItemsApart(bs, end, x, k);
      }
    }
  }

  /** A range within a payload shares no byte with an item. */
  lemma PayloadGap(bs: seq<Block>, end: nat, j: nat, lo: int, hi: int)
    requires Layout(bs, end) && j < |bs| && bs[j].at + ITEM <= lo <= hi <= bs[j].next
    ensures forall y :: y in Offsets(bs, end) ==> hi <= y || y + ITEM <= lo
  {
    LayoutTiles(bs, end);
    EndsBy(bs, end);
    forall y | y in Offsets(bs, end)
      ensures hi <= y || y + ITEM <= lo
    {
      var i :| 0 <= i <= |bs| && Offsets(bs, end)[i] == y;
    }
  }

  ghost predicate SameAt<T>(f: map<int, T>, f': map<int, T>, x: int) {
    x in f ==> x in f' && f'[x] == f[x]
  }

  /** The links and flags of the pending items have changed, but not yet their words. */
  lemma BlocksPending(m: seq<byte>, site: Site, next: map<int, int>, prev: map<int, int>, inUse: map<int, bool>,
                      nodes: seq<int>, next': map<int, int>, prev': map<int, int>, inUse': map<int, bool>,
                      nodes': seq<int>, pending: set<int>)
    requires BlocksStored(m, site, next, prev, inUse, nodes, {})
    requires forall x :: x in nodes' && x !in pending ==>
               x in nodes && SameAt(next, next', x) && SameAt(prev, prev', x) && SameAt(inUse, inUse', x)
    ensures BlocksStored(m, site, next', prev', inUse', nodes', pending)
  {
    forall x | x in nodes' && x !in pending
      ensures BlockStored(m, site, next', prev', inUse', x)
    {
      assert BlockStored(m, site, next, prev, inUse, x);
    }
  }

  lemma LinksPending(m: seq<byte>, site: Site, next: map<int, int>, prev: map<int, int>, order: seq<int>, gone: set<int>,
                     next': map<int, int>, prev': map<int, int>, order': seq<int>, pending: set<int>)
    requires LinksStored(m, site, next, prev, order, gone)
    requires forall x :: x in order' && x !in pending ==>
               x in order && x !in gone && SameAt(next, next', x) && SameAt(prev, prev', x)
    ensures LinksStored(m, site, next', prev', order', pending)
  {
    forall x | x in order' && x !in pending
      ensures LinkStored(m, site, next', prev', x)
    {
      assert LinkStored(m, site, next, prev, x);
    }
  }

  lemma PartHolds(m: seq<byte>, x: int, w: seq<byte>, i: nat, j: nat)
    requires HoldsAt(m, x, w) && i <= j <= |w|
    ensures m[x + i..x + j] == w[i..j]
  {
    forall k | 0 <= k < j - i
      ensures m[x + i..x + j][k] == w[i..j][k]
    {
      assert m[x + i..x + j][k] == m[x + (i + k)] == m[x..x + |w|][i + k];
    }
  }

  lemma FourWords(a: seq<byte>, b: seq<byte>, c: seq<byte>, d: seq<byte>)
    requires |a| == |b| == |c| == |d| == 4
    ensures var w := a + b + c + d; w[0..4] == a && w[4..8] == b && w[8..12] == c && w[12..16] == d
  {
    assert a + b + c + d == (a + b) + (c + d);
  }

  /** What is read from the words of an item, for addresses of 32 bits. */
  lemma ItemReadBack(site: Site, used: bool, next: int, prev: int, m: seq<byte>, x: int)
    requires HoldsAt(m, x, BlockWords(site, used, next, prev))
    requires site.pool < 0x1_0000_0000 && Address(site, next) < 0x1_0000_0000 && Address(site, prev) < 0x1_0000_0000
    ensures Value(m[x..x + 4]) == (if used then MAGIC + 1 else MAGIC) && Value(m[x + 4..x + 8]) == site.pool
    ensures Value(m[x + 8..x + 12]) == Address(site, next) && Value(m[x + 12..x + 16]) == Address(site, prev)
  {
    Pow256Values();
    var magic, w := if used then MAGIC + 1 else MAGIC, BlockWords(site, used, next, prev);
    FourWords(Le(magic, 4), Le(site.pool, 4), Le(Address(site, next), 4), Le(Address(site, prev), 4));
    LeValue(magic, 4);
    LeValue(site.pool, 4);
    LeValue(Address(site, next), 4);
    LeValue(Address(site, prev), 4);
    PartHolds(m, x, w, 0, 4);
    PartHolds(m, x, w, 4, 8);
    PartHolds(m, x, w, 8, 12);
    PartHolds(m, x, w, 12, 16);
  }

  lemma LinkReadBack(next: nat, prev: nat, m: seq<byte>, x: int)
    requires HoldsAt(m, x, LinkWords(next, prev)) && next < 0x1_0000_0000 && prev < 0x1_0000_0000
    ensures Value(m[x..x + 4]) == next && Value(m[x + 4..x + 8]) == prev
  {
    Pow256Values();
    LeValue(next, 4);
    LeValue(prev, 4);
    var w := LinkWords(next, prev);
    assert w[0..4] == Le(next, 4) && w[4..8] == Le(prev, 4);
    PartHolds(m, x, w, 0, 4);
    PartHolds(m, x, w, 4, 8);
  }
}
