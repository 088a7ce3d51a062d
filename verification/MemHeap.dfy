/** The memheap allocator (memheap.c): one ring of all blocks, one ring of the free ones, and running totals. */
module MemHeap {
  import opened Prelude
  import opened HeapBlocks
  import opened Rings
  import opened PoolLayout
  import opened PoolItems
  import SmallHeap

  const NULL: int := -1

  /** The request that rt_memheap_alloc searches for: enough, at least the minimum, aligned, and no more than that takes. */
  function RequestSize(size: nat): (r: nat)
    ensures size <= r && MINIALLOC <= r && Aligned(r) && (r == MINIALLOC || r < size + 4)
  {
    if Align(size) < MINIALLOC then MINIALLOC else Align(size)
  }

  predicate Suits(b: Block, size: nat) {
    !b.used && Size(b) >= size
  }

  // ----- what the operations do to blocks and free order

  predicate Divides(b: Block, size: nat) {
    Size(b) >= size + ITEM + MINIALLOC
  }

  /** Block i is handed out for size bytes. */
  function Taken(bs: seq<Block>, i: nat, size: nat): seq<Block>
    requires i < |bs|
  {
    if Divides(bs[i], size) then SplitAt(bs, i, bs[i].at + ITEM + size) else Mark(bs, i, true)
  }

  /** It was entry k of the free ring; what is left of it becomes the first entry. */
  function TakenOrder(b: Block, order: seq<int>, k: nat, size: nat): seq<int>
    requires k < |order|
  {
    if Divides(b, size) then [b.at + ITEM + size] + Removed(order, k) else Removed(order, k)
  }

  /** Block i swallows a free block behind it. */
  function JoinNext(bs: seq<Block>, i: nat): seq<Block>
    requires i < |bs|
  {
    if RightFree(bs, i) then Swallow(bs, i) else bs
  }

  /** Whether block i has a free block before it. */
  predicate LeftFree(bs: seq<Block>, i: nat)
    requires i < |bs|
  {
    i > 0 && !bs[i - 1].used
  }

  predicate RightFree(bs: seq<Block>, i: nat)
    requires i < |bs|
  {
    i + 1 < |bs| && !bs[i + 1].used
  }

  /** Free block i is joined with a free block before it, then with one behind. */
  function Closed(bs: seq<Block>, i: nat): seq<Block>
    requires i < |bs|
  {
    if LeftFree(bs, i) then JoinNext(Swallow(bs, i - 1), i - 1) else JoinNext(bs, i)
  }

  /** Block i is given back. */
  function Freed(bs: seq<Block>, i: nat): seq<Block>
    requires i < |bs|
  {
    Closed(Mark(bs, i, false), i)
  }

  /** order without entry x. */
  function Without(order: seq<int>, x: int): seq<int> {
    if order == [] then [] else if order[0] == x then order[1..] else [order[0]] + Without(order[1..], x)
  }

  function FreedOrder(bs: seq<Block>, i: nat, order: seq<int>): seq<int>
    requires i < |bs|
  {
    var rest := if RightFree(bs, i) then Without(order, bs[i + 1].at) else order;
    if LeftFree(bs, i) then rest else [bs[i].at] + rest
  }

  lemma {:induction false} WithoutIsRemoved(order: seq<int>, k: nat)
    requires Distinct(order) && k < |order|
    ensures Without(order, order[k]) == Removed(order, k)
  {
    if k > 0 {
      DistinctTail(order, k);
      WithoutIsRemoved(order[1..], k - 1);
      assert [order[0]] + Removed(order[1..], k - 1) == Removed(order, k);
    }
  }

  lemma DistinctTail(order: seq<int>, k: nat)
    requires Distinct(order) && 0 < k < |order|
    ensures Distinct(order[1..]) && order[0] != order[k] == order[1..][k - 1]
  {
    DistinctIff(order);
    DistinctIff(order[1..]);
  }

  // ----- what is in use

  ghost predicate Flags(inUse: map<int, bool>, bs: seq<Block>, end: nat) {
    && (forall b :: b in bs ==> b.at in inUse && inUse[b.at] == b.used)
    && end in inUse && inUse[end]
  }

  lemma SplitFlags(inUse: map<int, bool>, bs: seq<Block>, i: nat, p: nat, end: nat)
    requires Layout(bs, end) && i < |bs| && bs[i].at < p < bs[i].next && Flags(inUse, bs, end)
    ensures Flags(inUse[p := false][bs[i].at := true], SplitAt(bs, i, p), end)
  {
    LayoutTiles(bs, end);
    SplitKeeps(bs, i, p);
    EndsBy(bs, end);
    var r := SplitAt(bs, i, p);
    forall b | b in r
      ensures var f := inUse[p := false][bs[i].at := true]; b.at in f && f[b.at] == b.used
    {
      if b in bs {
        if b == bs[i] {
          NotSplit(bs, end, i, p);
        } else {
          BlocksApart(bs, end, b, bs[i]);
        }
      }
    }
  }

  lemma StartBelow(bs: seq<Block>, end: nat, i: nat)
    requires Layout(bs, end) && i < |bs|
    ensures bs[i].at + ITEM < bs[i].next <= end
  {
    LayoutTiles(bs, end);
    EndsBy(bs, end);
  }

  lemma MarkFlags(inUse: map<int, bool>, bs: seq<Block>, i: nat, used: bool, end: nat)
    requires Layout(bs, end) && i < |bs| && Flags(inUse, bs, end)
    ensures Flags(inUse[bs[i].at := used], Mark(bs, i, used), end)
  {
    var r, f := Mark(bs, i, used), inUse[bs[i].at := used];
    MarkKeeps(bs, i, used);
    MarkLayout(bs, i, used, end);
    StartBelow(bs, end, i);
    assert r[i] in r;
    forall b | b in r
      ensures b.at in f && f[b.at] == b.used
    {
      if b.at == bs[i].at {
        StartsApart(r, end, b, r[i]);
      }
    }
  }

  lemma SwallowFlags(inUse: map<int, bool>, bs: seq<Block>, i: nat, end: nat)
    requires i + 1 < |bs| && Flags(inUse, bs, end)
    ensures Flags(inUse, Swallow(bs, i), end)
  {
    SwallowKeeps(bs, i);
    assert bs[i] in bs;
  }

  /** Both rings are rings, and the block ring is the layout. */
  ghost predicate RingsOk(bnext: map<int, int>, bprev: map<int, int>, bnodes: seq<int>,
                          fnext: map<int, int>, fprev: map<int, int>, fnodes: seq<int>,
                          inUse: map<int, bool>, bs: seq<Block>, end: nat) {
    && IsRing(bnext, bprev, bnodes) && IsRing(fnext, fprev, fnodes) && fnodes[0] == HEADER
    && Layout(bs, end) && bnodes == Offsets(bs, end) && Flags(inUse, bs, end)
  }

  // ----- the changes that a memheap undergoes

  /** A memheap's state, without the bytes: blocks, free ring and max_used_size; available_size is FreeBytes(bs). */
  datatype State = State(bs: seq<Block>, order: seq<int>, peak: int)

  function Peak(pool: nat, peak: int, bs: seq<Block>): int {
    if pool - FreeBytes(bs) > peak then pool - FreeBytes(bs) else peak
  }

  /** rt_memheap_alloc takes block i, entry k of the free ring. */
  ghost predicate TakeStep(pool: nat, s: State, size: nat, i: nat, k: nat, s': State) {
    && size < FreeBytes(s.bs) && FirstOnRing(s.bs, s.order, k, size)
    && i < |s.bs| && s.bs[i].at == s.order[k] && Suits(s.bs[i], size)
    && s' == State(Taken(s.bs, i, size), TakenOrder(s.bs[i], s.order, k, size), Peak(pool, s.peak, s'.bs))
  }

  /** rt_memheap_alloc takes some block, whose payload is at r. */
  ghost predicate Allocated(pool: nat, s: State, size: nat, r: int, s': State) {
    exists i: nat, k: nat :: TakeStep(pool, s, size, i, k, s') && r == s.bs[i].at + ITEM
  }

  /** rt_memheap_alloc refuses: too little is available, or no free block suits. */
  ghost predicate Refused(bs: seq<Block>, size: nat) {
    size >= FreeBytes(bs) || forall b :: b in bs ==> !Suits(b, size)
  }

  /** rt_memheap_free gives block i back. */
  ghost predicate GiveStep(s: State, i: nat, s': State) {
    i < |s.bs| && s.bs[i].used && s' == State(Freed(s.bs, i), FreedOrder(s.bs, i, s.order), s.peak)
  }

  /** rt_memheap_realloc moves the end of block i to offset p, into the free block behind. */
  ghost predicate GrowStep(pool: nat, s: State, p: nat, i: nat, s': State) {
    && i < |s.bs| && s.bs[i].used && RightFree(s.bs, i)
    && Aligned(p) && s.bs[i].next < p && p + ITEM + MINIALLOC <= s.bs[i + 1].next
    && s' == State(Grown(s.bs, i, p), [p] + Without(s.order, s.bs[i].next), Peak(pool, s.peak, s'.bs))
  }

  /** rt_memheap_realloc gives the tail of block i back, from offset p on. */
  ghost predicate TrimStep(s: State, p: nat, i: nat, s': State) {
    && i < |s.bs| && s.bs[i].used
    && Aligned(p) && s.bs[i].at + ITEM + MINIALLOC <= p && p + ITEM + MINIALLOC <= s.bs[i].next
    && var order := if RightFree(s.bs, i) then Without(s.order, s.bs[i + 1].at) else s.order;
    && s' == State(Shrunk(s.bs, i, p), [p] + order, s.peak)
  }

  /** rt_memheap_realloc takes a new block and gives block b back. */
  ghost predicate MoveSteps(pool: nat, s: State, b: Block, size: nat, s': State) {
    exists mid: State, i: nat, k: nat, j: nat ::
      TakeStep(pool, s, size, i, k, mid) && j < |mid.bs| && mid.bs[j] == b && GiveStep(mid, j, s')
  }

  /** rt_memheap_realloc of block i to an aligned size, if it does not fail. */
  ghost predicate ResizeSteps(pool: nat, s: State, i: nat, size: nat, s': State) {
    && i < |s.bs|
    && if !FitsInPlace(s.bs, i, size) then MoveSteps(pool, s, s.bs[i], size, s')
       else if size > Size(s.bs[i]) then GrowStep(pool, s, s.bs[i].at + ITEM + size, i, s')
       else if size + ITEM + MINIALLOC >= Size(s.bs[i]) then s' == s
       else TrimStep(s, s.bs[i].at + ITEM + size, i, s')
  }

  /** A block in use has its payload at r, with room for request bytes. */
  ghost predicate Serves(bs: seq<Block>, r: int, request: nat) {
    exists b :: b in bs && b.used && b.at + ITEM == r && request <= Size(b)
  }

  /** And with less to spare than another item with a minimal payload would take. */
  ghost predicate ServesClosely(bs: seq<Block>, r: int, request: nat) {
    exists b :: b in bs && b.used && b.at + ITEM == r && request <= Size(b)
                && (Size(b) < MINIALLOC + ITEM + MINIALLOC || Size(b) < request + 4 + ITEM + MINIALLOC)
  }

  /** A block that was taken serves the request. */
  lemma TakenServes(pool: nat, s: State, request: nat, i: nat, k: nat, s': State)
    requires TakeStep(pool, s, RequestSize(request), i, k, s')
    ensures Serves(s'.bs, s.bs[i].at + ITEM, request) && ServesClosely(s'.bs, s.bs[i].at + ITEM, request)
  {
    hide FirstOnRing, FreeBytes, RequestSize, TakenOrder;
    var size := RequestSize(request);
    TakenMembers(s.bs, i, size);
    TakenSize(s.bs, i, size);
    var b := s'.bs[i];
    assert b in s'.bs && request <= size <= Size(b);
  }

  lemma TakenSize(bs: seq<Block>, i: nat, size: nat)
    requires i < |bs|
    ensures var r := Taken(bs, i, size);
            i < |r| && if Divides(bs[i], size) then Size(r[i]) == size else Size(r[i]) == Size(bs[i]) < size + ITEM + MINIALLOC
  {
    if Divides(bs[i], size) {
      SplitPiece(bs, i, bs[i].at + ITEM + size, i);
    }
  }

  /** A block is cut behind the bytes that are taken exactly if an item with a minimal payload is left of it. */
  lemma TakenIff(bs: seq<Block>, i: nat, size: nat)
    requires i < |bs|
    ensures var r, p := Taken(bs, i, size), bs[i].at + ITEM + size;
            && i < |r| && r[i].used && r[i].at == bs[i].at
            && if p + ITEM + MINIALLOC <= bs[i].next then
                 && |r| == |bs| + 1 && r[i].next == p && r[i + 1] == Block(p, bs[i].next, false)
                 && r[..i] + r[i + 2..] == bs[..i] + bs[i + 1..]
               else |r| == |bs| && r[i].next == bs[i].next && r[..i] + r[i + 1..] == bs[..i] + bs[i + 1..]
  {
    if Divides(bs[i], size) {
      var r, p := Taken(bs, i, size), bs[i].at + ITEM + size;
      SplitPiece(bs, i, p, i);
      SplitPiece(bs, i, p, i + 1);
    }
  }

  // ----- the allocator

  class MemHeap {
    const poolSize: nat
    const site: Site
    const block: Ring
    const free: Ring
    const mem: array<byte>
    var inUse: map<int, bool>
    var available: int
    var maxUsed: int
    ghost var blocks: seq<Block>

    /** The offset of the tail item. */
    function End(): nat
    {
      if poolSize < ITEM then 0 else poolSize - ITEM
    }

    /** The offsets on the free ring, without the header. */
    ghost function Order(): seq<int>
      reads free
    {
      if free.nodes == [] then [] else free.nodes[1..]
    }

    ghost function View(): State
      reads this, free
    {
      State(blocks, Order(), maxUsed)
    }

    /** Both rings are rings, and the block ring is the layout. */
    ghost predicate Linked()
      reads this`inUse, this`blocks, block, free
    {
      && block != free && poolSize >= 2 * ITEM + MINIALLOC && mem.Length == poolSize
      && RingsOk(block.next, block.prev, block.nodes, free.next, free.prev, free.nodes, inUse, blocks, End())
    }

    /** The words of all items lie in memory, except those still to be written. */
    ghost predicate Written(blocksLeft: set<int>, linksLeft: set<int>)
      reads this`inUse, block, free, mem
    {
      && BlocksStored(mem[..], site, block.next, block.prev, inUse, block.nodes, blocksLeft)
      && LinksStored(mem[..], site, free.next, free.prev, Order(), linksLeft)
      && Among(Order(), linksLeft, block.nodes)
    }

    ghost predicate Shape()
      reads this`inUse, this`blocks, block, free, mem
    {
      Linked() && Written({}, {})
    }

    /** The rings agree, no two neighbours are free, and the totals are right. */
    ghost predicate Valid()
      reads this, block, free, mem
    {
      && Shape() && FreeOrder(blocks, Order()) && Spread(blocks)
      && available == FreeBytes(blocks) && maxUsed >= poolSize - available
    }

    /** rt_memheap_init */
    constructor (size: nat, site: Site)
      requires size >= 2 * ITEM + MINIALLOC && Aligned(size)
      ensures Valid() && fresh(block) && fresh(free) && fresh(mem) && poolSize == size && this.site == site
      ensures blocks == [Block(0, size - ITEM, false)] && Order() == [0]
      ensures maxUsed == poolSize - available
      ensures HoldsAt(mem[..], End() + LINKS, LinkWords(0, 0))
    {
      poolSize := size;
      this.site := site;
      mem := new byte[size](_ => 0);
      available := size - 2 * ITEM;
      maxUsed := size - (size - 2 * ITEM);
      inUse := map[0 := false, size - ITEM := true];
      blocks := [Block(0, size - ITEM, false)];
      var f := new Ring(HEADER);
      var b := new Ring(0);
      f.InsertAfter(HEADER, 0, 0);
      b.InsertAfter(0, size - ITEM, 0);
      free, block := f, b;
      new;
      FreshFacts(size);
      hide Layout, Spread, FreeOrder, FreeBytes;
      assert Order() == [0];
      StoreAll();
    }

    /** The words of the two items of a fresh pool. */
    method StoreAll()
      requires Linked() && blocks == [Block(0, End(), false)] && Order() == [0]
      modifies mem
      ensures Shape() && HoldsAt(mem[..], End() + LINKS, LinkWords(0, 0))
    {
      ghost var both := {0, End()};
      assert block.nodes[0] == 0 && block.nodes[1] == End() && block.nodes == [0, End()];
      assert free.nodes[1] == 0;
      hide Linked, BlocksStored, LinksStored, HoldsAt;
      AllPending();
      StoreBlock(0, both, {0});
      StoreLinks(0, both - {0}, {0});
      StoreBlock(End(), both - {0}, {0} - {0});
      ClearLinks(End(), both - {0} - {End()}, {0} - {0});
      assert both - {0} - {End()} == {} && {0} - {0} == {};
    }

    lemma AllPending()
      requires block.nodes == [0, End()] && Order() == [0]
      ensures Written({0, End()}, {0})
    {
    }

    /** What is known of an item on the block ring. */
    lemma ItemKnown(x: int)
      requires Linked() && x in block.nodes
      ensures x in block.next && x in block.prev && x in inUse && 0 <= x && x + ITEM <= mem.Length
    {
      var i :| 0 <= i < |block.nodes| && block.nodes[i] == x;
      assert LinkAt(block.next, block.prev, block.nodes, i);
      ItemsGap(blocks, End(), x, x);
      if i < |blocks| {
        assert blocks[i] in blocks;
      }
    }

    lemma NodeAt(k: nat)
      requires Linked() && k <= |blocks|
      ensures k < |block.nodes| && block.nodes[k] == if k < |blocks| then blocks[k].at else End()
    {
    }

    lemma LinkKnown(x: int)
      requires Linked() && x in free.nodes
      ensures x in free.next && x in free.prev && (x in Order() <==> x != HEADER)
    {
      DistinctIff(free.nodes);
      var i :| 0 <= i < |free.nodes| && free.nodes[i] == x;
      assert LinkAt(free.next, free.prev, free.nodes, i);
    }

    method StoreWords(x: nat, w: seq<byte>)
      requires x + |w| <= mem.Length
      modifies mem
      ensures HoldsAt(mem[..], x, w) && SmallHeap.SameOutside(old(mem[..]), mem[..], x, x + |w|)
    {
      for k := 0 to |w|
        modifies mem
        invariant mem[x..x + k] == w[..k]
        invariant forall j :: 0 <= j < mem.Length && !(x <= j < x + k) ==> mem[j] == old(mem[j])
      {
        mem[x + k] := w[k];
      }
      assert mem[..][x..x + |w|] == mem[x..x + |w|];
    }

    /** magic, pool_ptr, next and prev of the item at x */
    method StoreBlock(x: nat, ghost blocksLeft: set<int>, ghost linksLeft: set<int>)
      requires Linked() && Written(blocksLeft, linksLeft) && x in block.nodes
      modifies mem
      ensures Linked() && Written(blocksLeft - {x}, linksLeft) && KeptPayloads(blocks, old(mem[..]), mem[..])
    {
      ghost var m := mem[..];
      ItemKnown(x);
      StoreWords(x, BlockWords(site, inUse[x], block.next[x], block.prev[x]));
      BlockWritten(m, mem[..], site, block.next, block.prev, inUse, blocks, End(), x, blocksLeft);
      ItemWriteKeeps(blocks, End(), x, m, mem[..], x, x + LINKS);
      forall y | y in Order() && y !in linksLeft
        ensures x + LINKS <= y + LINKS || y + ITEM <= x
      {
        ItemsGap(blocks, End(), x, y);
      }
      LinksStay(m, mem[..], site, free.next, free.prev, Order(), x, x + LINKS, linksLeft, {});
      assert linksLeft - {} == linksLeft;
    }

    /** The last two words of item x. */
    method StoreTail(x: nat, w: seq<byte>, ghost blocksLeft: set<int>, ghost linksLeft: set<int>)
      requires Linked() && Written(blocksLeft, linksLeft) && x in block.nodes && |w| == ITEM - LINKS
      modifies mem
      ensures Linked() && Written(blocksLeft, linksLeft + {x}) && KeptPayloads(blocks, old(mem[..]), mem[..])
      ensures HoldsAt(mem[..], x + LINKS, w)
    {
      ghost var m := mem[..];
      ItemKnown(x);
      StoreWords(x + LINKS, w);
      ItemWriteKeeps(blocks, End(), x, m, mem[..], x + LINKS, x + ITEM);
      forall y | y in block.nodes
        ensures Gap(x, y)
      {
        ItemsGap(blocks, End(), x, y);
      }
      BlocksStay(m, mem[..], site, block.next, block.prev, inUse, blocks, End(), x + LINKS, x + ITEM, blocksLeft);
      LinksStay(m, mem[..], site, free.next, free.prev, Order(), x + LINKS, x + ITEM, linksLeft + {x}, {});
      assert linksLeft + {x} - {} == linksLeft + {x};
    }

    /** next_free and prev_free of the node at x on the free ring; free_header lies outside the pool. */
    method StoreLinks(x: int, ghost blocksLeft: set<int>, ghost linksLeft: set<int>)
      requires Linked() && Written(blocksLeft, linksLeft) && x in free.nodes && (x == HEADER || x in block.nodes)
      modifies mem
      ensures Linked() && Written(blocksLeft, linksLeft - {x}) && KeptPayloads(blocks, old(mem[..]), mem[..])
    {
      LinkKnown(x);
      if x != HEADER {
        ItemKnown(x);
        StoreTail(x, LinkWords(Address(site, free.next[x]), Address(site, free.prev[x])), blocksLeft, linksLeft);
        assert LinkStored(mem[..], site, free.next, free.prev, x);
      }
    }

    /** next_free and prev_free of an item that is not on the free ring become NULL. */
    method ClearLinks(x: nat, ghost blocksLeft: set<int>, ghost linksLeft: set<int>)
      requires Linked() && Written(blocksLeft, linksLeft) && x in block.nodes && x !in Order()
      modifies mem
      ensures Linked() && Written(blocksLeft, linksLeft) && KeptPayloads(blocks, old(mem[..]), mem[..])
      ensures HoldsAt(mem[..], x + LINKS, LinkWords(0, 0))
    {
      StoreTail(x, LinkWords(0, 0), blocksLeft, linksLeft);
    }

    /** What the links of block i say. */
    lemma BlockLinks(i: nat)
      requires Linked() && i < |blocks|
      ensures blocks[i].at in block.next && block.next[blocks[i].at] == blocks[i].next
      ensures blocks[i].at in block.prev && block.prev[blocks[i].at] == if i == 0 then End() else blocks[i - 1].at
      ensures blocks[i].at in inUse && inUse[blocks[i].at] == blocks[i].used
      ensures blocks[i].next in inUse
      ensures inUse[blocks[i].next] == if i + 1 < |blocks| then blocks[i + 1].used else true
      ensures blocks[i].next == if i + 1 < |blocks| then blocks[i + 1].at else End()
      ensures blocks[i].next <= End()
    {
      LayoutTiles(blocks, End());
      assert LinkAt(block.next, block.prev, block.nodes, i);
      EndsBy(blocks, End());
      assert blocks[i] in blocks;
      if i + 1 < |blocks| {
        assert blocks[i + 1] in blocks;
      }
    }

    lemma Bounded()
      requires Linked()
      ensures Layout(blocks, End()) && End() <= mem.Length == poolSize
    {
    }

    lemma BlockSize(i: nat)
      requires Linked() && i < |blocks|
      ensures Size(blocks[i]) >= MINIALLOC && Aligned(blocks[i].at)
    {
      assert BlockOk(blocks, End(), i);
    }

    /** A new free item at offset p2 of block i, behind the block's own item, which becomes used: links and flags. */
    method CutLinks(p: nat, p2: nat, ghost i: nat)
      requires Shape() && i < |blocks| && p == blocks[i].at && Aligned(p2)
      requires p + ITEM + MINIALLOC <= p2 && p2 + ITEM + MINIALLOC <= blocks[i].next
      modifies block, this`inUse, this`blocks
      ensures Linked() && Written({p, p2, old(blocks)[i].next}, {}) && blocks == SplitAt(old(blocks), i, p2)
      ensures p in block.nodes && p2 in block.nodes && old(blocks)[i].next in block.nodes
      ensures p2 in block.next && block.next[p2] == old(blocks)[i].next
    {
      hide BlocksStored, LinksStored, Layout, BlockOk, Flags, SplitAt;
      SplitLayout(blocks, i, p2, End());
      SplitOffsets(blocks, i, p2, End());
      OffsetsFresh(blocks, End(), i, p2);
      SplitFlags(inUse, blocks, i, p2, End());
      BlockLinks(i);
      ghost var next, prev, used, nodes := block.next, block.prev, inUse, block.nodes;
      inUse := inUse[p2 := false];
      block.InsertAfter(p, p2, i);
      inUse := inUse[p := true];
      blocks := SplitAt(blocks, i, p2);
      BlocksPending(mem[..], site, next, prev, used, nodes, block.next, block.prev, inUse, block.nodes,
                    {p, p2, old(blocks)[i].next});
    }

    /** A new free item at offset p2 of block i, behind the block's own item. */
    method Cut(p: nat, p2: nat, ghost i: nat)
      requires Shape() && i < |blocks| && p == blocks[i].at && Aligned(p2)
      requires p + ITEM + MINIALLOC <= p2 && p2 + ITEM + MINIALLOC <= blocks[i].next
      modifies block, this`inUse, this`blocks, mem
      ensures Shape() && blocks == SplitAt(old(blocks), i, p2) && KeptPayloads(blocks, old(mem[..]), mem[..])
    {
      hide Linked, Written, KeptPayloads;
      CutLinks(p, p2, i);
      var next := block.next[p2];
      ghost var left, m0 := {p, p2, next}, mem[..];
      StoreBlock(p2, left, {});
      ghost var m1 := mem[..];
      StoreBlock(next, left - {p2}, {});
      ghost var m2 := mem[..];
      StoreBlock(p, left - {p2} - {next}, {});
      KeptTwice(blocks, m0, m1, m2);
      KeptTwice(blocks, m0, m2, mem[..]);
      assert left - {p2} - {next} - {p} == {};
    }

    /** The item behind block i leaves the block ring: links. */
    method JoinLinks(q: nat, ghost i: nat)
      requires Shape() && i + 1 < |blocks| && q == blocks[i + 1].at
      modifies block, this`blocks
      ensures Linked() && Written({old(blocks)[i].at, old(blocks)[i + 1].next}, {q}) && blocks == Swallow(old(blocks), i)
      ensures q !in old(Order()) ==> Written({old(blocks)[i].at, old(blocks)[i + 1].next}, {})
      ensures old(blocks)[i].at in block.nodes && old(blocks)[i + 1].next in block.nodes && Order() == old(Order())
    {
      hide BlocksStored, LinkStored, Layout, BlockOk, Flags, Swallow;
      SwallowLayout(blocks, i, End());
      SwallowOffsets(blocks, i, End());
      SwallowFlags(inUse, blocks, i, End());
      BlockLinks(i);
      BlockLinks(i + 1);
      ghost var next, prev, nodes := block.next, block.prev, block.nodes;
      block.Unlink(q, i + 1);
      blocks := Swallow(blocks, i);
      RemovedDistinct(nodes, i + 1);
      BlocksPending(mem[..], site, next, prev, inUse, nodes, block.next, block.prev, inUse, block.nodes,
                    {old(blocks)[i].at, old(blocks)[i + 1].next});
    }

    /** The item behind block i leaves the block ring. */
    method Join(p: nat, q: nat, ghost i: nat)
      requires Shape() && i + 1 < |blocks| && p == blocks[i].at && q == blocks[i + 1].at
      modifies block, this`blocks, mem
      ensures Linked() && Written({}, {q}) && blocks == Swallow(old(blocks), i) && Order() == old(Order())
      ensures q !in Order() ==> Shape()
      ensures KeptPayloads(blocks, old(mem[..]), mem[..])
    {
      hide BlocksStored, LinkStored, KeptPayloads, RingsOk;
      BlockLinks(i + 1);
      var next := block.next[q];
      JoinLinks(q, i);
      ghost var left, gone, m0 := {p, next}, if q in Order() then {q} else {}, mem[..];
      StoreBlock(p, left, gone);
      ghost var m1 := mem[..];
      StoreBlock(next, left - {p}, gone);
      KeptTwice(blocks, m0, m1, mem[..]);
      assert left - {p} - {next} == {};
    }

    method SetUsed(p: nat, used: bool, ghost i: nat)
      requires Shape() && i < |blocks| && p == blocks[i].at
      modifies this`inUse, this`blocks, mem
      ensures Shape() && blocks == Mark(old(blocks), i, used) && KeptPayloads(blocks, old(mem[..]), mem[..])
    {
      hide BlocksStored, LinksStored, KeptPayloads, Layout, BlockOk, Mark;
      MarkLayout(blocks, i, used, End());
      MarkOffsets(blocks, i, used, End());
      MarkFlags(inUse, blocks, i, used, End());
      ghost var flags := inUse;
      inUse := inUse[p := used];
      blocks := Mark(blocks, i, used);
      BlocksPending(mem[..], site, block.next, block.prev, flags, block.nodes, block.next, block.prev, inUse, block.nodes, {p});
      assert block.nodes[i] == p;
      StoreBlock(p, {p}, {});
      assert {p} - {p} == {};
    }

    /** An item becomes the first on the free ring: links. */
    method InsertLinks(n: nat)
      requires Shape() && n !in Order() && n in block.nodes
      modifies free
      ensures Linked() && Written({}, {n, Succ(old(free.nodes), 0)}) && Order() == [n] + old(Order())
      ensures n in free.next && free.next[n] == Succ(old(free.nodes), 0)
      ensures var s := Succ(old(free.nodes), 0); n in free.nodes && s in free.nodes && (s == HEADER || s in block.nodes)
    {
      hide BlocksStored, LinksStored;
      assert free.nodes == [HEADER] + free.nodes[1..];
      ghost var next, prev, order := free.next, free.prev, Order();
      free.InsertAfter(HEADER, n, 0);
      DistinctIff(free.nodes);
      LinksPending(mem[..], site, next, prev, order, {}, free.next, free.prev, Order(), {n, Succ(old(free.nodes), 0)});
    }

    /** An item becomes the first on the free ring. */
    method FreeInsert(n: nat)
      requires Shape() && n !in Order() && n in block.nodes
      modifies free, mem
      ensures Shape() && Order() == [n] + old(Order()) && KeptPayloads(blocks, old(mem[..]), mem[..])
    {
      hide BlocksStored, LinksStored, KeptPayloads, RingsOk;
      InsertLinks(n);
      var next := free.next[n];
      ghost var left, m0 := {n, next}, mem[..];
      StoreLinks(n, {}, left);
      ghost var m1 := mem[..];
      StoreLinks(next, {}, left - {n});
      KeptTwice(blocks, m0, m1, mem[..]);
      assert left - {n} - {next} == {};
    }

    /** An item leaves the free ring: links. */
    method RemoveLinks(n: nat, ghost k: nat)
      requires Linked() && Written({}, {n}) && k < |Order()| && Order()[k] == n
      modifies free
      ensures Linked() && Written({}, {Pred(old(free.nodes), k + 1), Succ(old(free.nodes), k + 1)})
      ensures Order() == Removed(old(Order()), k)
      ensures var p, s := Pred(old(free.nodes), k + 1), Succ(old(free.nodes), k + 1);
              p in free.nodes && s in free.nodes && (p == HEADER || p in block.nodes) && (s == HEADER || s in block.nodes)
    {
      hide BlocksStored, LinksStored, Layout, Flags;
      ghost var next, prev, order, nodes := free.next, free.prev, Order(), free.nodes;
      TailRemoved(nodes, k);
      hide Distinct;
      free.Unlink(n, k + 1);
      LinksPending(mem[..], site, next, prev, order, {n}, free.next, free.prev, Order(),
                   {Pred(nodes, k + 1), Succ(nodes, k + 1)});
    }

    /** What leaves the ring leaves the list behind its head. */
    lemma TailRemoved(nodes: seq<int>, k: nat)
      requires Distinct(nodes) && k + 1 < |nodes|
      ensures Removed(nodes, k + 1)[1..] == Removed(nodes[1..], k) && Removed(nodes, k + 1)[0] == nodes[0]
      ensures forall x :: x in Removed(nodes[1..], k) <==> x in nodes[1..] && x != nodes[k + 1]
      ensures forall x :: x in nodes <==> x == nodes[0] || x in nodes[1..]
      ensures Pred(nodes, k + 1) in nodes && Succ(nodes, k + 1) in nodes
      ensures Pred(nodes, k + 1) != nodes[k + 1] && Succ(nodes, k + 1) != nodes[k + 1]
    {
      DistinctIff(nodes);
      DistinctIff(nodes[1..]);
      RemovedDistinct(nodes[1..], k);
      assert nodes == [nodes[0]] + nodes[1..];
    }

    /** An item leaves the free ring. */
    method FreeRemove(n: nat, ghost k: nat)
      requires Linked() && Written({}, {n}) && k < |Order()| && Order()[k] == n
      modifies free, mem
      ensures Shape() && Order() == Removed(old(Order()), k) && KeptPayloads(blocks, old(mem[..]), mem[..])
    {
      hide BlocksStored, LinksStored, KeptPayloads;
      assert LinkAt(free.next, free.prev, free.nodes, k + 1);
      hide RingsOk;
      var next, prev := free.next[n], free.prev[n];
      RemoveLinks(n, k);
      ghost var left, m0 := {prev, next}, mem[..];
      StoreLinks(next, {}, left);
      ghost var m1 := mem[..];
      StoreLinks(prev, {}, left - {next});
      KeptTwice(blocks, m0, m1, mem[..]);
      assert left - {next} - {prev} == {};
    }

    /** rt_memheap_alloc, splitting: the front of block i is handed out, the rest becomes the first free item. */
    method TakeFront(p: nat, p2: nat, ghost i: nat, ghost k: nat)
      requires Shape() && FreeOrder(blocks, Order()) && i < |blocks| && k < |Order()|
      requires p == blocks[i].at == Order()[k] && !blocks[i].used && Aligned(p2)
      requires p + ITEM + MINIALLOC <= p2 && p2 + ITEM + MINIALLOC <= blocks[i].next
      modifies block, free, this`inUse, this`blocks, mem
      ensures Shape() && FreeOrder(blocks, Order())
      ensures blocks == SplitAt(old(blocks), i, p2) && Order() == [p2] + Removed(old(Order()), k)
      ensures KeptPayloads(old(blocks), old(mem[..]), mem[..]) && HoldsAt(mem[..], p + LINKS, LinkWords(0, 0))
    {
      SplitOrder(blocks, End(), i, p2, Order(), k);
      RemovedDistinct(Order(), k);
      hide Layout, BlockOk, FreeOrder, Linked, Written, Covers, KeptPayloads, SplitAt, HoldsAt;
      TakeCovers(blocks, i, p2);
      ghost var m0, before := mem[..], blocks;
      Cut(p, p2, i);
      ghost var m1 := mem[..];
      CutNodes(before, i, p2);
      FreeRemove(p, k);
      ghost var m2 := mem[..];
      FreeInsert(p2);
      ghost var m3 := mem[..];
      ClearLinks(p, {}, {});
      KeptTwice(blocks, m0, m1, m2);
      KeptTwice(blocks, m0, m2, m3);
      KeptTwice(blocks, m0, m3, mem[..]);
      KeptCovered(before, blocks, m0, mem[..]);
    }

    /** Both parts of a cut are on the block ring. */
    lemma CutNodes(before: seq<Block>, i: nat, p2: nat)
      requires Linked() && i < |before| && blocks == SplitAt(before, i, p2)
      ensures before[i].at in block.nodes && p2 in block.nodes
    {
      SplitPiece(before, i, p2, i);
      SplitPiece(before, i, p2, i + 1);
      assert block.nodes[i] == before[i].at && block.nodes[i + 1] == p2;
    }

    /** rt_memheap_alloc, not splitting: block i is handed out whole. */
    method TakeAll(p: nat, ghost i: nat, ghost k: nat)
      requires Shape() && FreeOrder(blocks, Order()) && i < |blocks| && k < |Order()|
      requires p == blocks[i].at == Order()[k] && !blocks[i].used
      modifies free, this`inUse, this`blocks, mem
      ensures Shape() && FreeOrder(blocks, Order())
      ensures blocks == Mark(old(blocks), i, true) && Order() == Removed(old(Order()), k)
      ensures KeptPayloads(old(blocks), old(mem[..]), mem[..]) && HoldsAt(mem[..], p + LINKS, LinkWords(0, 0))
    {
      UseOrder(blocks, End(), i, Order(), k);
      RemovedDistinct(Order(), k);
      hide Layout, BlockOk, FreeOrder, Written, Covers, KeptPayloads, Mark, HoldsAt;
      TakeCovers(blocks, i, 0);
      ghost var m0, before := mem[..], blocks;
      assert block.nodes[i] == p;
      FreeRemove(p, k);
      ghost var m1 := mem[..];
      SetUsed(p, true, i);
      KeptCovered(before, blocks, m1, mem[..]);
      ghost var m2 := mem[..];
      MarkOffsets(before, i, true, End());
      ClearLinks(p, {}, {});
      KeptCovered(before, blocks, m2, mem[..]);
      KeptTwice(before, m0, m1, m2);
      KeptTwice(before, m0, m2, mem[..]);
    }

    /** The statistics after available_size went down. */
    method Spend(n: int)
      modifies this`available, this`maxUsed
      ensures available == old(available) - n
      ensures maxUsed == if poolSize - available > old(maxUsed) then poolSize - available else old(maxUsed)
    {
      available := available - n;
      if poolSize - available > maxUsed {
        maxUsed := poolSize - available;
      }
    }

    /** rt_memheap_alloc, once the block is found. */
    method Take(p: nat, size: nat, ghost i: nat, ghost k: nat)
      requires Valid() && i < |blocks| && k < |Order()| && p == blocks[i].at == Order()[k]
      requires Suits(blocks[i], size) && size >= MINIALLOC && Aligned(size)
      modifies this, block, free, mem
      ensures Valid() && blocks == Taken(old(blocks), i, size)
      ensures KeptPayloads(old(blocks), old(mem[..]), mem[..]) && HoldsAt(mem[..], p + LINKS, LinkWords(0, 0))
      ensures Order() == TakenOrder(old(blocks)[i], old(Order()), k, size)
      ensures maxUsed == if poolSize - available > old(maxUsed) then poolSize - available else old(maxUsed)
    {
      hide Linked, Written, FreeOrder, Spread, KeptPayloads, HoldsAt, FreeBytes, Taken, TakenOrder, SplitAt, Mark, Divides, Aligned,
           Removed;
      BlockLinks(i);
      var freeSize, p2 := block.next[p] - p - ITEM, p + ITEM + size;
      TakenFacts(blocks, i, size);
      TakenCases(blocks, i, Order(), k, size, p2);
      BlockSize(i);
      if freeSize >= size + ITEM + MINIALLOC {
        AlignedItem(p, size);
        Spend(size + ITEM);
        TakeFront(p, p2, i, k);
      } else {
        Spend(freeSize);
        TakeAll(p, i, k);
      }
    }

    /** Where the free ring goes from its node k. */
    lemma NextOnRing(k: nat)
      requires Linked() && k <= |Order()|
      ensures var x := if k == 0 then HEADER else Order()[k - 1];
              x in free.next && free.next[x] == if k < |Order()| then Order()[k] else HEADER
    {
      assert LinkAt(free.next, free.prev, free.nodes, k);
    }

    /** Entry k of the free ring, as the search reads it. */
    lemma FreeSize(k: nat)
      requires Linked() && FreeOrder(blocks, Order()) && k < |Order()|
      ensures var x := Order()[k];
              && FreeIn(blocks, x) && x != HEADER && x in block.next
              && block.next[x] - x - ITEM == Size(BlockAt(blocks, x)) && !BlockAt(blocks, x).used
    {
      var x := Order()[k];
      assert x in Order() && (FreeIn(blocks, x) <==> x in Order());
      BlockLinks(IndexAt(blocks, x));
    }

    /** The search over the free ring. */
    method FindFree(size: nat) returns (ptr: int, ghost k: nat)
      requires Linked() && FreeOrder(blocks, Order()) && size > 0
      ensures ptr == HEADER ==> forall b :: b in blocks ==> !Suits(b, size)
      ensures ptr != HEADER ==> FirstOnRing(blocks, Order(), k, size) && ptr == Order()[k]
    {
      Bounded();
      hide Linked, FreeOrder, FreeIn, BlockAt, Layout;
      var freeSize := 0;
      NextOnRing(0);
      ptr := free.next[HEADER];
      k := 0;
      while ptr != HEADER && freeSize < size
        invariant k <= |Order()| && ptr == (if k < |Order()| then Order()[k] else HEADER)
        invariant forall j :: 0 <= j < k ==> FreeIn(blocks, Order()[j]) && !Suits(BlockAt(blocks, Order()[j]), size)
        invariant freeSize >= size ==> FirstOnRing(blocks, Order(), k, size)
        decreases |Order()| - k, size - freeSize
      {
        FreeSize(k);
        freeSize := block.next[ptr] - ptr - ITEM;
        if freeSize < size {
          NextOnRing(k + 1);
          ptr := free.next[ptr];
          k := k + 1;
        }
      }
      if ptr == HEADER {
        if k < |Order()| {
          FreeSize(k);
        }
        NothingSuits(blocks, End(), Order(), size);
      }
    }

    /** rt_memheap_alloc */
    method Alloc(request: nat) returns (r: int, ghost i: nat, ghost k: nat)
      requires Valid()
      modifies this, block, free, mem
      ensures Valid() && (r == NULL <==> Refused(old(blocks), RequestSize(request)))
      ensures r == NULL ==> View() == old(View()) && mem[..] == old(mem[..])
      ensures r != NULL ==>
                && TakeStep(poolSize, old(View()), RequestSize(request), i, k, View()) && r == old(blocks)[i].at + ITEM
                && HoldsAt(mem[..], r - ITEM + LINKS, LinkWords(0, 0))
      ensures r != NULL ==> ServesClosely(blocks, r, request)
      ensures KeptPayloads(old(blocks), old(mem[..]), mem[..])
    {
      hide Linked, Written, FreeOrder, Spread, KeptPayloads, HoldsAt, FreeBytes, Taken, TakenOrder, FirstOnRing, Suits,
           ServesClosely;
      var size := Align(request);
      if size < MINIALLOC {
        size := MINIALLOC;
      }
      r, i, k := NULL, 0, 0;
      KeptSame(blocks, mem[..]);
      if size < available {
        var p;
        p, k := FindFree(size);
        if p != HEADER {
          i := FirstBlock(blocks, Order(), k, size);
          ghost var s := View();
          Take(p, size, i, k);
          TakenServes(poolSize, s, request, i, k, View());
          r := p + ITEM;
        }
      }
    }

    /** rt_memheap_free, left merge: the free block before block i swallows it. */
    method MergeLeft(p: nat, ghost i: nat) returns (hdr: nat, insert: bool, ghost j: nat)
      requires Shape() && i < |blocks| && p == blocks[i].at && !blocks[i].used && HoleOrder(blocks, Order(), p)
      modifies block, this`available, this`blocks, mem
      ensures Shape() && blocks == (if LeftFree(old(blocks), i) then Swallow(old(blocks), i - 1) else old(blocks))
      ensures insert == !LeftFree(old(blocks), i) && j == (if insert then i else i - 1)
      ensures j < |blocks| && hdr == blocks[j].at && !blocks[j].used
      ensures HoleOrder(blocks, Order(), if insert then p else HEADER) && Order() == old(Order())
      ensures available == old(available) + if insert then 0 else ITEM
      ensures KeptPayloads(blocks, old(mem[..]), mem[..])
    {
      hdr, insert, j := p, true, i;
      BlockLinks(i);
      EndInUse();
      if i > 0 {
        BlockLinks(i - 1);
      }
      var prev := block.prev[p];
      if !inUse[prev] {
        LeftOrder(blocks, End(), i, Order());
        HoleNotIn(blocks, Order(), p);
        available := available + ITEM;
        Join(prev, p, i - 1);
        hdr, insert, j := prev, false, i - 1;
      }
    }

    lemma EndInUse()
      requires Shape()
      ensures End() in inUse && inUse[End()]
    {
    }

    /** The free block behind block j leaves both rings. */
    method JoinRight(p: nat, q: nat, ghost j: nat, ghost hole: int)
      requires Shape() && j < |blocks| && RightFree(blocks, j) && p == blocks[j].at && q == blocks[j + 1].at
      requires HoleOrder(blocks, Order(), hole) && (hole == p || hole == HEADER)
      modifies block, free, this`blocks, mem
      ensures Shape() && blocks == Swallow(old(blocks), j) && HoleOrder(blocks, Order(), hole)
      ensures Order() == Without(old(Order()), q)
      ensures KeptPayloads(blocks, old(mem[..]), mem[..])
    {
      ghost var k := RightOrder(blocks, End(), j, Order(), hole);
      hide Linked, Written, KeptPayloads, HoleOrder, Swallow;
      ghost var m0 := mem[..];
      Join(p, q, j);
      ghost var m1 := mem[..];
      FreeRemove(q, k);
      KeptTwice(blocks, m0, m1, mem[..]);
    }

    /** rt_memheap_free, right merge: block j swallows a free block behind it, which leaves the free ring. */
    method MergeRight(hdr: nat, ghost j: nat, ghost hole: int)
      requires Shape() && j < |blocks| && hdr == blocks[j].at && !blocks[j].used
      requires HoleOrder(blocks, Order(), hole) && (hole == hdr || hole == HEADER)
      modifies block, free, this`available, this`blocks, mem
      ensures Shape() && blocks == JoinNext(old(blocks), j) && HoleOrder(blocks, Order(), hole)
      ensures Order() == if RightFree(old(blocks), j) then Without(old(Order()), old(blocks)[j + 1].at) else old(Order())
      ensures available == old(available) + if RightFree(old(blocks), j) then ITEM else 0
      ensures KeptPayloads(blocks, old(mem[..]), mem[..])
    {
      BlockLinks(j);
      var q := block.next[hdr];
      if !inUse[q] {
        available := available + ITEM;
        JoinRight(hdr, q, j, hole);
      }
    }

    /** rt_memheap_free, from the merges on: block i is free, but not yet on the free ring. */
    method CloseHole(p: nat, ghost i: nat)
      requires Shape() && i < |blocks| && p == blocks[i].at && !blocks[i].used && HoleOrder(blocks, Order(), p)
      modifies this`available, this`blocks, block, free, mem
      ensures Shape() && FreeOrder(blocks, Order())
      ensures blocks == Closed(old(blocks), i) && Order() == FreedOrder(old(blocks), i, old(Order()))
      ensures available == old(available) + Gain(old(blocks), i)
      ensures KeptPayloads(blocks, old(mem[..]), mem[..])
    {
      SidesOf(blocks, i, Order());
      JoinNextKeeps(blocks, i);
      hide Linked, Written, KeptPayloads, Covers, HoleOrder, FreeOrder, Swallow, JoinNext, FreeIn;
      ghost var m0 := mem[..];
      var hdr, insert, j := MergeLeft(p, i);
      JoinNextCovers(blocks, j);
      ghost var m1, b1 := mem[..], blocks;
      MergeRight(hdr, j, if insert then p else HEADER);
      KeptCovered(blocks, b1, m0, m1);
      ghost var m2 := mem[..];
      KeptTwice(blocks, m0, m1, m2);
      if insert {
        FillHole(hdr);
        KeptTwice(blocks, m0, m2, mem[..]);
      } else {
        NoneMissing(blocks, Order());
      }
    }

    /** The item that is missing on the free ring becomes its first. */
    method FillHole(p: nat)
      requires Shape() && HoleOrder(blocks, Order(), p) && FreeIn(blocks, p)
      modifies free, mem
      ensures Shape() && FreeOrder(blocks, Order()) && Order() == [p] + old(Order())
      ensures KeptPayloads(blocks, old(mem[..]), mem[..])
    {
      FrontOrder(blocks, Order(), p);
      ghost var i := IndexAt(blocks, p);
      assert block.nodes[i] == p;
      FreeInsert(p);
    }

    /** rt_memheap_free of block i. */
    method FreeBlock(p: nat, ghost i: nat)
      requires Valid() && i < |blocks| && blocks[i].used && p == blocks[i].at
      modifies this`inUse, this`available, this`blocks, block, free, mem
      ensures Valid() && GiveStep(old(View()), i, View()) && KeptPayloads(blocks, old(mem[..]), mem[..])
    {
      hide Linked, Written, KeptPayloads, FreeOrder, Spread, FreeBytes, Gain, Freed, FreedOrder;
      Bounded();
      FreedFacts(blocks, i, End());
      BlockLinks(i);
      BlockSize(i);
      available := available + (block.next[p] - p - ITEM);
      Release(p, i);
    }

    /** rt_memheap_free, without the block's own bytes. */
    method Release(p: nat, ghost i: nat)
      requires Shape() && FreeOrder(blocks, Order()) && i < |blocks| && blocks[i].used && p == blocks[i].at
      modifies this`inUse, this`available, this`blocks, block, free, mem
      ensures Shape() && FreeOrder(blocks, Order())
      ensures blocks == Freed(old(blocks), i) && Order() == FreedOrder(old(blocks), i, old(Order()))
      ensures available == old(available) + Gain(old(blocks), i)
      ensures KeptPayloads(blocks, old(mem[..]), mem[..])
    {
      hide Linked, Written, KeptPayloads, Covers, HoleOrder, FreeOrder, Gain, Closed, FreedOrder;
      Bounded();
      FreedOrderFacts(blocks, i, End(), Order());
      ghost var m0 := mem[..];
      SetUsed(p, false, i);
      ghost var m1, marked := mem[..], blocks;
      ClosedMembers(marked, i);
      KeepsCovers(Closed(marked, i), marked);
      CloseHole(p, i);
      KeptCovered(blocks, marked, m0, m1);
      KeptTwice(blocks, m0, m1, mem[..]);
    }

    /** rt_memheap_realloc, growing in place: the boundary to the free block behind moves to offset p2. */
    method GrowInPlace(p: nat, p2: nat, ghost i: nat)
      requires Valid() && i < |blocks| && blocks[i].used && p == blocks[i].at && RightFree(blocks, i)
      requires Aligned(p2) && blocks[i].next < p2 && p2 + ITEM + MINIALLOC <= blocks[i + 1].next
      modifies this, block, free, mem
      ensures Valid() && GrowStep(poolSize, old(View()), p2, i, View())
      ensures KeptPayloads(old(blocks), old(mem[..]), mem[..])
    {
      hide Linked, Written, FreeOrder, Spread, FreeBytes, Grown, Covers, Without, KeptPayloads;
      BlockLinks(i);
      BlockSize(i);
      Bounded();
      GrownFacts(blocks, i, p2);
      GrownCovers(blocks, End(), i, p2);
      var next := block.next[p];
      Spend(p2 - next);
      MoveEnd(p, next, p2, i);
    }

    /** rt_memheap_realloc, growing in place: the free block behind leaves both rings and a smaller one joins them. */
    method MoveEnd(p: nat, next: nat, p2: nat, ghost i: nat)
      requires Shape() && FreeOrder(blocks, Order()) && i < |blocks| && blocks[i].used && p == blocks[i].at
      requires RightFree(blocks, i) && next == blocks[i].next == blocks[i + 1].at && Covers(blocks, Grown(blocks, i, p2))
      requires Aligned(p2) && next < p2 && p2 + ITEM + MINIALLOC <= blocks[i + 1].next && p + ITEM + MINIALLOC <= next
      modifies block, free, this`inUse, this`blocks, mem
      ensures Shape() && FreeOrder(blocks, Order()) && blocks == Grown(old(blocks), i, p2)
      ensures Order() == [p2] + Without(old(Order()), next)
      ensures KeptPayloads(old(blocks), old(mem[..]), mem[..])
    {
      SwallowPiece(blocks, i, i);
      SwallowCovers(blocks, i);
      ghost var before, m0 := blocks, mem[..];
      JoinRight(p, next, i, HEADER);
      CutOrder(blocks, End(), i, p2, Order());
      hide Linked, Written, KeptPayloads, Covers, HoleOrder, FreeOrder;
      ghost var m1 := mem[..];
      KeptCovered(before, blocks, m0, m1);
      Cut(p, p2, i);
      ghost var m2 := mem[..];
      FillHole(p2);
      KeptTwice(blocks, m1, m2, mem[..]);
      KeptCovered(before, blocks, m1, mem[..]);
      KeptTwice(before, m0, m1, mem[..]);
    }

    /** rt_memheap_realloc, shrinking in place: the tail from offset p2 on is given back. */
    method ShrinkInPlace(p: nat, p2: nat, ghost i: nat)
      requires Valid() && i < |blocks| && blocks[i].used && p == blocks[i].at
      requires Aligned(p2) && p + ITEM + MINIALLOC <= p2 && p2 + ITEM + MINIALLOC <= blocks[i].next
      modifies this, block, free, mem
      ensures Valid() && TrimStep(old(View()), p2, i, View()) && KeptPayloads(blocks, old(mem[..]), mem[..])
    {
      ShrunkFacts(blocks, i, p2, End());
      hide Linked, Written, KeptPayloads, FreeOrder, Spread, FreeBytes, Shrunk, Without;
      Trim(p, p2, i);
    }

    /** rt_memheap_realloc, shrinking: the cut and the merge behind it. */
    method Trim(p: nat, p2: nat, ghost i: nat)
      requires Shape() && FreeOrder(blocks, Order()) && Spread(blocks)
      requires i < |blocks| && blocks[i].used && p == blocks[i].at
      requires Aligned(p2) && p + ITEM + MINIALLOC <= p2 && p2 + ITEM + MINIALLOC <= blocks[i].next
      modifies this`inUse, this`available, this`blocks, block, free, mem
      ensures Shape() && FreeOrder(blocks, Order()) && blocks == Shrunk(old(blocks), i, p2)
      ensures Order() == [p2] + if RightFree(old(blocks), i) then Without(old(Order()), old(blocks)[i + 1].at) else old(Order())
      ensures available == old(available) + (old(blocks)[i].next - p2 - ITEM) + if RightFree(old(blocks), i) then ITEM else 0
      ensures KeptPayloads(blocks, old(mem[..]), mem[..])
    {
      hide Linked, Written, KeptPayloads, Covers, HoleOrder, FreeOrder, Spread, SplitAt, JoinNext, Without;
      ghost var m0 := mem[..];
      CutTail(p, p2, i);
      JoinNextCovers(blocks, i + 1);
      ghost var m1, cut := mem[..], blocks;
      GiveTail(p2, i + 1);
      KeptCovered(blocks, cut, m0, m1);
      KeptTwice(blocks, m0, m1, mem[..]);
    }

    /** rt_memheap_realloc, shrinking, up to the merge. */
    method CutTail(p: nat, p2: nat, ghost i: nat)
      requires Shape() && FreeOrder(blocks, Order()) && Spread(blocks)
      requires i < |blocks| && blocks[i].used && p == blocks[i].at
      requires Aligned(p2) && p + ITEM + MINIALLOC <= p2 && p2 + ITEM + MINIALLOC <= blocks[i].next
      modifies this`inUse, this`blocks, block, mem
      ensures Shape() && HoleOrder(blocks, Order(), p2) && blocks == SplitAt(old(blocks), i, p2)
      ensures i + 1 < |blocks| && blocks[i + 1] == Block(p2, old(blocks)[i].next, false)
      ensures RightFree(blocks, i + 1) == RightFree(old(blocks), i)
      ensures RightFree(old(blocks), i) ==> blocks[i + 2] == old(blocks)[i + 1]
      ensures KeptPayloads(blocks, old(mem[..]), mem[..]) && Order() == old(Order())
    {
      CutSides(blocks, i, p2);
      CutOrder(blocks, End(), i, p2, Order());
      Cut(p, p2, i);
    }

    /** rt_memheap_realloc, shrinking, behind the cut: free block j joins a free block behind it and goes on the free ring. */
    method GiveTail(p2: nat, ghost j: nat)
      requires Shape() && j < |blocks| && p2 == blocks[j].at && !blocks[j].used && HoleOrder(blocks, Order(), p2)
      modifies this`available, this`blocks, block, free, mem
      ensures Shape() && FreeOrder(blocks, Order()) && blocks == JoinNext(old(blocks), j)
      ensures Order() == [p2] + if RightFree(old(blocks), j) then Without(old(Order()), old(blocks)[j + 1].at) else old(Order())
      ensures available == old(available) + Size(old(blocks)[j]) + if RightFree(old(blocks), j) then ITEM else 0
      ensures KeptPayloads(blocks, old(mem[..]), mem[..])
    {
      JoinNextKeeps(blocks, j);
      BlockLinks(j);
      ghost var m0 := mem[..];
      var q := block.next[p2];
      if !inUse[q] {
        BlockLinks(j + 1);
        SwallowPiece(blocks, j, j);
        available := available - (block.next[q] - q - ITEM);
        JoinRight(p2, q, j, p2);
      }
      BlockLinks(j);
      ghost var m1 := mem[..];
      FillHole(p2);
      KeptTwice(blocks, m0, m1, mem[..]);
      available := available + (block.next[p2] - p2 - ITEM);
    }

    /** rt_memcpy from one payload to the start of that of block j. */
    method Memcpy(dst: nat, src: nat, n: nat, ghost j: nat)
      requires Valid() && Separate(src, dst, n, mem.Length)
      requires j < |blocks| && blocks[j].at + ITEM <= dst && dst + n <= blocks[j].next
      modifies mem
      ensures Valid()
      ensures SmallHeap.Copied(old(mem[..]), src, mem[..], dst, n)
      ensures SmallHeap.SameOutside(old(mem[..]), mem[..], dst, dst + n)
    {
      ghost var m := mem[..];
      CopyBytes(dst, src, n);
      PayloadGap(blocks, End(), j, dst, dst + n);
      BlocksStay(m, mem[..], site, block.next, block.prev, inUse, blocks, End(), dst, dst + n, {});
      ghost var none: set<int> := {};
      LinksStay(m, mem[..], site, free.next, free.prev, Order(), dst, dst + n, none, none);
      assert none - none == none;
    }

    method CopyBytes(dst: nat, src: nat, n: nat)
      requires Separate(src, dst, n, mem.Length)
      modifies mem
      ensures SmallHeap.Copied(old(mem[..]), src, mem[..], dst, n)
      ensures SmallHeap.SameOutside(old(mem[..]), mem[..], dst, dst + n)
    {
      for j := 0 to n
        invariant forall m :: dst <= m < dst + j ==> mem[m] == old(mem[src + (m - dst)])
        invariant forall k :: 0 <= k < mem.Length && !(dst <= k < dst + j) ==> mem[k] == old(mem[k])
      {
        mem[dst + j] := mem[src + j];
      }
    }

    /** rt_memheap_realloc, moving, once block j is the new block; the old one is now block i. */
    method CopyAndFree(p: nat, r: nat, n: nat, ghost i: nat, ghost j: nat)
      requires Valid() && i < |blocks| && blocks[i].used && p == blocks[i].at && Separate(p + ITEM, r, n, mem.Length)
      requires j < |blocks| && j != i && blocks[j].used && r == blocks[j].at + ITEM && n <= Size(blocks[j])
      modifies this`inUse, this`available, this`blocks, block, free, mem
      ensures Valid() && GiveStep(old(View()), i, View())
      ensures MovedBytes(old(mem[..]), p + ITEM, r, n, blocks, mem[..])
    {
      hide Linked, Written, KeptPayloads, FreeOrder, Spread, GiveStep, SmallHeap.Copied, SmallHeap.SameOutside;
      ghost var m0 := mem[..];
      Memcpy(r, p + ITEM, n, j);
      ghost var m1 := mem[..];
      FreeBlock(p, i);
      assert SmallHeap.Copied(m0, p + ITEM, m1, r, n) && SmallHeap.SameOutside(m0, m1, r, r + n);
    }

    /** rt_memheap_realloc, moving: allocate, copy, free; nothing changes when the allocation fails. */
    method Move(p: nat, size: nat, newsize: nat, ghost i: nat) returns (r: int)
      requires Valid() && i < |blocks| && blocks[i].used && p == blocks[i].at && size == Size(blocks[i])
      requires RequestSize(newsize) == newsize
      modifies this, block, free, mem
      ensures Valid() && (r == NULL <==> Refused(old(blocks), newsize))
      ensures r == NULL ==> View() == old(View()) && mem[..] == old(mem[..])
      ensures r != NULL ==>
                && r != p + ITEM && Resized(old(blocks), i, old(mem[..]), r, newsize, blocks, mem[..])
                && MoveSteps(poolSize, old(View()), old(blocks)[i], newsize, View())
    {
      hide Linked, Written, KeptPayloads, Resized, TakeStep, GiveStep, FreeOrder, Spread, FreeBytes, Refused, MoveSteps, HoldsAt,
           RequestSize;
      Bounded();
      ghost var s, m0 := View(), mem[..];
      ghost var j, k;
      r, j, k := Alloc(newsize);
      if r != NULL {
        TakenBlock(poolSize, s, newsize, j, k, View());
        ghost var mid := View();
        StartsDiffer(s.bs, End(), s.bs[i], s.bs[j]);
        var n := if size < newsize then size else newsize;
        MoveRange(s.bs, End(), i, j, newsize, n, mem.Length);
        ghost var i' := FinishMove(p, r, n, newsize, s.bs, i, j, m0);
        MovedBy(poolSize, s, mid, s.bs[i], newsize, j, k, i', View());
      }
    }

    /** rt_memheap_realloc, moving, once block j of before has become the new block. */
    method FinishMove(p: nat, r: nat, n: nat, newsize: nat, ghost before: seq<Block>, ghost i: nat, ghost j: nat,
                      ghost m0: seq<byte>)
      returns (ghost i': nat)
      requires Valid() && Layout(before, End()) && i < |before| && before[i].used && p == before[i].at
      requires n == Min(Size(before[i]), newsize) && j < |before| && Suits(before[j], newsize) && r == before[j].at + ITEM
      requires blocks == Taken(before, j, newsize) && Separate(p + ITEM, r, n, mem.Length)
      requires KeptPayloads(before, m0, mem[..])
      modifies this`inUse, this`available, this`blocks, block, free, mem
      ensures Valid() && Resized(before, i, m0, r, newsize, blocks, mem[..])
      ensures i' < |old(blocks)| && old(blocks)[i'] == before[i] && GiveStep(old(View()), i', View())
    {
      hide Layout, BlockOk, Resized, Taken, Suits, Written, FreeOrder, Spread, KeptPayloads, MovedBytes, Freed, FreedOrder;
      ghost var between, m1 := blocks, mem[..];
      i' := MovedIndex(before, End(), i, between, j, newsize);
      ghost var s := View();
      CopyAndFree(p, r, n, i', j);
      assert GiveStep(s, i', View());
      MoveResult(before, End(), i, between, i', j, newsize, m0, m1, mem[..], r);
    }

    /** rt_memheap_realloc, if the free block behind is large enough. */
    method TryGrow(p: nat, newsize: nat, ghost i: nat) returns (done: bool)
      requires Valid() && i < |blocks| && blocks[i].used && p == blocks[i].at
      requires newsize > Size(blocks[i]) && Aligned(newsize)
      modifies this, block, free, mem
      ensures Valid() && done == FitsInPlace(old(blocks), i, newsize)
      ensures !done ==> View() == old(View()) && mem[..] == old(mem[..])
      ensures done ==>
                && Resized(old(blocks), i, old(mem[..]), p + ITEM, newsize, blocks, mem[..])
                && GrowStep(poolSize, old(View()), p + ITEM + newsize, i, View())
    {
      hide Linked, Written, FreeOrder, Spread, FreeBytes, Resized, Grown, Without, KeptPayloads, Relocated;
      BlockLinks(i);
      BlockSize(i);
      var next := block.next[p];
      var oldsize := next - p - ITEM;
      done := false;
      if !inUse[next] {
        BlockLinks(i + 1);
        var nextsize := block.next[next] - next - ITEM;
        if nextsize + oldsize > newsize + MINIALLOC {
          AlignedItem(p, newsize);
          var p2 := p + ITEM + newsize;
          ghost var before, m0 := blocks, mem[..];
          Bounded();
          GrownMembers(blocks, i, p2, End());
          GrowInPlace(p, p2, i);
          KeptInPlace(before, End(), i, blocks, newsize, m0, mem[..]);
          done := true;
        }
      }
    }

    /** rt_memheap_realloc, if more than an item's room is left over. */
    method TryShrink(p: nat, newsize: nat, ghost i: nat)
      requires Valid() && i < |blocks| && blocks[i].used && p == blocks[i].at
      requires MINIALLOC <= newsize <= Size(blocks[i]) && Aligned(newsize)
      modifies this, block, free, mem
      ensures Valid() && Resized(old(blocks), i, old(mem[..]), p + ITEM, newsize, blocks, mem[..])
      ensures ResizeSteps(poolSize, old(View()), i, newsize, View())
    {
      hide Linked, Written, FreeOrder, Spread, FreeBytes, Resized, Shrunk, Without, KeptPayloads, Relocated;
      BlockLinks(i);
      BlockSize(i);
      Bounded();
      ghost var before, m0 := blocks, mem[..];
      if newsize + ITEM + MINIALLOC >= block.next[p] - p - ITEM {
        SameRelocated(blocks, End(), i, newsize);
        KeptSame(blocks, m0);
        KeptInPlace(before, End(), i, blocks, newsize, m0, m0);
        return;
      }
      AlignedItem(p, newsize);
      var p2 := p + ITEM + newsize;
      ShrunkMembers(blocks, i, p2, End());
      ShrinkInPlace(p, p2, i);
      ShrunkKept(before, End(), i, blocks, newsize, m0, mem[..]);
    }

    /** rt_memheap_realloc of a live block to a larger size. */
    method Enlarge(p: nat, oldsize: nat, newsize: nat, ghost i: nat) returns (r: int)
      requires Valid() && i < |blocks| && blocks[i].used && p == blocks[i].at && oldsize == Size(blocks[i]) < newsize
      requires RequestSize(newsize) == newsize
      modifies this, block, free, mem
      ensures Valid() && (r == NULL <==> !FitsInPlace(old(blocks), i, newsize) && Refused(old(blocks), newsize))
      ensures r == NULL ==> View() == old(View()) && mem[..] == old(mem[..])
      ensures r == p + ITEM <==> FitsInPlace(old(blocks), i, newsize)
      ensures r != NULL ==>
                && Resized(old(blocks), i, old(mem[..]), r, newsize, blocks, mem[..])
                && ResizeSteps(poolSize, old(View()), i, newsize, View())
    {
      hide Linked, Written, FreeOrder, Spread, FreeBytes, Resized, GrowStep, MoveSteps, TrimStep, Refused;
      var done := TryGrow(p, newsize, i);
      if done {
        return p + ITEM;
      }
      r := Move(p, oldsize, newsize, i);
    }

    /** rt_memheap_realloc of a live block to a non-zero size, aligned and at least the minimum. */
    method Resize(p: nat, newsize: nat, ghost i: nat) returns (r: int)
      requires Valid() && i < |blocks| && blocks[i].used && p == blocks[i].at
      requires RequestSize(newsize) == newsize
      modifies this, block, free, mem
      ensures Valid() && (r == NULL <==> !FitsInPlace(old(blocks), i, newsize) && Refused(old(blocks), newsize))
      ensures r == NULL ==> View() == old(View()) && mem[..] == old(mem[..])
      ensures r == p + ITEM <==> FitsInPlace(old(blocks), i, newsize)
      ensures r != NULL ==>
                && Resized(old(blocks), i, old(mem[..]), r, newsize, blocks, mem[..])
                && ResizeSteps(poolSize, old(View()), i, newsize, View())
    {
      hide Linked, Written, FreeOrder, Spread, FreeBytes, Resized, ResizeSteps, Refused, RequestSize, Aligned;
      RequestAligned(newsize);
      BlockLinks(i);
      BlockSize(i);
      var oldsize := block.next[p] - p - ITEM;
      if newsize > oldsize {
        r := Enlarge(p, oldsize, newsize, i);
        return;
      }
      TryShrink(p, newsize, i);
      r := p + ITEM;
    }

    /** rt_memheap_realloc; ptr is NULL or the payload of block i, which is in use. */
    method Realloc(ptr: int, request: nat, ghost i: nat) returns (r: int)
      requires Valid()
      requires ptr != NULL ==> i < |blocks| && blocks[i].used && ptr == blocks[i].at + ITEM
      modifies this, block, free, mem
      ensures Valid()
      ensures request == 0 ==> r == NULL && KeptPayloads(blocks, old(mem[..]), mem[..])
      ensures request == 0 && ptr != NULL ==> GiveStep(old(View()), i, View())
      ensures request > 0 && ptr == NULL ==>
                && (r == NULL <==> Refused(old(blocks), RequestSize(request)))
                && (r != NULL ==> Allocated(poolSize, old(View()), RequestSize(request), r, View()))
                && KeptPayloads(old(blocks), old(mem[..]), mem[..])
      ensures request > 0 && ptr != NULL ==>
                && (r == ptr <==> FitsInPlace(old(blocks), i, RequestSize(request)))
                && (r == NULL <==> r != ptr && Refused(old(blocks), RequestSize(request)))
      ensures request > 0 && ptr != NULL && r != NULL ==>
                && Resized(old(blocks), i, old(mem[..]), r, RequestSize(request), blocks, mem[..])
                && ResizeSteps(poolSize, old(View()), i, RequestSize(request), View())
      ensures r != NULL ==> Serves(blocks, r, request)
      ensures r == NULL && !(request == 0 && ptr != NULL) ==> View() == old(View()) && mem[..] == old(mem[..])
    {
      hide Linked, Written, KeptPayloads, FreeOrder, Spread, Resized, ResizeSteps, GiveStep, TakeStep, Refused, FitsInPlace,
           Serves, ServesClosely;
      if request == 0 {
        if ptr != NULL {
          FreeBlock(ptr - ITEM, i);
        } else {
          KeptSame(blocks, mem[..]);
        }
        return NULL;
      }
      var newsize := Align(request);
      if newsize < MINIALLOC {
        newsize := MINIALLOC;
      }
      RequestTwice(request);
      if ptr == NULL {
        ghost var j, k;
        r, j, k := Alloc(newsize);
        if r != NULL {
          ClosestServes(blocks, r, newsize, request);
        }
        return;
      }
      ghost var before, m0 := blocks, mem[..];
      r := Resize(ptr - ITEM, newsize, i);
      if r != NULL {
        ResizedServes(before, i, m0, r, newsize, blocks, mem[..], request);
      }
    }

    lemma BlockWordsInMemory(i: nat)
      requires Valid() && i < |blocks|
      requires site.start + poolSize < 0x1_0000_0000 && site.pool < 0x1_0000_0000
      ensures var m, x := mem[..], blocks[i].at;
              && x + ITEM <= |m| && SmallHeap.Value(m[x..x + 4]) == (if blocks[i].used then MAGIC + 1 else MAGIC)
              && SmallHeap.Value(m[x + 4..x + 8]) == site.pool && SmallHeap.Value(m[x + 8..x + 12]) == site.start + blocks[i].next
              && SmallHeap.Value(m[x + 12..x + 16]) == site.start + if i == 0 then End() else blocks[i - 1].at
    {
      hide Linked, LinksStored, FreeOrder, Spread, FreeBytes, Layout, SmallHeap.Le, SmallHeap.Value;
      var x := blocks[i].at;
      Bounded();
      BlockLinks(i);
      NodeAt(i);
      NodeAt(if i == 0 then |blocks| else i - 1);
      ItemKnown(x);
      ItemKnown(block.prev[x]);
      assert BlockStored(mem[..], site, block.next, block.prev, inUse, x);
      if i > 0 {
        BlockLinks(i - 1);
      }
      ItemReadBack(site, inUse[x], block.next[x], block.prev[x], mem[..], x);
    }

    lemma LinkWordsInMemory(k: nat)
      requires Valid() && k < |Order()|
      requires site.start + poolSize < 0x1_0000_0000 && site.header < 0x1_0000_0000
      ensures var m, x := mem[..], Order()[k];
              && 0 <= x && x + ITEM <= |m|
              && SmallHeap.Value(m[x + 16..x + 20]) == Address(site, if k + 1 < |Order()| then Order()[k + 1] else HEADER)
              && SmallHeap.Value(m[x + 20..x + 24]) == Address(site, if k > 0 then Order()[k - 1] else HEADER)
    {
      var x := Order()[k];
      assert x in Order();
      ItemKnown(x);
      assert LinkAt(free.next, free.prev, free.nodes, k + 1);
      assert LinkStored(mem[..], site, free.next, free.prev, x);
      AddressBound(free.next[x]);
      AddressBound(free.prev[x]);
      LinkReadBack(Address(site, free.next[x]), Address(site, free.prev[x]), mem[..], x + LINKS);
    }

    lemma AddressBound(x: int)
      requires Shape() && x in free.nodes && site.start + poolSize < 0x1_0000_0000 && site.header < 0x1_0000_0000
      ensures Address(site, x) < 0x1_0000_0000
    {
      LinkKnown(x);
      if x != HEADER {
        ItemKnown(x);
      }
    }

    /** What a reader of memory finds in the items: the flag, the neighbours on the block ring and those on the free ring. */
    lemma WordsInMemory(i: nat, k: nat)
      requires Valid() && i < |blocks|
      requires site.start + poolSize < 0x1_0000_0000 && site.header < 0x1_0000_0000 && site.pool < 0x1_0000_0000
      ensures var m, x := mem[..], blocks[i].at;
              && x + ITEM <= |m| && SmallHeap.Value(m[x..x + 4]) == (if blocks[i].used then MAGIC + 1 else MAGIC)
              && SmallHeap.Value(m[x + 4..x + 8]) == site.pool && SmallHeap.Value(m[x + 8..x + 12]) == site.start + blocks[i].next
              && SmallHeap.Value(m[x + 12..x + 16]) == site.start + if i == 0 then End() else blocks[i - 1].at
      ensures k < |Order()| ==>
                var m, x := mem[..], Order()[k];
                && 0 <= x && x + ITEM <= |m|
                && SmallHeap.Value(m[x + 16..x + 20]) == Address(site, if k + 1 < |Order()| then Order()[k + 1] else HEADER)
                && SmallHeap.Value(m[x + 20..x + 24]) == Address(site, if k > 0 then Order()[k - 1] else HEADER)
    {
      hide Linked, Written, FreeOrder, Spread, FreeBytes, Address, SmallHeap.Value;
      BlockWordsInMemory(i);
      if k < |Order()| {
        LinkWordsInMemory(k);
      }
    }
  }

  /**
   * rt_memheap_realloc of block i has given the pointer r: the block is there with room for newsize bytes, all others are
   * as they were, the first bytes are the old ones, and no other payload that was live has been written.
   */
  ghost predicate Resized(bs: seq<Block>, i: nat, m: seq<byte>, r: int, newsize: nat, bs': seq<Block>, m': seq<byte>) {
    && i < |bs| && r >= 0 && Size(bs[i]) >= 0 && Relocated(bs, bs[i], bs', r - ITEM, newsize)
    && SmallHeap.Copied(m, bs[i].at + ITEM, m', r, Min(Size(bs[i]), newsize)) && KeptPayloads(Mark(bs, i, false), m, m')
  }

  predicate Separate(src: nat, dst: nat, n: nat, size: nat) {
    dst + n <= size && src + n <= size && (dst + n <= src || src + n <= dst)
  }

  lemma MoveRange(bs: seq<Block>, end: nat, i: nat, j: nat, newsize: nat, n: nat, size: nat)
    requires Layout(bs, end) && i < |bs| && j < |bs| && bs[i].used && Suits(bs[j], newsize)
    requires n <= newsize && n <= Size(bs[i]) && end <= size
    ensures Separate(bs[i].at + ITEM, bs[j].at + ITEM, n, size)
  {
    LayoutTiles(bs, end);
    EndsBy(bs, end);
    BlocksApart(bs, end, bs[i], bs[j]);
  }

  lemma ClosestServes(bs: seq<Block>, r: int, size: nat, request: nat)
    requires ServesClosely(bs, r, size) && request <= size
    ensures Serves(bs, r, request)
  {
  }

  lemma ResizedServes(bs: seq<Block>, i: nat, m: seq<byte>, r: int, size: nat, bs': seq<Block>, m': seq<byte>, request: nat)
    requires Resized(bs, i, m, r, size, bs', m') && request <= size
    ensures Serves(bs', r, request)
  {
  }

  lemma RequestTwice(size: nat)
    ensures RequestSize(RequestSize(size)) == RequestSize(size)
  {
  }

  lemma RequestAligned(size: nat)
    requires RequestSize(size) == size
    ensures size >= MINIALLOC && Aligned(size)
  {
  }

  /** One free block, alone on the free ring. */
  lemma FreshFacts(size: nat)
    requires size >= 2 * ITEM + MINIALLOC && Aligned(size)
    ensures var bs := [Block(0, size - ITEM, false)];
            Layout(bs, size - ITEM) && Spread(bs) && FreeOrder(bs, [0]) && FreeBytes(bs) == size - 2 * ITEM
  {
    var b := Block(0, size - ITEM, false);
    FreeBytesOne(b);
    assert [b][0] == b && b in [b];
    assert forall x :: FreeIn([b], x) <==> x == 0;
  }

  lemma TakenBlock(pool: nat, s: State, size: nat, i: nat, k: nat, s': State)
    requires TakeStep(pool, s, size, i, k, s')
    ensures i < |s.bs| && Suits(s.bs[i], size) && s'.bs == Taken(s.bs, i, size)
  {
  }

  lemma MovedBy(pool: nat, s: State, mid: State, b: Block, size: nat, i: nat, k: nat, j: nat, s': State)
    requires TakeStep(pool, s, size, i, k, mid) && j < |mid.bs| && mid.bs[j] == b && GiveStep(mid, j, s')
    ensures MoveSteps(pool, s, b, size, s')
  {
  }

  lemma KeptSame(bs: seq<Block>, m: seq<byte>)
    ensures KeptPayloads(bs, m, m)
  {
  }

  /** Block i stays where it is, and what was live is kept. */
  lemma KeptInPlace(before: seq<Block>, end: nat, i: nat, bs: seq<Block>, newsize: nat, m0: seq<byte>, m1: seq<byte>)
    requires Layout(before, end) && end <= |m0| && i < |before| && before[i].used
    requires Relocated(before, before[i], bs, before[i].at, newsize) && KeptPayloads(before, m0, m1)
    ensures Resized(before, i, m0, before[i].at + ITEM, newsize, bs, m1)
  {
    LayoutTiles(before, end);
    EndsBy(before, end);
    MarkKeeps(before, i, false);
    KeepsCovers(Mark(before, i, false), before);
    KeptCovered(Mark(before, i, false), before, m0, m1);
    forall k | before[i].at + ITEM <= k < before[i].next
      ensures m1[k] == m0[k]
    {
      assert Payload(before, k);
    }
  }

  /** Block i stays where it is but is shorter, and what is still live is kept. */
  lemma ShrunkKept(before: seq<Block>, end: nat, i: nat, bs: seq<Block>, newsize: nat, m0: seq<byte>, m1: seq<byte>)
    requires Layout(before, end) && end <= |m0| && i < |before| && before[i].used && newsize <= Size(before[i])
    requires Relocated(before, before[i], bs, before[i].at, newsize) && KeptPayloads(bs, m0, m1)
    ensures Resized(before, i, m0, before[i].at + ITEM, newsize, bs, m1)
  {
    LayoutTiles(before, end);
    EndsBy(before, end);
    MarkedMembers(before, i, end);
    KeepsCovers(Mark(before, i, false), bs);
    KeptCovered(Mark(before, i, false), bs, m0, m1);
    var c :| c in bs && c.used && c.at == before[i].at && Size(c) >= newsize;
    forall k | c.at + ITEM <= k < c.at + ITEM + newsize
      ensures m1[k] == m0[k]
    {
      assert Payload(bs, k);
    }
  }

  lemma JoinNextCovers(bs: seq<Block>, j: nat)
    requires j < |bs| && !bs[j].used
    ensures Covers(JoinNext(bs, j), bs)
  {
    if RightFree(bs, j) {
      SwallowKeeps(bs, j);
    }
    KeepsCovers(JoinNext(bs, j), bs);
  }

  lemma GrownCovers(bs: seq<Block>, end: nat, i: nat, p: nat)
    requires Layout(bs, end) && i < |bs| && bs[i].used && RightFree(bs, i) && bs[i].next < p
    ensures Covers(bs, Grown(bs, i, p))
  {
    GrownMembers(bs, i, p, end);
    var c := Block(bs[i].at, p, true);
    SplitKeeps(Swallow(bs, i), i, p);
    SwallowPiece(bs, i, i);
    assert c in Grown(bs, i, p);
    forall b | b in bs && b.used
      ensures exists b' :: b' in Grown(bs, i, p) && b'.used && b'.at == b.at && b.next <= b'.next
    {
      if b == bs[i] {
        assert c.used && c.at == b.at && b.next <= c.next;
      } else {
        assert b in Grown(bs, i, p);
      }
    }
  }

  lemma SameRelocated(bs: seq<Block>, end: nat, i: nat, size: nat)
    requires Layout(bs, end) && i < |bs| && bs[i].used && size <= Size(bs[i])
    ensures Relocated(bs, bs[i], bs, bs[i].at, size)
  {
    LayoutTiles(bs, end);
    assert bs[i] in bs;
  }

  /** Whether rt_memheap_realloc keeps the address. */
  predicate FitsInPlace(bs: seq<Block>, i: nat, newsize: nat)
    requires i < |bs|
  {
    newsize <= Size(bs[i]) || (RightFree(bs, i) && Size(bs[i + 1]) + Size(bs[i]) > newsize + MINIALLOC)
  }

  /**
   * The address is kept exactly when the block has room already, or the block behind it is free and more than an item with
   * a minimal payload is left of that between the new end and its own.
   */
  lemma FitsInPlaceIff(bs: seq<Block>, end: nat, i: nat, newsize: nat)
    requires Layout(bs, end) && i < |bs|
    ensures FitsInPlace(bs, i, newsize)
       <==> var newEnd := bs[i].at + ITEM + newsize;
            newEnd <= bs[i].next || (i + 1 < |bs| && !bs[i + 1].used && newEnd + ITEM + MINIALLOC < bs[i + 1].next)
  {
    assert BlockOk(bs, end, i);
    assert BlockOk(bs, end, i + 1);
  }

  /** The live blocks after b was reallocated to the item at x with room for n bytes. */
  ghost predicate Relocated(bs: seq<Block>, b: Block, bs': seq<Block>, x: int, n: int) {
    && (forall c :: c in bs && c.used && c != b ==> c in bs')
    && (forall c :: c in bs' && c.used ==> c.at == x || (c in bs && c != b))
    && (exists c :: c in bs' && c.used && c.at == x && Size(c) >= n)
  }

  lemma TakenMembers(bs: seq<Block>, j: nat, size: nat)
    requires j < |bs| && Suits(bs[j], size)
    ensures var r := Taken(bs, j, size);
            && j < |r| && r[j].used && r[j].at == bs[j].at && Size(r[j]) >= size
            && (forall b :: b in bs && b != bs[j] ==> b in r)
            && (forall b :: b in r && b.used ==> b in bs || b == r[j])
  {
    if Divides(bs[j], size) {
      SplitKeeps(bs, j, bs[j].at + ITEM + size);
      SplitPiece(bs, j, bs[j].at + ITEM + size, j);
    } else {
      MarkKeeps(bs, j, true);
    }
  }

  lemma MovedIndex(before: seq<Block>, end: nat, i: nat, bs: seq<Block>, j: nat, size: nat) returns (i': nat)
    requires Layout(before, end) && i < |before| && before[i].used && j < |before| && Suits(before[j], size)
    requires bs == Taken(before, j, size)
    ensures j < |bs| && i' < |bs| && i' != j && bs[i'] == before[i] && bs[j].used && Size(bs[j]) >= size
    ensures bs[j].at == before[j].at
  {
    LayoutTiles(before, end);
    TakenMembers(before, j, size);
    assert before[i] in bs;
    i' :| 0 <= i' < |bs| && bs[i'] == before[i];
    BlocksApart(before, end, before[i], before[j]);
  }

  lemma ClosedMembers(bs: seq<Block>, i: nat)
    requires i < |bs| && !bs[i].used
    ensures KeepsUsed(Closed(bs, i), bs) && KeepsUsed(bs, Closed(bs, i))
  {
    var b1, j := if LeftFree(bs, i) then Swallow(bs, i - 1) else bs, if LeftFree(bs, i) then i - 1 else i;
    if LeftFree(bs, i) {
      SwallowKeeps(bs, i - 1);
      SwallowPiece(bs, i - 1, i - 1);
    }
    if RightFree(b1, j) {
      SwallowKeeps(b1, j);
    }
  }

  lemma MarkedMembers(bs: seq<Block>, i: nat, end: nat)
    requires Layout(bs, end) && i < |bs| && bs[i].used
    ensures SmallHeap.Without(bs, bs[i], Mark(bs, i, false))
  {
    var m := Mark(bs, i, false);
    MarkKeeps(bs, i, false);
    MarkLayout(bs, i, false, end);
    assert m[i] in m;
    forall c | c in m && c.at == m[i].at
      ensures c == m[i]
    {
      StartsApart(m, end, c, m[i]);
    }
  }

  lemma FreedMembers(bs: seq<Block>, i: nat, end: nat)
    requires Layout(bs, end) && i < |bs| && bs[i].used
    ensures SmallHeap.Without(bs, bs[i], Freed(bs, i))
  {
    var m := Mark(bs, i, false);
    MarkedMembers(bs, i, end);
    ClosedMembers(m, i);
  }

  /** Where the new block lies nothing was live. */
  lemma NewBlockDead(before: seq<Block>, end: nat, j: nat, k: int)
    requires Layout(before, end) && j < |before| && !before[j].used && before[j].at <= k < before[j].next
    ensures !Payload(before, k)
  {
    LayoutTiles(before, end);
    forall b | b in before && b.used
      ensures !(b.at + ITEM <= k < b.next)
    {
      BlocksApart(before, end, b, before[j]);
    }
  }

  /** The n bytes at src were copied to r, and then only bytes outside the payloads of bs were written. */
  ghost predicate MovedBytes(m: seq<byte>, src: nat, r: nat, n: nat, bs: seq<Block>, m': seq<byte>) {
    exists c: seq<byte> ::
      SmallHeap.Copied(m, src, c, r, n) && SmallHeap.SameOutside(m, c, r, r + n) && KeptPayloads(bs, c, m')
  }

  lemma MovedOthers(before: seq<Block>, end: nat, i: nat, bs: seq<Block>, i': nat, j: nat, newsize: nat,
                    m0: seq<byte>, m1: seq<byte>, m2: seq<byte>, n: nat)
    requires Layout(before, end) && i < |before| && before[i].used && j < |before| && Suits(before[j], newsize)
    requires bs == Taken(before, j, newsize) && Layout(bs, end) && i' < |bs| && bs[i'] == before[i]
    requires n <= newsize && KeptPayloads(before, m0, m1)
    requires MovedBytes(m1, before[i].at + ITEM, before[j].at + ITEM, n, Freed(bs, i'), m2)
    ensures KeptPayloads(Mark(before, i, false), m0, m2)
  {
    assert !before[j].used && Size(before[j]) >= newsize;
    hide Layout, Suits, Taken, Freed, Mark;
    MarkedMembers(before, i, end);
    TakenMembers(before, j, newsize);
    FreedMembers(bs, i', end);
    var r, after := before[j].at + ITEM, Freed(bs, i');
    var c :| SmallHeap.Copied(m1, before[i].at + ITEM, c, r, n) && SmallHeap.SameOutside(m1, c, r, r + n)
             && KeptPayloads(after, c, m2);
    forall k | 0 <= k < |m0| && Payload(Mark(before, i, false), k)
      ensures m2[k] == m0[k]
    {
      var b :| b in Mark(before, i, false) && b.used && b.at + ITEM <= k < b.next;
      assert Payload(before, k) && b in after && Payload(after, k);
      if r <= k < r + n {
        NewBlockDead(before, end, j, k);
      }
    }
  }

  lemma MovedFirst(before: seq<Block>, i: nat, after: seq<Block>, nb: Block, m0: seq<byte>, m1: seq<byte>, m2: seq<byte>,
                   r: nat, n: nat)
    requires i < |before| && before[i].used && n <= Size(before[i]) && KeptPayloads(before, m0, m1)
    requires nb in after && nb.used && nb.at + ITEM == r && n <= Size(nb)
    requires MovedBytes(m1, before[i].at + ITEM, r, n, after, m2)
    ensures SmallHeap.Copied(m0, before[i].at + ITEM, m2, r, n)
  {
    var src := before[i].at + ITEM;
    var c :| SmallHeap.Copied(m1, src, c, r, n) && SmallHeap.SameOutside(m1, c, r, r + n) && KeptPayloads(after, c, m2);
    assert before[i] in before;
    forall k | r <= k < r + n
      ensures m2[k] == m0[src + (k - r)]
    {
      assert Payload(after, k) && Payload(before, src + (k - r));
    }
  }

  lemma MoveResult(before: seq<Block>, end: nat, i: nat, bs: seq<Block>, i': nat, j: nat, newsize: nat,
                   m0: seq<byte>, m1: seq<byte>, m2: seq<byte>, r: nat)
    requires Layout(before, end) && i < |before| && before[i].used && j < |before| && Suits(before[j], newsize)
    requires bs == Taken(before, j, newsize) && Layout(bs, end) && r == before[j].at + ITEM
    requires i' < |bs| && bs[i'] == before[i] && i' != j && Size(before[i]) >= 0 && KeptPayloads(before, m0, m1)
    requires MovedBytes(m1, before[i].at + ITEM, r, Min(Size(before[i]), newsize), Freed(bs, i'), m2)
    ensures Resized(before, i, m0, r, newsize, Freed(bs, i'), m2)
  {
    hide Layout, Suits, Taken, Freed, MovedBytes, KeptPayloads, Relocated, Mark, SmallHeap.Copied;
    var n := Min(Size(before[i]), newsize);
    MovedOthers(before, end, i, bs, i', j, newsize, m0, m1, m2, n);
    MovedBlock(before, end, i, bs, i', j, newsize);
    MovedFirst(before, i, Freed(bs, i'), bs[j], m0, m1, m2, r, n);
  }

  /** The new block after a move. */
  lemma MovedBlock(before: seq<Block>, end: nat, i: nat, bs: seq<Block>, i': nat, j: nat, newsize: nat)
    requires Layout(before, end) && i < |before| && before[i].used && j < |before| && Suits(before[j], newsize)
    requires bs == Taken(before, j, newsize) && Layout(bs, end) && i' < |bs| && bs[i'] == before[i] && i' != j
    ensures Relocated(before, before[i], Freed(bs, i'), before[j].at, newsize)
    ensures j < |bs| && bs[j] in Freed(bs, i') && bs[j].used && bs[j].at == before[j].at && Size(bs[j]) >= newsize
  {
    LayoutTiles(before, end);
    LayoutTiles(bs, end);
    TakenMembers(before, j, newsize);
    FreedMembers(bs, i', end);
    StartsDiffer(before, end, before[i], before[j]);
    assert bs[j] in bs;
  }

  lemma GrownMembers(bs: seq<Block>, i: nat, p: nat, end: nat)
    requires Layout(bs, end) && i < |bs| && bs[i].used && RightFree(bs, i) && bs[i].next < p
    ensures Relocated(bs, bs[i], Grown(bs, i, p), bs[i].at, p - bs[i].at - ITEM)
  {
    LayoutTiles(bs, end);
    var s := Swallow(bs, i);
    SwallowPiece(bs, i, i);
    SwallowKeeps(bs, i);
    SplitKeeps(s, i, p);
    assert Block(bs[i].at, p, true) in Grown(bs, i, p);
    forall c | c in bs && c.used && c != bs[i]
      ensures c in Grown(bs, i, p)
    {
      StartsDiffer(bs, end, c, bs[i]);
    }
  }

  lemma StartsDiffer(bs: seq<Block>, end: nat, b: Block, c: Block)
    requires Layout(bs, end) && b in bs && c in bs && b != c
    ensures b.at != c.at
  {
    LayoutTiles(bs, end);
    BlocksApart(bs, end, b, c);
  }

  lemma ShrunkMembers(bs: seq<Block>, i: nat, p: nat, end: nat)
    requires Layout(bs, end) && i < |bs| && bs[i].used && bs[i].at + ITEM < p && p + ITEM < bs[i].next
    ensures Relocated(bs, bs[i], Shrunk(bs, i, p), bs[i].at, p - bs[i].at - ITEM)
  {
    hide Layout, Tiled, Roomy, AllAligned, SplitAt;
    LayoutTiles(bs, end);
    var cut := SplitAt(bs, i, p);
    SmallHeap.CutMembers(bs, i, p, end);
    if RightFree(cut, i + 1) {
      SwallowKeeps(cut, i + 1);
    }
    assert Block(bs[i].at, p, true) in Shrunk(bs, i, p);
  }

  function Grown(bs: seq<Block>, i: nat, p: nat): seq<Block>
    requires i + 1 < |bs|
  {
    SplitAt(Swallow(bs, i), i, p)
  }

  function Shrunk(bs: seq<Block>, i: nat, p: nat): seq<Block>
    requires i < |bs|
  {
    JoinNext(SplitAt(bs, i, p), i + 1)
  }

  /** A cut through a used block leaves one free block that is not on the free ring yet. */
  lemma CutOrder(bs: seq<Block>, end: nat, i: nat, p: nat, order: seq<int>)
    requires Layout(bs, end) && i < |bs| && bs[i].used && bs[i].at < p < bs[i].next && HoleOrder(bs, order, HEADER)
    ensures HoleOrder(SplitAt(bs, i, p), order, p) && FreeIn(SplitAt(bs, i, p), p)
  {
    CutNotFree(bs, end, i, p);
    UsedNotFree(bs, end, i);
    SplitFree(bs, end, i, p, p);
    hide Layout, FreeIn, SplitAt;
    forall x
      ensures x in order <==> FreeIn(SplitAt(bs, i, p), x) && x != p
    {
      HoleEntry(bs, order, HEADER, x);
      SplitFree(bs, end, i, p, x);
    }
  }

  /** No block starts at the address of the header. */
  lemma NoneMissing(bs: seq<Block>, order: seq<int>)
    ensures HoleOrder(bs, order, HEADER) <==> FreeOrder(bs, order)
  {
    assert !FreeIn(bs, HEADER);
  }

  lemma HoleEntry(bs: seq<Block>, order: seq<int>, hole: int, x: int)
    requires HoleOrder(bs, order, hole)
    ensures x in order <==> FreeIn(bs, x) && x != hole
    ensures !FreeIn(bs, HEADER)
  {
  }

  /** Where a block is cut, no block started. */
  lemma CutNotFree(bs: seq<Block>, end: nat, i: nat, p: nat)
    requires Layout(bs, end) && i < |bs| && bs[i].at < p < bs[i].next
    ensures !FreeIn(bs, p)
  {
    OffsetsFresh(bs, end, i, p);
    forall b | b in bs
      ensures b.at != p
    {
      var j :| 0 <= j < |bs| && bs[j] == b;
      assert Offsets(bs, end)[j] == b.at;
    }
  }

  lemma GrownFacts(bs: seq<Block>, i: nat, p: nat)
    requires Spread(bs) && i < |bs| && RightFree(bs, i) && bs[i].used && bs[i].next == bs[i + 1].at
    ensures Spread(Grown(bs, i, p))
    ensures FreeBytes(Grown(bs, i, p)) == FreeBytes(bs) - (p - bs[i].next)
  {
    SpreadIff(bs);
    SpreadIff(Grown(bs, i, p));
    var s := Swallow(bs, i);
    SwallowBytes(bs, i);
    SplitBytes(s, i, p);
    SwallowPiece(bs, i, i);
    SwallowHole(bs, i, i);
    SideBlocks(bs, i);
    assert NoFreeNeighbours(s);
    CutFacts(s, i, p);
    HoleClosed(Grown(bs, i, p), i + 1);
  }

  /** Around the free block that a cut through used block i leaves. */
  lemma CutFacts(bs: seq<Block>, i: nat, p: nat)
    requires Spread(bs) && i < |bs|
    ensures var cut := SplitAt(bs, i, p);
            && i + 1 < |cut| && SmallHeap.HoleOnlyAt(cut, i + 1) && cut[i].used
            && cut[i + 1] == Block(p, bs[i].next, false) && RightFree(cut, i + 1) == RightFree(bs, i)
            && (i + 2 < |cut| <==> i + 1 < |bs|) && (i + 2 < |cut| ==> cut[i + 2] == bs[i + 1])
            && (i + 3 < |cut| ==> cut[i + 3] == bs[i + 2])
  {
    SpreadIff(bs);
    var cut := SplitAt(bs, i, p);
    SmallHeap.SplitHole(bs, i, p);
    SplitPiece(bs, i, p, i);
    SplitPiece(bs, i, p, i + 1);
    if i + 2 < |cut| {
      SplitPiece(bs, i, p, i + 2);
    }
    if i + 3 < |cut| {
      SplitPiece(bs, i, p, i + 3);
    }
  }

  lemma CutSides(bs: seq<Block>, i: nat, p: nat)
    requires Spread(bs) && i < |bs|
    ensures var cut := SplitAt(bs, i, p);
            && i + 1 < |cut| && cut[i + 1] == Block(p, bs[i].next, false) && RightFree(cut, i + 1) == RightFree(bs, i)
            && (RightFree(bs, i) ==> cut[i + 2] == bs[i + 1])
  {
    SpreadIff(bs);
    CutFacts(bs, i, p);
  }

  lemma ShrunkFacts(bs: seq<Block>, i: nat, p: nat, end: nat)
    requires Layout(bs, end) && Spread(bs) && i < |bs| && bs[i].used
    ensures Spread(Shrunk(bs, i, p))
    ensures FreeBytes(Shrunk(bs, i, p))
         == FreeBytes(bs) + (bs[i].next - p - ITEM) + if RightFree(bs, i) then ITEM else 0
  {
    SpreadIff(bs);
    SpreadIff(Shrunk(bs, i, p));
    LayoutTiles(bs, end);
    CutFacts(bs, i, p);
    SplitBytes(bs, i, p);
    JoinFacts(SplitAt(bs, i, p), i + 1);
  }

  /** The items that merging turns into free bytes. */
  function Gain(bs: seq<Block>, i: nat): int
    requires i < |bs|
  {
    (if LeftFree(bs, i) then ITEM else 0) + if RightFree(bs, i) then ITEM else 0
  }

  /** Merging to the left does not change what lies to the right. */
  lemma SidesOf(bs: seq<Block>, i: nat, order: seq<int>)
    requires i < |bs| && !bs[i].used
    ensures var b1, j := if LeftFree(bs, i) then Swallow(bs, i - 1) else bs, if LeftFree(bs, i) then i - 1 else i;
            && j < |b1| && Closed(bs, i) == JoinNext(b1, j)
            && RightFree(b1, j) == RightFree(bs, i)
            && (RightFree(bs, i) ==> b1[j + 1] == bs[i + 1])
  {
    if LeftFree(bs, i) {
      SideBlocks(bs, i - 1);
    }
  }

  lemma JoinNextKeeps(bs: seq<Block>, i: nat)
    requires i < |bs| && !bs[i].used
    ensures FreeIn(JoinNext(bs, i), bs[i].at)
  {
    assert bs[i] in bs;
    if RightFree(bs, i) {
      SwallowKeeps(bs, i);
    }
  }

  /** order lists the free blocks except the one at hole. */
  ghost predicate HoleOrder(bs: seq<Block>, order: seq<int>, hole: int) {
    Distinct(order) && forall x {:trigger FreeIn(bs, x)} :: x in order <==> FreeIn(bs, x) && x != hole
  }

  lemma HoleNotIn(bs: seq<Block>, order: seq<int>, hole: int)
    requires HoleOrder(bs, order, hole)
    ensures hole !in order
  {
    assert hole in order <==> FreeIn(bs, hole) && hole != hole;
  }

  lemma UsedNotFree(bs: seq<Block>, end: nat, i: nat)
    requires Layout(bs, end) && i < |bs| && bs[i].used
    ensures !FreeIn(bs, bs[i].at)
  {
    forall b | b in bs && b.at == bs[i].at
      ensures b == bs[i]
    {
      StartsApart(bs, end, b, bs[i]);
    }
  }

  lemma FrontOrder(bs: seq<Block>, order: seq<int>, p: int)
    requires HoleOrder(bs, order, p) && FreeIn(bs, p)
    ensures p !in order && FreeOrder(bs, [p] + order)
  {
    DistinctIff(order);
    DistinctIff([p] + order);
  }

  lemma LeftOrder(bs: seq<Block>, end: nat, i: nat, order: seq<int>)
    requires Layout(bs, end) && 0 < i < |bs| && !bs[i].used && HoleOrder(bs, order, bs[i].at)
    ensures HoleOrder(Swallow(bs, i - 1), order, HEADER)
  {
    hide Layout, Swallow;
    forall x
      ensures x in order <==> FreeIn(Swallow(bs, i - 1), x) && x != HEADER
    {
      HoleEntry(bs, order, bs[i].at, x);
      SwallowFree(bs, end, i - 1, x);
    }
  }

  lemma RightOrder(bs: seq<Block>, end: nat, j: nat, order: seq<int>, hole: int) returns (k: nat)
    requires Layout(bs, end) && j < |bs| && RightFree(bs, j) && HoleOrder(bs, order, hole) && (hole == bs[j].at || hole == HEADER)
    ensures k < |order| && order[k] == bs[j + 1].at && Removed(order, k) == Without(order, bs[j + 1].at)
    ensures HoleOrder(Swallow(bs, j), Removed(order, k), hole)
  {
    LayoutTiles(bs, end);
    var q := bs[j + 1].at;
    assert bs[j + 1] in bs;
    assert FreeIn(bs, q) && q in order;
    k :| 0 <= k < |order| && order[k] == q;
    WithoutIsRemoved(order, k);
    RemovedDistinct(order, k);
    hide Layout, FreeIn, Swallow, Removed, Without;
    forall x
      ensures x in Removed(order, k) <==> FreeIn(Swallow(bs, j), x) && x != hole
    {
      HoleEntry(bs, order, hole, x);
      SwallowFree(bs, end, j, x);
    }
  }

  lemma HoleClosed(bs: seq<Block>, i: nat)
    requires i < |bs| && SmallHeap.HoleOnlyAt(bs, i)
    requires (i > 0 ==> bs[i - 1].used) && (i + 1 < |bs| ==> bs[i + 1].used)
    ensures Spread(bs)
  {
    SpreadIff(bs);
  }

  /** Only the neighbours of block i matter after it is swallowed or swallows. */
  lemma SwallowHole(bs: seq<Block>, i: nat, hole: nat)
    requires i + 1 < |bs| && SmallHeap.HoleOnlyAt(bs, hole) && (hole == i || hole == i + 1)
    ensures SmallHeap.HoleOnlyAt(Swallow(bs, i), i)
  {
    var r := Swallow(bs, i);
    forall k, l | 0 <= k && l == k + 1 < |r| && k != i && l != i
      ensures r[k].used || r[l].used
    {
      SwallowPiece(bs, i, k);
      SwallowPiece(bs, i, l);
      var d := if k < i then 0 else 1;
      assert bs[k + d].used || bs[l + d].used;
    }
  }

  lemma FreedOrderFacts(bs: seq<Block>, i: nat, end: nat, order: seq<int>)
    requires Layout(bs, end) && i < |bs| && bs[i].used && FreeOrder(bs, order)
    ensures HoleOrder(Mark(bs, i, false), order, bs[i].at)
    ensures FreedOrder(Mark(bs, i, false), i, order) == FreedOrder(bs, i, order)
    ensures Gain(Mark(bs, i, false), i) == Gain(bs, i)
  {
    hide Layout;
    UsedNotFree(bs, end, i);
    forall x
      ensures x in order <==> FreeIn(Mark(bs, i, false), x) && x != bs[i].at
    {
      MarkFree(bs, end, i, false, x);
    }
  }

  lemma FreedFacts(bs: seq<Block>, i: nat, end: nat)
    requires Layout(bs, end) && Spread(bs) && i < |bs| && bs[i].used
    ensures Spread(Freed(bs, i))
    ensures FreeBytes(Freed(bs, i)) == FreeBytes(bs) + Size(bs[i]) + Gain(bs, i) && Gain(bs, i) >= 0
  {
    MarkLayout(bs, i, false, end);
    MarkBytes(bs, i, false);
    MarkHole(bs, i);
    ClosedFacts(Mark(bs, i, false), i, end);
  }

  lemma MarkHole(bs: seq<Block>, i: nat)
    requires Spread(bs) && i < |bs|
    ensures SmallHeap.HoleOnlyAt(Mark(bs, i, false), i)
  {
    SpreadIff(bs);
  }

  lemma ClosedFacts(m: seq<Block>, i: nat, end: nat)
    requires Layout(m, end) && i < |m| && !m[i].used && SmallHeap.HoleOnlyAt(m, i)
    ensures Spread(Closed(m, i)) && FreeBytes(Closed(m, i)) == FreeBytes(m) + Gain(m, i)
  {
    assert BlockOk(m, end, i);
    if LeftFree(m, i) {
      assert BlockOk(m, end, i - 1);
      SwallowHole(m, i - 1, i);
      SwallowBytes(m, i - 1);
      SwallowPiece(m, i - 1, i - 1);
      SideBlocks(m, i - 1);
      JoinFacts(Swallow(m, i - 1), i - 1);
    } else {
      JoinFacts(m, i);
    }
  }

  lemma SideBlocks(bs: seq<Block>, i: nat)
    requires i + 1 < |bs|
    ensures var r := Swallow(bs, i);
            && (i > 0 ==> r[i - 1] == bs[i - 1]) && (i + 1 < |r| ==> r[i + 1] == bs[i + 2])
            && (i + 1 < |r| <==> i + 2 < |bs|)
  {
  }

  lemma JoinFacts(bs: seq<Block>, i: nat)
    requires i < |bs| && !bs[i].used && SmallHeap.HoleOnlyAt(bs, i) && (i > 0 ==> bs[i - 1].used)
    requires i + 1 < |bs| ==> bs[i].next == bs[i + 1].at
    requires RightFree(bs, i) && i + 2 < |bs| ==> bs[i + 2].used
    ensures Spread(JoinNext(bs, i))
    ensures FreeBytes(JoinNext(bs, i)) == FreeBytes(bs) + if RightFree(bs, i) then ITEM else 0
  {
    SpreadIff(JoinNext(bs, i));
    if RightFree(bs, i) {
      SwallowHole(bs, i, i);
      SwallowBytes(bs, i);
      SideBlocks(bs, i);
    }
    HoleClosed(JoinNext(bs, i), i);
  }

  ghost function BlockAt(bs: seq<Block>, x: int): Block
    requires FreeIn(bs, x)
  {
    bs[IndexAt(bs, x)]
  }

  /** Entry k is the first on the free ring that can take size bytes. */
  ghost predicate FirstOnRing(bs: seq<Block>, order: seq<int>, k: nat, size: nat) {
    && k < |order|
    && (forall j :: 0 <= j <= k ==> FreeIn(bs, order[j]))
    && Suits(BlockAt(bs, order[k]), size)
    && forall j :: 0 <= j < k ==> !Suits(BlockAt(bs, order[j]), size)
  }

  lemma FirstBlock(bs: seq<Block>, order: seq<int>, k: nat, size: nat) returns (i: nat)
    requires FirstOnRing(bs, order, k, size)
    ensures k < |order| && i < |bs| && bs[i].at == order[k] && bs[i] in bs && Suits(bs[i], size)
  {
    i := IndexAt(bs, order[k]);
    assert bs[i] in bs;
  }

  lemma AlignedItem(p: nat, size: nat)
    requires Aligned(p) && Aligned(size)
    ensures Aligned(p + ITEM + size)
  {
  }

  /** If nothing on the ring suits, nothing in the pool does. */
  lemma NothingSuits(bs: seq<Block>, end: nat, order: seq<int>, size: nat)
    requires Layout(bs, end) && FreeOrder(bs, order)
    requires forall j :: 0 <= j < |order| ==> FreeIn(bs, order[j]) && !Suits(BlockAt(bs, order[j]), size)
    ensures forall b :: b in bs ==> !Suits(b, size)
  {
    LayoutTiles(bs, end);
    forall b | b in bs && !b.used
      ensures !Suits(b, size)
    {
      assert FreeIn(bs, b.at);
      assert b.at in order;
      StartsApart(bs, end, b, BlockAt(bs, b.at));
    }
  }

  lemma SplitOrder(bs: seq<Block>, end: nat, i: nat, p: nat, order: seq<int>, k: nat)
    requires Layout(bs, end) && FreeOrder(bs, order) && i < |bs| && k < |order| && order[k] == bs[i].at < p < bs[i].next
    requires !bs[i].used
    ensures p !in order && p !in Removed(order, k) && FreeOrder(SplitAt(bs, i, p), [p] + Removed(order, k))
  {
    CutNotFree(bs, end, i, p);
    RemovedDistinct(order, k);
    SplitFree(bs, end, i, p, p);
    hide Layout, FreeIn, SplitAt, Removed;
    forall x
      ensures x in Removed(order, k) <==> FreeIn(SplitAt(bs, i, p), x) && x != p
    {
      SplitFree(bs, end, i, p, x);
      assert x in order <==> FreeIn(bs, x);
    }
    assert !FreeIn(bs, p);
    FrontOrder(SplitAt(bs, i, p), Removed(order, k), p);
  }

  lemma UseOrder(bs: seq<Block>, end: nat, i: nat, order: seq<int>, k: nat)
    requires Layout(bs, end) && FreeOrder(bs, order) && i < |bs| && k < |order| && order[k] == bs[i].at
    ensures FreeOrder(Mark(bs, i, true), Removed(order, k))
  {
    LayoutTiles(bs, end);
    RemovedDistinct(order, k);
    forall x
      ensures x in Removed(order, k) <==> FreeIn(Mark(bs, i, true), x)
    {
      MarkFree(bs, end, i, true, x);
    }
  }

  lemma TakenCases(bs: seq<Block>, i: nat, order: seq<int>, k: nat, size: nat, p2: nat)
    requires i < |bs| && k < |order| && p2 == bs[i].at + ITEM + size
    ensures Divides(bs[i], size) <==> Size(bs[i]) >= size + ITEM + MINIALLOC
    ensures Taken(bs, i, size) == if Divides(bs[i], size) then SplitAt(bs, i, p2) else Mark(bs, i, true)
    ensures TakenOrder(bs[i], order, k, size)
         == if Divides(bs[i], size) then [p2] + Removed(order, k) else Removed(order, k)
  {
  }

  lemma TakenFacts(bs: seq<Block>, i: nat, size: nat)
    requires Spread(bs) && i < |bs| && !bs[i].used
    ensures Spread(Taken(bs, i, size))
    ensures FreeBytes(Taken(bs, i, size)) == FreeBytes(bs) - if Divides(bs[i], size) then size + ITEM else Size(bs[i])
  {
    SpreadIff(bs);
    SpreadIff(Taken(bs, i, size));
    if Divides(bs[i], size) {
      SmallHeap.SplitNeighbours(bs, i, bs[i].at + ITEM + size);
      SplitBytes(bs, i, bs[i].at + ITEM + size);
    } else {
      MarkBytes(bs, i, true);
    }
  }
}
