/** What a memheap promises between calls: which requests it refuses, what free undoes, and that no byte is lost. */
module MemHeapLaws {
  import opened Prelude
  import opened HeapBlocks
  import opened Rings
  import opened PoolLayout
  import opened MemHeap

  /**
   * rt_memheap_alloc refuses a request, by its test of available_size or by its search, exactly when each block that
   * suits is the only free one and has not a byte to spare: the test demands that some byte would stay available.
   */
  lemma RefusedIff(bs: seq<Block>, end: nat, size: nat)
    requires Layout(bs, end)
    ensures Refused(bs, size)
       <==> forall i :: 0 <= i < |bs| && Suits(bs[i], size) ==> Size(bs[i]) == size && OnlyFree(bs, i)
  {
    LayoutTiles(bs, end);
    forall i | 0 <= i < |bs| && Suits(bs[i], size)
      ensures bs[i] in bs && FreeBytes(bs) >= Size(bs[i])
      ensures FreeBytes(bs) == Size(bs[i]) <==> OnlyFree(bs, i)
    {
      BytesBound(bs, |bs|, i);
      if OnlyFree(bs, i) {
        OnlySpare(bs, |bs|, i);
      }
    }
    if exists b :: b in bs && Suits(b, size) {
      var b :| b in bs && Suits(b, size);
      var i :| 0 <= i < |bs| && bs[i] == b;
      assert Suits(bs[i], size);
    }
  }

  /** All blocks but block i are in use. */
  ghost predicate OnlyFree(bs: seq<Block>, i: int) {
    forall j :: 0 <= j < |bs| && j != i ==> bs[j].used
  }

  lemma {:induction false} OnlySpare(bs: seq<Block>, n: nat, i: nat)
    requires OnlyFree(bs, i) && n <= |bs| && i < |bs|
    ensures SpareTo(bs, n) == if i < n then Spare(bs[i]) else 0
  {
    if n > 0 {
      OnlySpare(bs, n - 1, i);
    }
  }

  /** A fresh pool has one free block and refuses a request for all of it. */
  lemma WholePoolRefused(size: nat)
    requires size >= 2 * ITEM + MINIALLOC && Aligned(size)
    ensures var bs := [Block(0, size - ITEM, false)];
            Suits(bs[0], size - 2 * ITEM) && Refused(bs, size - 2 * ITEM)
  {
    FreeBytesOne(Block(0, size - ITEM, false));
  }

  /** Freeing what was just allocated restores the blocks; the block has moved to the front of the free ring. */
  lemma FreeUndoesAlloc(bs: seq<Block>, end: nat, order: seq<int>, i: nat, k: nat, size: nat)
    requires Layout(bs, end) && Spread(bs) && FreeOrder(bs, order) && i < |bs| && k < |order| && order[k] == bs[i].at
    requires Suits(bs[i], size)
    ensures var bs', order' := Taken(bs, i, size), TakenOrder(bs[i], order, k, size);
            && i < |bs'| && Freed(bs', i) == bs
            && FreedOrder(bs', i, order') == [order[k]] + Removed(order, k)
  {
    SpreadIff(bs);
    hide Layout, Spread, FreeOrder, Freed, FreedOrder, SplitAt, Mark, Removed;
    if Divides(bs[i], size) {
      CutGivenBack(bs, order, i, k, bs[i].at + ITEM + size);
    } else {
      WholeGivenBack(bs, order, i, k);
    }
  }

  lemma CutGivenBack(bs: seq<Block>, order: seq<int>, i: nat, k: nat, p: nat)
    requires i < |bs| && !bs[i].used && !LeftFree(bs, i) && !RightFree(bs, i) && k < |order| && order[k] == bs[i].at
    ensures var cut := SplitAt(bs, i, p);
            && i + 1 < |cut| && Freed(cut, i) == bs
            && FreedOrder(cut, i, [p] + Removed(order, k)) == [order[k]] + Removed(order, k)
  {
    CutAndJoined(bs, i, p);
    hide SplitAt, Freed, Removed;
    assert ([p] + Removed(order, k))[1..] == Removed(order, k);
  }

  lemma WholeGivenBack(bs: seq<Block>, order: seq<int>, i: nat, k: nat)
    requires i < |bs| && !bs[i].used && !LeftFree(bs, i) && !RightFree(bs, i) && k < |order| && order[k] == bs[i].at
    ensures var whole := Mark(bs, i, true);
            && i < |whole| && Freed(whole, i) == bs
            && FreedOrder(whole, i, Removed(order, k)) == [order[k]] + Removed(order, k)
  {
    hide Removed;
    assert Mark(Mark(bs, i, true), i, false) == bs;
  }

  lemma CutAndJoined(bs: seq<Block>, i: nat, p: nat)
    requires i < |bs| && !bs[i].used && !LeftFree(bs, i) && !RightFree(bs, i)
    ensures var cut := SplitAt(bs, i, p);
            && i + 1 < |cut| && Freed(cut, i) == bs && cut[i].at == bs[i].at && cut[i + 1].at == p
            && !LeftFree(cut, i) && RightFree(cut, i)
  {
    var cut := SplitAt(bs, i, p);
    var m := Mark(cut, i, false);
    SplitPiece(bs, i, p, i);
    SplitPiece(bs, i, p, i + 1);
    if i > 0 {
      SplitPiece(bs, i, p, i - 1);
    }
    assert m[..i] == bs[..i] && m[i + 2..] == bs[i + 1..];
    assert Swallow(m, i) == bs[..i] + [bs[i]] + bs[i + 1..] == bs;
  }

  /** The sizes of the blocks in use. */
  function UsedTo(bs: seq<Block>, n: nat): int
    requires n <= |bs|
  {
    if n == 0 then 0 else UsedTo(bs, n - 1) + if bs[n - 1].used then Size(bs[n - 1]) else 0
  }

  lemma {:induction false} SizesTo(bs: seq<Block>, end: nat, n: nat)
    requires Layout(bs, end) && n <= |bs|
    ensures UsedTo(bs, n) + SpareTo(bs, n) + n * ITEM == if n < |bs| then bs[n].at else end
  {
    if n == 0 {
      assert BlockOk(bs, end, 0);
    } else {
      SizesTo(bs, end, n - 1);
      assert BlockOk(bs, end, n - 1);
    }
  }

  /** Bytes in use, bytes available and one item per block and for the tail make up the pool. */
  lemma PoolAddsUp(bs: seq<Block>, end: nat)
    requires Layout(bs, end)
    ensures UsedTo(bs, |bs|) + FreeBytes(bs) + (|bs| + 1) * ITEM == end + ITEM
  {
    SizesTo(bs, end, |bs|);
  }

  /** With nothing in use the pool is again one free block, with all but two items' bytes available. */
  lemma AllFreeAgain(bs: seq<Block>, end: nat, order: seq<int>)
    requires Layout(bs, end) && Spread(bs) && FreeOrder(bs, order)
    requires forall i :: 0 <= i < |bs| ==> !bs[i].used
    ensures bs == [Block(0, end, false)] && order == [0] && FreeBytes(bs) == end - ITEM
  {
    LayoutTiles(bs, end);
    SpreadIff(bs);
    AllFree(bs, end);
    FreeBytesOne(bs[0]);
    assert bs[0] in bs;
    assert FreeIn(bs, 0) && 0 in order;
    DistinctIff(order);
    forall j | 0 <= j < |order|
      ensures order[j] == 0
    {
      assert order[j] in order && (FreeIn(bs, order[j]) <==> order[j] in order);
    }
    assert order[0] == order[if |order| > 1 then 1 else 0];
  }

  // ----- whole runs

  /** An atomic change: alloc takes a block, free gives one back, realloc moves the end of one or gives its tail back. */
  datatype Op = Take(size: nat, k: nat) | Give | Grow(p: nat) | Trim(p: nat)

  function Fresh(pool: nat): State
    requires pool >= ITEM
  {
    State([Block(0, pool - ITEM, false)], [0], 2 * ITEM)
  }

  /** One change, to block i. */
  ghost predicate Step(pool: nat, s: State, op: Op, i: nat, s': State) {
    match op
    case Take(size, k) => RequestSize(size) == size && TakeStep(pool, s, size, i, k, s')
    case Give => GiveStep(s, i, s')
    case Grow(p) => GrowStep(pool, s, p, i, s')
    case Trim(p) => TrimStep(s, p, i, s')
  }

  /** The layout, the free ring, and max_used_size as far as one state tells. */
  ghost predicate Inv(pool: nat, s: State) {
    && pool >= ITEM && Layout(s.bs, pool - ITEM) && Spread(s.bs) && FreeOrder(s.bs, s.order)
    && s.peak >= pool - FreeBytes(s.bs)
  }

  /** Without a free block before it, a freed block is there, and is the first entry of the free ring. */
  lemma FreedInFront(s: State, i: nat, s': State)
    requires GiveStep(s, i, s') && !LeftFree(s.bs, i)
    ensures i < |s.bs| && s'.order != [] && s'.order[0] == s.bs[i].at
    ensures i < |s'.bs| && s'.bs[i] == Block(s.bs[i].at, if RightFree(s.bs, i) then s.bs[i + 1].next else s.bs[i].next, false)
  {
    if RightFree(s.bs, i) {
      SwallowPiece(Mark(s.bs, i, false), i, i);
    }
  }

  /**
   * The block that was freed last is handed out first: a request that fits into it gets it, unless it has become a part of
   * the free block before it.
   */
  lemma LastFreedFirst(pool: nat, s: State, i: nat, s': State, size: nat, j: nat, k: nat, s'': State)
    requires Inv(pool, s) && i < |s.bs| && GiveStep(s, i, s') && !LeftFree(s.bs, i) && size <= Size(s.bs[i])
    requires TakeStep(pool, s', size, j, k, s'')
    ensures s'.bs[j].at == s.bs[i].at
  {
    hide Inv, GiveStep, Freed, FreedOrder, Taken, TakenOrder, FreeBytes, Layout, FirstOnRing;
    GiveInv(pool, s, i, s');
    FreedInFront(s, i, s');
    if RightFree(s.bs, i) {
      RoomBehind(pool, s, i);
    }
    InvLayout(pool, s');
    FrontServes(s'.bs, pool - ITEM, s'.order, i, k, size);
  }

  lemma InvLayout(pool: nat, s: State)
    requires Inv(pool, s)
    ensures pool >= ITEM && Layout(s.bs, pool - ITEM)
  {
  }

  lemma RoomBehind(pool: nat, s: State, i: nat)
    requires Inv(pool, s) && i < |s.bs| && RightFree(s.bs, i)
    ensures s.bs[i + 1].next >= s.bs[i].next
  {
    BlockBounds(s.bs, pool - ITEM, i);
    BlockBounds(s.bs, pool - ITEM, i + 1);
  }

  /** A request that fits into the first block on the ring takes that. */
  lemma FrontServes(bs: seq<Block>, end: nat, order: seq<int>, i: nat, k: nat, size: nat)
    requires Layout(bs, end) && i < |bs| && Suits(bs[i], size) && order != [] && order[0] == bs[i].at
    requires FirstOnRing(bs, order, k, size)
    ensures k == 0
  {
    hide Layout;
    var b := BlockAt(bs, order[0]);
    assert b in bs && bs[i] in bs;
    StartsApart(bs, end, b, bs[i]);
  }

  ghost predicate Run(pool: nat, run: seq<State>, ops: seq<Op>, at: seq<nat>) {
    && pool >= ITEM && |run| == |ops| + 1 && |at| == |ops| && run[0] == Fresh(pool)
    && forall k, l :: 0 <= k && l == k + 1 < |run| ==> Step(pool, run[k], ops[k], at[k], run[l])
  }

  lemma FreshInv(pool: nat)
    requires pool >= 2 * ITEM + MINIALLOC && Aligned(pool)
    ensures Inv(pool, Fresh(pool)) && FreeBytes(Fresh(pool).bs) == pool - 2 * ITEM
  {
    FreshFacts(pool);
  }

  lemma TakeInv(pool: nat, s: State, size: nat, i: nat, k: nat, s': State)
    requires Inv(pool, s) && RequestSize(size) == size && TakeStep(pool, s, size, i, k, s')
    ensures Inv(pool, s')
  {
    hide Layout, Spread, FreeOrder, FreeBytes, Taken, TakenOrder, SplitAt, Mark, Removed, Divides, Aligned;
    var end, b, p := pool - ITEM, s.bs[i], s.bs[i].at + ITEM + size;
    TakenFacts(s.bs, i, size);
    TakenCases(s.bs, i, s.order, k, size, p);
    RequestAligned(size);
    BlockBounds(s.bs, end, i);
    AlignedItem(b.at, size);
    if Divides(b, size) {
      SplitLayout(s.bs, i, p, end);
      SplitOrder(s.bs, end, i, p, s.order, k);
    } else {
      MarkLayout(s.bs, i, true, end);
      UseOrder(s.bs, end, i, s.order, k);
    }
  }

  lemma BlockBounds(bs: seq<Block>, end: nat, i: nat)
    requires Layout(bs, end) && i < |bs|
    ensures Aligned(bs[i].at) && Size(bs[i]) >= MINIALLOC && bs[i].next == if i + 1 < |bs| then bs[i + 1].at else end
  {
    assert BlockOk(bs, end, i);
  }

  /** A free block that is not on the ring yet is joined with its neighbours. */
  lemma ClosedInv(bs: seq<Block>, end: nat, i: nat, order: seq<int>)
    requires Layout(bs, end) && i < |bs| && !bs[i].used && HoleOrder(bs, order, bs[i].at)
    ensures Layout(Closed(bs, i), end) && FreeOrder(Closed(bs, i), FreedOrder(bs, i, order))
  {
    hide Layout, HoleOrder, FreeOrder, Swallow, Without, JoinNext;
    if LeftFree(bs, i) {
      ClosedLeft(bs, end, i, order);
    } else {
      ClosedFront(bs, end, i, order);
    }
  }

  lemma ClosedLeft(bs: seq<Block>, end: nat, i: nat, order: seq<int>)
    requires Layout(bs, end) && i < |bs| && !bs[i].used && HoleOrder(bs, order, bs[i].at) && LeftFree(bs, i)
    ensures Layout(Closed(bs, i), end) && FreeOrder(Closed(bs, i), FreedOrder(bs, i, order))
  {
    hide Layout, HoleOrder, FreeOrder, FreeIn, Swallow, Without, JoinNext;
    SidesOf(bs, i, order);
    SwallowLayout(bs, i - 1, end);
    LeftOrder(bs, end, i, order);
    LeftHead(bs, i);
    JoinedInv(Swallow(bs, i - 1), end, i - 1, order, HEADER);
    NoneMissing(Closed(bs, i), FreedOrder(bs, i, order));
  }

  lemma ClosedFront(bs: seq<Block>, end: nat, i: nat, order: seq<int>)
    requires Layout(bs, end) && i < |bs| && !bs[i].used && HoleOrder(bs, order, bs[i].at) && !LeftFree(bs, i)
    ensures Layout(Closed(bs, i), end) && FreeOrder(Closed(bs, i), FreedOrder(bs, i, order))
  {
    hide Layout, HoleOrder, FreeOrder, FreeIn, Swallow, Without, JoinNext;
    SidesOf(bs, i, order);
    JoinNextKeeps(bs, i);
    JoinedInv(bs, end, i, order, bs[i].at);
    FrontOrder(JoinNext(bs, i), if RightFree(bs, i) then Without(order, bs[i + 1].at) else order, bs[i].at);
  }

  lemma LeftHead(bs: seq<Block>, i: nat)
    requires i < |bs| && LeftFree(bs, i)
    ensures Swallow(bs, i - 1)[i - 1].at == bs[i - 1].at && !Swallow(bs, i - 1)[i - 1].used
  {
  }

  lemma JoinedInv(bs: seq<Block>, end: nat, j: nat, order: seq<int>, hole: int)
    requires Layout(bs, end) && j < |bs| && HoleOrder(bs, order, hole) && (hole == bs[j].at || hole == HEADER)
    ensures Layout(JoinNext(bs, j), end)
    ensures HoleOrder(JoinNext(bs, j), if RightFree(bs, j) then Without(order, bs[j + 1].at) else order, hole)
  {
    hide Layout, HoleOrder, Without;
    if RightFree(bs, j) {
      SwallowLayout(bs, j, end);
      var k := RightOrder(bs, end, j, order, hole);
    }
  }

  lemma GiveInv(pool: nat, s: State, i: nat, s': State)
    requires Inv(pool, s) && GiveStep(s, i, s')
    ensures Inv(pool, s')
  {
    hide Layout, Spread, FreeOrder, HoleOrder, FreeBytes, Closed, FreedOrder, Gain;
    var end, m := pool - ITEM, Mark(s.bs, i, false);
    BlockBounds(s.bs, end, i);
    FreedFacts(s.bs, i, end);
    FreedOrderFacts(s.bs, i, end, s.order);
    MarkLayout(s.bs, i, false, end);
    ClosedInv(m, end, i, s.order);
  }

  lemma GrowInv(pool: nat, s: State, p: nat, i: nat, s': State)
    requires Inv(pool, s) && GrowStep(pool, s, p, i, s')
    ensures Inv(pool, s')
  {
    hide Layout, Spread, FreeOrder, HoleOrder, FreeBytes, FreeIn, SplitAt, Removed, Without, Aligned;
    var end := pool - ITEM;
    BlockBounds(s.bs, end, i);
    GrownFacts(s.bs, i, p);
    SwallowPiece(s.bs, i, i);
    SwallowLayout(s.bs, i, end);
    NoneMissing(s.bs, s.order);
    var k := RightOrder(s.bs, end, i, s.order, HEADER);
    var joined, rest := Swallow(s.bs, i), Without(s.order, s.bs[i].next);
    SplitLayout(joined, i, p, end);
    CutOrder(joined, end, i, p, rest);
    FrontOrder(Grown(s.bs, i, p), rest, p);
  }

  lemma TrimInv(pool: nat, s: State, p: nat, i: nat, s': State)
    requires Inv(pool, s) && TrimStep(s, p, i, s')
    ensures Inv(pool, s')
  {
    hide Layout, Spread, FreeOrder, HoleOrder, FreeBytes, FreeIn, SplitAt, JoinNext, Without, Aligned;
    var end, cut := pool - ITEM, SplitAt(s.bs, i, p);
    ShrunkFacts(s.bs, i, p, end);
    CutSides(s.bs, i, p);
    SplitLayout(s.bs, i, p, end);
    NoneMissing(s.bs, s.order);
    CutOrder(s.bs, end, i, p, s.order);
    JoinNextKeeps(cut, i + 1);
    JoinedInv(cut, end, i + 1, s.order, p);
    var rest := if RightFree(s.bs, i) then Without(s.order, s.bs[i + 1].at) else s.order;
    FrontOrder(Shrunk(s.bs, i, p), rest, p);
  }

  /** Whatever is allocated, freed, grown and shrunk, in any order: layout, free ring and statistics stay right. */
  lemma {:induction false} RunInv(pool: nat, run: seq<State>, ops: seq<Op>, at: seq<nat>, n: nat)
    requires pool >= 2 * ITEM + MINIALLOC && Aligned(pool) && Run(pool, run, ops, at) && n < |run|
    ensures Inv(pool, run[n])
  {
    if n == 0 {
      FreshInv(pool);
    } else {
      RunInv(pool, run, ops, at, n - 1);
      var s, s', i := run[n - 1], run[n], at[n - 1];
      assert Step(pool, s, ops[n - 1], i, s');
      hide Inv, TakeStep, GiveStep, GrowStep, TrimStep;
      match ops[n - 1]
      case Take(size, k) => TakeInv(pool, s, size, i, k, s');
      case Give => GiveInv(pool, s, i, s');
      case Grow(p) => GrowInv(pool, s, p, i, s');
      case Trim(p) => TrimInv(pool, s, p, i, s');
    }
  }

  /** What rt_memheap_info would report as used: all but available_size. */
  function InUse(pool: nat, s: State): int {
    pool - FreeBytes(s.bs)
  }

  lemma StepPeak(pool: nat, s: State, op: Op, i: nat, s': State)
    requires Inv(pool, s) && Step(pool, s, op, i, s')
    ensures s'.peak == if s.peak < InUse(pool, s') then InUse(pool, s') else s.peak
  {
    match op
    case Give => GiveInv(pool, s, i, s');
    case Trim(p) => TrimInv(pool, s, p, i, s');
    case _ =>
  }

  ghost predicate PeakOf(pool: nat, run: seq<State>, n: nat)
    requires n < |run|
  {
    && (forall k :: 0 <= k <= n ==> InUse(pool, run[k]) <= run[n].peak)
    && exists k :: 0 <= k <= n && InUse(pool, run[k]) == run[n].peak
  }

  lemma OneMore(pool: nat, run: seq<State>, n: nat)
    requires n + 1 < |run| && PeakOf(pool, run, n)
    requires var u, m := InUse(pool, run[n + 1]), run[n].peak; run[n + 1].peak == if m < u then u else m
    ensures PeakOf(pool, run, n + 1)
  {
    var k :| 0 <= k <= n && InUse(pool, run[k]) == run[n].peak;
    assert InUse(pool, run[if run[n + 1].peak == run[n].peak then k else n + 1]) == run[n + 1].peak;
  }

  lemma FreshPeak(pool: nat, run: seq<State>, ops: seq<Op>, at: seq<nat>)
    requires pool >= 2 * ITEM + MINIALLOC && Aligned(pool) && Run(pool, run, ops, at)
    ensures PeakOf(pool, run, 0)
  {
    FreshInv(pool);
    assert InUse(pool, run[0]) == run[0].peak;
  }

  lemma OneStep(pool: nat, run: seq<State>, ops: seq<Op>, at: seq<nat>, n: nat)
    requires pool >= 2 * ITEM + MINIALLOC && Aligned(pool) && Run(pool, run, ops, at) && n + 1 < |run|
    ensures n < |ops| == |at| && Inv(pool, run[n]) && Step(pool, run[n], ops[n], at[n], run[n + 1])
  {
    RunInv(pool, run, ops, at, n);
  }

  /** max_used_size is the largest pool_size - available_size of the run so far. */
  lemma {:induction false} RunPeak(pool: nat, run: seq<State>, ops: seq<Op>, at: seq<nat>, n: nat)
    requires pool >= 2 * ITEM + MINIALLOC && Aligned(pool) && Run(pool, run, ops, at) && n < |run|
    ensures PeakOf(pool, run, n)
  {
    hide Run, Inv, Step, PeakOf, InUse;
    if n == 0 {
      FreshPeak(pool, run, ops, at);
    } else {
      OneStep(pool, run, ops, at, n - 1);
      RunPeak(pool, run, ops, at, n - 1);
      StepPeak(pool, run[n - 1], ops[n - 1], at[n - 1], run[n]);
      OneMore(pool, run, n - 1);
    }
  }

  /** Nothing leaks: used, free and item bytes make up the pool at all times, and with nothing in use the pool is fresh. */
  lemma RunConserves(pool: nat, run: seq<State>, ops: seq<Op>, at: seq<nat>, n: nat)
    requires pool >= 2 * ITEM + MINIALLOC && Aligned(pool) && Run(pool, run, ops, at) && n < |run|
    ensures var bs := run[n].bs; UsedTo(bs, |bs|) + FreeBytes(bs) + (|bs| + 1) * ITEM == pool
    ensures (forall j :: 0 <= j < |run[n].bs| ==> !run[n].bs[j].used) ==>
              run[n].bs == Fresh(pool).bs && run[n].order == Fresh(pool).order
  {
    RunInv(pool, run, ops, at, n);
    PoolAddsUp(run[n].bs, pool - ITEM);
    if forall j :: 0 <= j < |run[n].bs| ==> !run[n].bs[j].used {
      AllFreeAgain(run[n].bs, pool - ITEM, run[n].order);
    }
  }
}
