/** What the small-memory heap promises over whole runs of rt_malloc, rt_free and rt_realloc. */
module HeapLaws {
  import opened Prelude
  import opened HeapBlocks
  import opened SmallHeap

  // ----- which block an allocation takes

  /** With no free block below the hint, the search from the hint finds the lowest block that fits, of those below the limit. */
  lemma LowestBlockTaken(bs: seq<Block>, end: nat, lfree: nat, limit: int, size: nat, i: nat)
    requires Tiled(bs, end) && Lowest(bs, lfree)
    ensures FirstFit(bs, i, lfree, limit, size)
       <==> i < |bs| && Fits(bs[i], size) && bs[i].at < limit && forall j :: 0 <= j < i ==> !Fits(bs[j], size)
  {
    assert forall j :: 0 <= j < |bs| && Fits(bs[j], size) ==> bs[j] in bs;
  }

  /**
   * rt_malloc refuses a request exactly when every block that fits lies below the hint, or is the last one and has not a
   * byte to spare: the search stops short of offset mem_size_aligned - size, where only such a block can start.
   */
  lemma RefusedIff(bs: seq<Block>, memSize: nat, lfree: nat, size: nat)
    requires Tiled(bs, memSize + SIZEOF)
    ensures NoFit(bs, lfree, memSize - size, size)
       <==> forall j :: 0 <= j < |bs| && Fits(bs[j], size) ==>
              bs[j].at < lfree || (j == |bs| - 1 && bs[j].Payload() == size)
  {
    EndsBy(bs, memSize + SIZEOF);
    if NoFit(bs, lfree, memSize - size, size) {
      forall j | 0 <= j < |bs| && Fits(bs[j], size) && bs[j].at >= lfree
        ensures j == |bs| - 1 && bs[j].Payload() == size
      {
        LastBlock(bs, memSize + SIZEOF, j);
      }
    }
  }

  lemma LastBlock(bs: seq<Block>, end: nat, j: nat)
    requires Tiled(bs, end) && j < |bs|
    ensures bs[j].next == end <==> j == |bs| - 1
  {
    if j < |bs| - 1 {
      assert bs[j].next <= bs[|bs| - 1].at;
    }
  }

  /** So a fresh heap has room for mem_size_aligned bytes and still refuses a request for them. */
  lemma WholeHeapRefused(memSize: nat)
    requires memSize >= MIN_SIZE && Aligned(memSize)
    ensures var bs := [Block(0, memSize + SIZEOF, false)];
            Fits(bs[0], memSize) && NoFit(bs, 0, memSize - memSize, memSize)
  {
    var bs := [Block(0, memSize + SIZEOF, false)];
    RefusedIff(bs, memSize, 0, memSize);
  }

  // ----- free undoes malloc

  lemma FreeUndoesMalloc(bs: seq<Block>, i: nat, size: nat)
    requires NoFreeNeighbours(bs) && i < |bs| && Fits(bs[i], size)
    ensures i < |Allocated(bs, i, size)| && Released(Allocated(bs, i, size), i) == bs
  {
    var a := Allocated(bs, i, size);
    var m := Mark(a, i, false);
    if bs[i].Payload() >= size + SIZEOF + MIN_SIZE {
      SplitPiece(bs, i, bs[i].at + SIZEOF + size, i);
      SplitPiece(bs, i, bs[i].at + SIZEOF + size, i + 1);
      assert m[..i] == bs[..i] && m[i + 2..] == bs[i + 1..];
      assert Forward(m, i) == bs[..i] + [bs[i]] + bs[i + 1..] == bs;
    } else {
      assert m == bs;
    }
    assert i > 0 ==> bs[i - 1].used;
  }

  // ----- shrinking in place and the hint

  ghost predicate HintServes(bs: seq<Block>, i: nat, lfree: nat) {
    i < |bs| && (lfree < bs[i].at || (i + 1 < |bs| && !bs[i + 1].used && lfree == bs[i + 1].at))
  }

  /**
   * Shrinking block i in place at offset p leaves no free block below the hint exactly when some free block lay below
   * block i, or the hint was the free block right after it: rt_realloc itself never lowers lfree.
   */
  lemma ShrinkKeepsLowestIff(bs: seq<Block>, i: nat, p: nat, lfree: nat, end: nat)
    requires Tiled(bs, end) && HintOk(bs, end, lfree) && Lowest(bs, lfree)
    requires i < |bs| && bs[i].used && bs[i].at + SIZEOF < p && p + SIZEOF < bs[i].next
    ensures Lowest(Coalesced(SplitAt(bs, i, p), i + 1), PluggedHint(SplitAt(bs, i, p), i + 1, lfree))
       <==> HintServes(bs, i, lfree)
  {
    var cut := SplitAt(bs, i, p);
    var next := i + 1 < |bs| && !bs[i + 1].used;
    SplitKeeps(bs, i, p);
    SplitPiece(bs, i, p, i);
    SplitPiece(bs, i, p, i + 1);
    HintNotInside(bs, i, end, lfree);
    if i + 1 < |bs| {
      SplitPiece(bs, i, p, i + 2);
      assert bs[i + 1] in bs && bs[i].next == bs[i + 1].at;
    }
    if next {
      MergeKeeps(cut, i + 1);
    }
    var after := if next then MergeAt(cut, i + 1) else cut;
    assert Coalesced(cut, i + 1) == after;
    TailIsFree(bs, after, i, p, lfree, next);
  }

  lemma TailIsFree(bs: seq<Block>, after: seq<Block>, i: nat, p: nat, lfree: nat, next: bool)
    requires Lowest(bs, lfree) && i < |bs| && bs[i].at < p < bs[i].next && (lfree < bs[i].at || bs[i].next <= lfree)
    requires next ==> i + 1 < |bs| && bs[i].next == bs[i + 1].at
    requires exists b :: b in after && b.at == p && !b.used
    requires forall b :: b in after && !b.used ==> b in bs || b.at == p
    ensures Lowest(after, if next && lfree == bs[i + 1].at then p else lfree)
       <==> lfree < bs[i].at || (next && lfree == bs[i + 1].at)
  {
  }

  /** The hint never points into a block in use. */
  lemma HintNotInside(bs: seq<Block>, i: nat, end: nat, lfree: nat)
    requires Tiled(bs, end) && HintOk(bs, end, lfree) && i < |bs| && bs[i].used
    ensures lfree < bs[i].at || bs[i].next <= lfree
  {
    EndsBy(bs, end);
    if lfree != end {
      var b :| b in bs && b.at == lfree && !b.used;
      BlocksApart(bs, end, b, bs[i]);
    }
  }

  /** A full heap whose only block is shrunk: its tail fits, but the next allocation starts at the end and finds nothing. */
  lemma ShrunkTailMissed(limit: int)
    ensures var bs := [Block(0, 112, true)];
            && Tiled(bs, 112) && AllAligned(bs) && HintOk(bs, 112, 112) && Lowest(bs, 112)
            && var cut := SplitAt(bs, 0, 28);
            var after, l := Coalesced(cut, 1), PluggedHint(cut, 1, 112);
            after[1] == Block(28, 112, false) && Fits(after[1], 12) && l == 112 && NoFit(after, l, limit, 12)
  {
    var bs := [Block(0, 112, true)];
    var cut := SplitAt(bs, 0, 28);
    assert cut == [Block(0, 28, true), Block(28, 112, false)];
  }

  // ----- whole runs

  /** An atomic change: rt_malloc takes a block, rt_free gives one back, rt_realloc trims one in place. */
  datatype Op = Take(size: nat) | Give | Trim(p: nat)

  function Fresh(memSize: nat): State {
    State([Block(0, memSize + SIZEOF, false)], 0, 0, 0)
  }

  /** One change, to block i. */
  ghost predicate Step(memSize: nat, s: State, op: Op, i: nat, s': State) {
    match op
    case Take(size) => TakeStep(memSize, s, size, i, s')
    case Give => GiveStep(s, i, s')
    case Trim(p) => TrimStep(s, p, i, s')
  }

  ghost predicate Inv(memSize: nat, s: State) {
    && Tiled(s.bs, memSize + SIZEOF) && AllAligned(s.bs) && NoFreeNeighbours(s.bs)
    && HintOk(s.bs, memSize + SIZEOF, s.lfree)
    && s.used == UsedSpan(s.bs) <= s.peak
  }

  /** A run: states linked by changes; run[k] changes block at[k] by ops[k] and gives run[k + 1]. */
  ghost predicate Run(memSize: nat, run: seq<State>, ops: seq<Op>, at: seq<nat>) {
    && |run| == |ops| + 1 && |at| == |ops| && run[0] == Fresh(memSize)
    && forall k, l :: 0 <= k && l == k + 1 < |run| ==> Step(memSize, run[k], ops[k], at[k], run[l])
  }

  lemma MergeInv(bs: seq<Block>, i: nat, end: nat, l: nat)
    requires Tiled(bs, end) && AllAligned(bs) && HintOk(bs, end, l) && i + 1 < |bs| && !bs[i].used && !bs[i + 1].used
    ensures var r := MergeAt(bs, i);
            Tiled(r, end) && AllAligned(r) && HintOk(r, end, if l == bs[i + 1].at then bs[i].at else l)
  {
    MergeTiled(bs, i, end);
    MergeAligned(bs, i);
    MergeHint(bs, i, end, l);
  }

  /** Closing a hole keeps everything. */
  lemma CoalescedInv(bs: seq<Block>, i: nat, end: nat, l: nat)
    requires Tiled(bs, end) && AllAligned(bs) && HintOk(bs, end, l) && i < |bs| && !bs[i].used && HoleOnlyAt(bs, i)
    ensures var r := Coalesced(bs, i);
            && Tiled(r, end) && AllAligned(r) && NoFreeNeighbours(r) && HintOk(r, end, PluggedHint(bs, i, l))
            && UsedSpan(r) == UsedSpan(bs)
  {
    hide Tiled, AllAligned, NoFreeNeighbours, HintOk, SpanTo, HoleOnlyAt, Live;
    CoalescedOk(bs, i);
    ForwardKeepsLive(bs, i);
    if i + 1 < |bs| && !bs[i + 1].used {
      MergeInv(bs, i, end, l);
    }
    var b1 := Forward(bs, i);
    if i > 0 && !b1[i - 1].used {
      MergeInv(b1, i - 1, end, ForwardHint(bs, i, l));
    }
  }

  lemma TakeLayout(bs: seq<Block>, i: nat, size: nat, end: nat, p: nat)
    requires Tiled(bs, end) && AllAligned(bs) && i < |bs| && Fits(bs[i], size) && size > 0 && Aligned(size)
    requires p == bs[i].at + SIZEOF + size
    ensures Tiled(Allocated(bs, i, size), end) && AllAligned(Allocated(bs, i, size))
  {
    AllocatedCases(bs, i, size, p);
    if bs[i].Payload() >= size + SIZEOF + MIN_SIZE {
      assert Aligned(bs[i].at);
      AlignedSum(bs[i].at, size);
      SplitTiled(bs, i, p, end);
      SplitAligned(bs, i, p);
    } else {
      MarkTiled(bs, i, true, end);
      MarkAligned(bs, i, true);
    }
  }

  lemma TakeInv(memSize: nat, s: State, size: nat, i: nat, s': State)
    requires Inv(memSize, s) && TakeStep(memSize, s, size, i, s')
    ensures Inv(memSize, s') && (Lowest(s.bs, s.lfree) ==> Lowest(s'.bs, s'.lfree))
  {
    hide Tiled, AllAligned, NoFreeNeighbours, HintOk, SpanTo, Allocated;
    TakeLayout(s.bs, i, size, memSize + SIZEOF, s.bs[i].at + SIZEOF + size);
    AllocatedHint(s.bs, i, memSize + SIZEOF, s.lfree, size);
    AllocatedNeighbours(s.bs, i, size);
    AllocatedSpan(s.bs, i, size);
    ghost var bs' := Allocated(s.bs, i, size);
    assert s'.bs == bs';
  }

  lemma GiveInv(memSize: nat, s: State, i: nat, s': State)
    requires Inv(memSize, s) && GiveStep(s, i, s')
    ensures Inv(memSize, s') && (Lowest(s.bs, s.lfree) ==> Lowest(s'.bs, s'.lfree))
  {
    hide Tiled, AllAligned, HintOk, SpanTo, Lowest, Coalesced, PluggedHint;
    var end, m := memSize + SIZEOF, Mark(s.bs, i, false);
    MarkTiled(s.bs, i, false, end);
    MarkAligned(s.bs, i, false);
    MarkSpan(s.bs, i, false);
    ReleaseHint(s.bs, i, end, s.lfree);
    CoalescedInv(m, i, end, Min(s.bs[i].at, s.lfree));
    ReleasedLowest(s.bs, i, s.lfree, end);
  }

  lemma TrimInv(memSize: nat, s: State, p: nat, i: nat, s': State)
    requires Inv(memSize, s) && TrimStep(s, p, i, s')
    ensures Inv(memSize, s')
  {
    var end := memSize + SIZEOF;
    SplitTiled(s.bs, i, p, end);
    SplitAligned(s.bs, i, p);
    SplitPiece(s.bs, i, p, i + 1);
    ShrinkFacts(s.bs, i, end, s.lfree, p);
    CoalescedInv(SplitAt(s.bs, i, p), i + 1, end, s.lfree);
  }

  lemma FreshInv(memSize: nat)
    requires memSize >= MIN_SIZE && Aligned(memSize)
    ensures Inv(memSize, Fresh(memSize)) && Lowest(Fresh(memSize).bs, Fresh(memSize).lfree)
  {
    var b := Block(0, memSize + SIZEOF, false);
    assert Fresh(memSize).bs[0] == b && b in Fresh(memSize).bs;
    UsedSpanOne(b);
  }

  /** Whatever is allocated, freed and shrunk, in any order: the layout and the statistics stay right. */
  lemma {:induction false} RunInv(memSize: nat, run: seq<State>, ops: seq<Op>, at: seq<nat>, n: nat)
    requires memSize >= MIN_SIZE && Aligned(memSize) && Run(memSize, run, ops, at) && n < |run|
    ensures Inv(memSize, run[n])
    ensures (forall k :: 0 <= k < n ==> !ops[k].Trim?) ==> Lowest(run[n].bs, run[n].lfree)
  {
    hide Run, Inv, Step, Lowest;
    if n == 0 {
      FreshInv(memSize);
      RunStart(memSize, run, ops, at);
    } else {
      RunInv(memSize, run, ops, at, n - 1);
      RunStep(memSize, run, ops, at, n - 1);
      StepInv(memSize, run[n - 1], ops[n - 1], at[n - 1], run[n]);
    }
  }

  lemma RunStart(memSize: nat, run: seq<State>, ops: seq<Op>, at: seq<nat>)
    requires Run(memSize, run, ops, at)
    ensures |run| == |ops| + 1 && run[0] == Fresh(memSize)
  {
  }

  lemma RunStep(memSize: nat, run: seq<State>, ops: seq<Op>, at: seq<nat>, n: nat)
    requires Run(memSize, run, ops, at) && n + 1 < |run|
    ensures n < |ops| == |at| < |run| && Step(memSize, run[n], ops[n], at[n], run[n + 1])
  {
  }

  lemma StepInv(memSize: nat, s: State, op: Op, i: nat, s': State)
    requires Inv(memSize, s) && Step(memSize, s, op, i, s')
    ensures Inv(memSize, s') && (!op.Trim? && Lowest(s.bs, s.lfree) ==> Lowest(s'.bs, s'.lfree))
  {
    hide Inv, Lowest, TakeStep, GiveStep, TrimStep;
    match op
    case Take(size) => TakeInv(memSize, s, size, i, s');
    case Give => GiveInv(memSize, s, i, s');
    case Trim(p) => TrimInv(memSize, s, p, i, s');
  }

  lemma OneStep(memSize: nat, run: seq<State>, ops: seq<Op>, at: seq<nat>, n: nat)
    requires memSize >= MIN_SIZE && Aligned(memSize) && Run(memSize, run, ops, at) && n + 1 < |run|
    ensures n < |ops| == |at| < |run| && Inv(memSize, run[n]) && Step(memSize, run[n], ops[n], at[n], run[n + 1])
  {
    RunInv(memSize, run, ops, at, n);
    RunStep(memSize, run, ops, at, n);
  }

  lemma StepLowestIff(memSize: nat, s: State, op: Op, i: nat, s': State)
    requires Inv(memSize, s) && Step(memSize, s, op, i, s') && Lowest(s.bs, s.lfree)
    ensures Lowest(s'.bs, s'.lfree) <==> (op.Trim? ==> HintServes(s.bs, i, s.lfree))
  {
    hide Inv, Lowest, TakeStep, GiveStep, HintServes, Coalesced, PluggedHint;
    match op
    case Take(size) => TakeInv(memSize, s, size, i, s');
    case Give => GiveInv(memSize, s, i, s');
    case Trim(p) => TrimLowestIff(memSize, s, p, i, s');
  }

  lemma TrimLowestIff(memSize: nat, s: State, p: nat, i: nat, s': State)
    requires Inv(memSize, s) && TrimStep(s, p, i, s') && Lowest(s.bs, s.lfree)
    ensures Lowest(s'.bs, s'.lfree) <==> HintServes(s.bs, i, s.lfree)
  {
    hide Lowest, HintServes, Coalesced, PluggedHint;
    ShrinkKeepsLowestIff(s.bs, i, p, s.lfree, memSize + SIZEOF);
  }

  ghost predicate LowestUpTo(run: seq<State>, n: nat)
    requires n < |run|
  {
    forall k :: 0 <= k <= n ==> Lowest(run[k].bs, run[k].lfree)
  }

  /** At each of the first n steps that shrank a block, the hint was below that block or right behind it. */
  ghost predicate HintServed(run: seq<State>, ops: seq<Op>, at: seq<nat>, n: nat)
    requires n <= |ops| == |at| <= |run|
  {
    forall k :: 0 <= k < n && ops[k].Trim? ==> HintServes(run[k].bs, at[k], run[k].lfree)
  }

  lemma OneLowestMore(run: seq<State>, ops: seq<Op>, at: seq<nat>, n: nat)
    requires n < |ops| == |at| < |run|
    ensures LowestUpTo(run, n + 1) <==> LowestUpTo(run, n) && Lowest(run[n + 1].bs, run[n + 1].lfree)
    ensures LowestUpTo(run, n) ==> Lowest(run[n].bs, run[n].lfree)
    ensures HintServed(run, ops, at, n + 1)
       <==> HintServed(run, ops, at, n) && (ops[n].Trim? ==> HintServes(run[n].bs, at[n], run[n].lfree))
  {
    hide Lowest, HintServes;
  }

  lemma FreshLowest(memSize: nat, run: seq<State>, ops: seq<Op>, at: seq<nat>)
    requires memSize >= MIN_SIZE && Aligned(memSize) && Run(memSize, run, ops, at)
    ensures LowestUpTo(run, 0) && HintServed(run, ops, at, 0)
  {
    FreshInv(memSize);
  }

  /** Over a run, no free block ever lies below lfree if and only if each block that was shrunk was served by the hint. */
  lemma {:induction false} RunLowestIff(memSize: nat, run: seq<State>, ops: seq<Op>, at: seq<nat>, n: nat)
    requires memSize >= MIN_SIZE && Aligned(memSize) && Run(memSize, run, ops, at) && n < |run|
    ensures LowestUpTo(run, n) <==> HintServed(run, ops, at, n)
  {
    hide Run, Inv, Step, Lowest, HintServes, LowestUpTo, HintServed;
    if n == 0 {
      FreshLowest(memSize, run, ops, at);
    } else {
      OneStep(memSize, run, ops, at, n - 1);
      OneLowestMore(run, ops, at, n - 1);
      RunLowestIff(memSize, run, ops, at, n - 1);
      if Lowest(run[n - 1].bs, run[n - 1].lfree) {
        StepLowestIff(memSize, run[n - 1], ops[n - 1], at[n - 1], run[n]);
      }
    }
  }

  lemma StepPeak(memSize: nat, s: State, op: Op, i: nat, s': State)
    requires Inv(memSize, s) && Step(memSize, s, op, i, s')
    ensures s'.peak == if s.peak < s'.used then s'.used else s.peak
  {
  }

  /** max_mem is the largest used_mem of the run so far. */
  lemma {:induction false} RunPeak(memSize: nat, run: seq<State>, ops: seq<Op>, at: seq<nat>, n: nat)
    requires memSize >= MIN_SIZE && Aligned(memSize) && Run(memSize, run, ops, at) && n < |run|
    ensures forall k :: 0 <= k <= n ==> run[k].used <= run[n].peak
    ensures exists k :: 0 <= k <= n && run[k].used == run[n].peak
  {
    hide Inv, Step;
    if n == 0 {
      assert run[0].used == run[0].peak;
    } else {
      RunPeak(memSize, run, ops, at, n - 1);
      RunInv(memSize, run, ops, at, n - 1);
      StepPeak(memSize, run[n - 1], ops[n - 1], at[n - 1], run[n]);
      PeakSoFar(run, n);
    }
  }

  lemma PeakSoFar(run: seq<State>, n: nat)
    requires 0 < n < |run| && run[n].peak == if run[n - 1].peak < run[n].used then run[n].used else run[n - 1].peak
    requires forall k :: 0 <= k <= n - 1 ==> run[k].used <= run[n - 1].peak
    requires exists k :: 0 <= k <= n - 1 && run[k].used == run[n - 1].peak
    ensures forall k :: 0 <= k <= n ==> run[k].used <= run[n].peak
    ensures exists k :: 0 <= k <= n && run[k].used == run[n].peak
  {
    if run[n].peak != run[n - 1].peak {
      assert run[n].used == run[n].peak;
    }
  }

  /** Nothing leaks: used and free bytes add up to the region, and when nothing is in use the heap is fresh again. */
  lemma RunConserves(memSize: nat, run: seq<State>, ops: seq<Op>, at: seq<nat>, n: nat)
    requires memSize >= MIN_SIZE && Aligned(memSize) && Run(memSize, run, ops, at) && n < |run|
    ensures run[n].used + FreeSpan(run[n].bs) == memSize + SIZEOF
    ensures run[n].used == 0 <==> run[n].bs == Fresh(memSize).bs
  {
    RunInv(memSize, run, ops, at, n);
    SpansAddUp(run[n].bs, memSize + SIZEOF);
    UsedSpanOne(Block(0, memSize + SIZEOF, false));
    if run[n].used == 0 {
      NothingUsed(run[n].bs, |run[n].bs|, memSize + SIZEOF);
      AllFree(run[n].bs, memSize + SIZEOF);
    }
  }

  lemma {:induction false} NothingUsed(bs: seq<Block>, n: nat, end: nat)
    requires Tiled(bs, end) && n <= |bs|
    ensures SpanTo(bs, n) >= 0
    ensures SpanTo(bs, n) == 0 ==> forall i :: 0 <= i < n ==> !bs[i].used
  {
    if n > 0 {
      NothingUsed(bs, n - 1, end);
    }
  }
}
