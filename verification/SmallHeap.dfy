/** The allocator of mem.c: first fit over in-band headers, with splitting, two-sided coalescing and a lowest-free hint. */
module SmallHeap {
  import opened Prelude
  import opened HeapBlocks

  const NULL: int := -1
  const HEAP_MAGIC: nat := 0x1ea0

  function Le(n: nat, bytes: nat): (r: seq<byte>)
    ensures |r| == bytes
  {
    if bytes == 0 then [] else [n % 256] + Le(n / 256, bytes - 1)
  }

  /** A header as it lies in memory: magic, used, next, prev. */
  function HeaderBytes(h: Header): (r: seq<byte>)
    ensures |r| == SIZEOF
  {
    Le(HEAP_MAGIC, 2) + Le(if h.used then 1 else 0, 2) + Le(h.next, 4) + Le(h.prev, 4)
  }

  /** The number that a little-endian word holds. */
  function Value(word: seq<byte>): nat {
    if word == [] then 0 else word[0] + 256 * Value(word[1..])
  }

  function Pow256(n: nat): nat {
    if n == 0 then 1 else 256 * Pow256(n - 1)
  }

  lemma {:induction false} LeValue(n: nat, bytes: nat)
    requires n < Pow256(bytes)
    ensures Value(Le(n, bytes)) == n
  {
    if bytes > 0 {
      LeValue(n / 256, bytes - 1);
      assert Le(n, bytes)[1..] == Le(n / 256, bytes - 1);
    }
  }

  lemma Pow256Values()
    ensures Pow256(2) == 0x1_0000 && Pow256(4) == 0x1_0000_0000
  {
    assert Pow256(3) == 256 * Pow256(2);
  }

  /** What is read from the words of a header. */
  lemma HeaderReadBack(h: Header)
    requires h.next < 0x1_0000_0000 && h.prev < 0x1_0000_0000
    ensures var b := HeaderBytes(h);
            && Value(b[0..2]) == HEAP_MAGIC && Value(b[2..4]) == (if h.used then 1 else 0)
            && Value(b[4..8]) == h.next && Value(b[8..12]) == h.prev
  {
    var b := HeaderBytes(h);
    Pow256Values();
    LeValue(HEAP_MAGIC, 2);
    LeValue(if h.used then 1 else 0, 2);
    LeValue(h.next, 4);
    LeValue(h.prev, 4);
    Fields(Le(HEAP_MAGIC, 2), Le(if h.used then 1 else 0, 2), Le(h.next, 4), Le(h.prev, 4));
  }

  lemma Fields(a: seq<byte>, b: seq<byte>, c: seq<byte>, d: seq<byte>)
    requires |a| == |b| == 2 && |c| == |d| == 4
    ensures var s := a + b + c + d; s[0..2] == a && s[2..4] == b && s[4..8] == c && s[8..12] == d
  {
    var s := a + b + c + d;
    assert s == a + (b + (c + d));
    assert s[4..] == c + d;
  }

  /** The request that rt_malloc searches for: enough, at least the minimum, aligned, and no more than that takes. */
  function RequestSize(size: nat): (r: nat)
    ensures size <= r && MIN_SIZE <= r && Aligned(r) && (r == MIN_SIZE || r < size + 4)
  {
    if Align(size) < MIN_SIZE then MIN_SIZE else Align(size)
  }

  /** Between the old hint and the new one there is no free block. */
  ghost predicate NextFree(bs: seq<Block>, from: nat, to: nat) {
    from <= to && forall b :: b in bs && !b.used && from <= b.at ==> to <= b.at
  }

  predicate Fits(b: Block, size: nat) {
    !b.used && b.Payload() >= size
  }

  /** Block i is handed out for size bytes: cut if a header and a minimal payload remain, whole otherwise. */
  function Allocated(bs: seq<Block>, i: nat, size: nat): seq<Block>
    requires i < |bs|
  {
    if bs[i].Payload() >= size + SIZEOF + MIN_SIZE then SplitAt(bs, i, bs[i].at + SIZEOF + size) else Mark(bs, i, true)
  }

  /** Free block i is joined with the next block if that is free. */
  function Forward(bs: seq<Block>, i: nat): seq<Block>
    requires i < |bs|
  {
    if i + 1 < |bs| && !bs[i + 1].used then MergeAt(bs, i) else bs
  }

  /** Free block i is joined with the block before it if that is free. */
  function Backward(bs: seq<Block>, i: nat): seq<Block>
    requires i < |bs|
  {
    if i > 0 && !bs[i - 1].used then MergeAt(bs, i - 1) else bs
  }

  /** Free block i is joined with its free neighbours. */
  function Coalesced(bs: seq<Block>, i: nat): seq<Block>
    requires i < |bs|
  {
    Backward(Forward(bs, i), i)
  }

  /** A hint l that named the block swallowed by Forward names the swallowing block. */
  function ForwardHint(bs: seq<Block>, i: nat, l: nat): nat
    requires i < |bs|
  {
    if i + 1 < |bs| && !bs[i + 1].used && l == bs[i + 1].at then bs[i].at else l
  }

  function BackwardHint(bs: seq<Block>, i: nat, l: nat): nat
    requires i < |bs|
  {
    if i > 0 && !bs[i - 1].used && l == bs[i].at then bs[i - 1].at else l
  }

  /** Where plug_holes leaves a hint l when it closes the hole around free block i. */
  function PluggedHint(bs: seq<Block>, i: nat, l: nat): nat
    requires i < |bs|
  {
    BackwardHint(Forward(bs, i), i, ForwardHint(bs, i, l))
  }

  function ReleasedHint(bs: seq<Block>, i: nat, l: nat): nat
    requires i < |bs|
  {
    PluggedHint(Mark(bs, i, false), i, Min(bs[i].at, l))
  }

  function Released(bs: seq<Block>, i: nat): seq<Block>
    requires i < |bs|
  {
    Coalesced(Mark(bs, i, false), i)
  }

  /** Two neighbours may both be free only if block i is one of them. */
  ghost predicate HoleOnlyAt(bs: seq<Block>, i: nat) {
    forall k, l :: 0 <= k && l == k + 1 < |bs| && k != i && l != i ==> bs[k].used || bs[l].used
  }

  /** Headers and blocks fit together. */
  ghost predicate Chain(h: map<nat, Header>, bs: seq<Block>, end: nat) {
    Tiled(bs, end) && AllAligned(bs) && Headers(h, bs, end)
  }

  /** So does the hint. */
  ghost predicate LaidOut(h: map<nat, Header>, bs: seq<Block>, end: nat, lfree: nat) {
    Chain(h, bs, end) && HintOk(bs, end, lfree)
  }

  /** The first block from lfree on, below limit, that can take size bytes. */
  ghost predicate FirstFit(bs: seq<Block>, i: nat, lfree: nat, limit: int, size: nat) {
    && i < |bs| && Fits(bs[i], size) && lfree <= bs[i].at < limit
    && forall j :: 0 <= j < i && lfree <= bs[j].at ==> !Fits(bs[j], size)
  }

  /** rt_realloc neither keeps block b as it is nor cuts it. */
  predicate MustMove(b: Block, size: nat) {
    size != b.Payload() && size + SIZEOF + MIN_SIZE >= b.Payload()
  }

  ghost predicate NoFit(bs: seq<Block>, lfree: nat, limit: int, size: nat) {
    forall j :: 0 <= j < |bs| && lfree <= bs[j].at < limit ==> !Fits(bs[j], size)
  }

  lemma FirstFits(bs: seq<Block>, i: nat, lfree: nat, limit: int, size: nat)
    requires FirstFit(bs, i, lfree, limit, size)
    ensures !NoFit(bs, lfree, limit, size)
  {
  }

  /** bs has the live blocks of before and one more, nb, with room for n bytes at r. */
  ghost predicate Extended(before: seq<Block>, bs: seq<Block>, nb: Block, r: int, n: int) {
    && KeepsUsed(before, bs)
    && (forall c :: c in bs && c.used ==> c in before || c == nb)
    && nb in bs && nb.used && nb.at + SIZEOF == r && nb.Payload() >= n
    && Dead(before, r, r + n)
  }

  /** bs' has the live blocks of bs except b. */
  ghost predicate Without(bs: seq<Block>, b: Block, bs': seq<Block>) {
    && (forall c :: c in bs && c.used && c != b ==> c in bs')
    && (forall c :: c in bs' && c.used ==> c in bs && c != b)
  }

  /** The live blocks after b was reallocated to the pointer r with room for n bytes; b itself may still be there, at r. */
  ghost predicate Relocated(bs: seq<Block>, b: Block, bs': seq<Block>, r: int, n: int) {
    && (forall c :: c in bs && c.used && c != b ==> c in bs')
    && (forall c :: c in bs' && c.used ==> c.at + SIZEOF == r || (c in bs && c != b))
    && (exists c :: c in bs' && c.used && c.at + SIZEOF == r && c.Payload() >= n)
  }

  /** The n bytes from src on in m are the n bytes from dst on in m'. */
  ghost predicate Copied(m: seq<byte>, src: nat, m': seq<byte>, dst: nat, n: nat) {
    src + n <= |m| && dst + n <= |m'| && forall k :: dst <= k < dst + n ==> m'[k] == m[src + (k - dst)]
  }

  ghost predicate SameOutside(m: seq<byte>, m': seq<byte>, lo: int, hi: int) {
    |m| == |m'| && forall k {:trigger m'[k]} :: 0 <= k < |m| && !(lo <= k < hi) ==> m'[k] == m[k]
  }

  ghost predicate Dead(bs: seq<Block>, lo: int, hi: int) {
    forall k :: lo <= k < hi ==> !Live(bs, k)
  }

  /** No byte of a payload in use has changed, except possibly in [lo, hi). */
  ghost predicate KeptLive(bs: seq<Block>, m: seq<byte>, m': seq<byte>, lo: int, hi: int) {
    |m| == |m'| && forall k {:trigger Live(bs, k), m'[k]} :: 0 <= k < |m| && Live(bs, k) && !(lo <= k < hi) ==> m'[k] == m[k]
  }

  /** The header at x lies in memory, word for word. */
  ghost predicate HeaderStored(m: seq<byte>, h: map<nat, Header>, x: nat) {
    x in h && x + SIZEOF <= |m| && m[x..x + SIZEOF] == HeaderBytes(h[x])
  }

  /** So do the headers of all blocks and the end sentinel. */
  ghost predicate Stored(m: seq<byte>, h: map<nat, Header>, bs: seq<Block>, end: nat) {
    && (forall i {:trigger HeaderStored(m, h, bs[i].at)} :: 0 <= i < |bs| ==> HeaderStored(m, h, bs[i].at))
    && HeaderStored(m, h, end)
  }

  // ----- the three changes that an allocator's state undergoes

  /** The allocator's state, without the bytes: blocks, lfree, used_mem and max_mem. */
  datatype State = State(bs: seq<Block>, lfree: nat, used: int, peak: int)

  /** What an allocation adds to used_mem. */
  function Taken(b: Block, size: nat): int {
    if b.Payload() >= size + SIZEOF + MIN_SIZE then size + SIZEOF else b.next - b.at
  }

  /** rt_malloc takes block i. */
  ghost predicate TakeStep(memSize: nat, s: State, size: nat, i: nat, s': State) {
    && 0 < size <= memSize && Aligned(size) && FirstFit(s.bs, i, s.lfree, memSize - size, size)
    && s'.bs == Allocated(s.bs, i, size)
    && HintOk(s'.bs, memSize + SIZEOF, s'.lfree)
    && (if s.bs[i].at == s.lfree then NextFree(s'.bs, s.lfree, s'.lfree) else s'.lfree == s.lfree)
    && s'.used == s.used + Taken(s.bs[i], size)
    && s'.peak == if s.peak < s'.used then s'.used else s.peak
  }

  /** rt_free gives block i back. */
  ghost predicate GiveStep(s: State, i: nat, s': State) {
    && i < |s.bs| && s.bs[i].used
    && s'.bs == Released(s.bs, i) && s'.lfree == ReleasedHint(s.bs, i, s.lfree)
    && s'.used == s.used - (s.bs[i].next - s.bs[i].at) && s'.peak == s.peak
  }

  /** rt_realloc gives the tail of block i back, from offset p on. */
  ghost predicate TrimStep(s: State, p: nat, i: nat, s': State) {
    && i < |s.bs| && s.bs[i].used && s.bs[i].at + SIZEOF < p && p + SIZEOF < s.bs[i].next && Aligned(p)
    && var cut := SplitAt(s.bs, i, p);
    && s'.bs == Coalesced(cut, i + 1) && s'.lfree == PluggedHint(cut, i + 1, s.lfree)
    && s'.used == s.used - (s.bs[i].next - p) && s'.peak == s.peak
  }

  ghost predicate Unchanged(s: State, s': State, m: seq<byte>, m': seq<byte>) {
    s' == s && m' == m
  }

  /** rt_malloc returns NULL: for nothing, for too much, and when no block fits below the offset where its search stops. */
  ghost predicate Refuses(memSize: nat, s: State, request: nat) {
    request == 0 || Align(request) > memSize || NoFit(s.bs, s.lfree, memSize - RequestSize(request), RequestSize(request))
  }

  /** rt_malloc takes some block, whose payload is at r. */
  ghost predicate Mallocated(memSize: nat, s: State, size: nat, r: int, s': State) {
    exists j: nat :: TakeStep(memSize, s, size, j, s') && r == s.bs[j].at + SIZEOF
  }

  /** rt_realloc takes a new block for size bytes and gives block b back. */
  ghost predicate MoveSteps(memSize: nat, s: State, b: Block, size: nat, s': State) {
    exists mid: State, j: nat, k: nat ::
      TakeStep(memSize, s, RequestSize(size), j, mid) && k < |mid.bs| && mid.bs[k] == b && GiveStep(mid, k, s')
  }

  /** rt_realloc of block i to an aligned size. */
  ghost predicate ResizeSteps(memSize: nat, s: State, i: nat, size: nat, s': State) {
    && i < |s.bs|
    && if size == s.bs[i].Payload() then s' == s
       else if size + SIZEOF + MIN_SIZE < s.bs[i].Payload() then TrimStep(s, s.bs[i].at + SIZEOF + size, i, s')
       else MoveSteps(memSize, s, s.bs[i], size, s')
  }

  /** A block in use has its payload at r, with room for request bytes. */
  ghost predicate Serves(bs: seq<Block>, r: int, request: nat) {
    exists b :: b in bs && b.used && b.at + SIZEOF == r && request <= b.Payload()
  }

  /** And with less to spare than another header with a minimal payload would take. */
  ghost predicate ServesClosely(bs: seq<Block>, r: int, request: nat) {
    exists b :: b in bs && b.used && b.at + SIZEOF == r && request <= b.Payload()
                && (b.Payload() < MIN_SIZE + SIZEOF + MIN_SIZE || b.Payload() < request + 4 + SIZEOF + MIN_SIZE)
  }

  /** A block that was taken serves the request. */
  lemma TakenServes(memSize: nat, s: State, request: nat, i: nat, s': State)
    requires TakeStep(memSize, s, RequestSize(request), i, s')
    ensures ServesClosely(s'.bs, s.bs[i].at + SIZEOF, request)
  {
    hide NextFree, HintOk, RequestSize;
    var size := RequestSize(request);
    if s.bs[i].Payload() >= size + SIZEOF + MIN_SIZE {
      SplitPiece(s.bs, i, s.bs[i].at + SIZEOF + size, i);
    }
    assert s'.bs[i] in s'.bs;
  }

  /** A block is cut behind the bytes that are taken exactly if a header with a minimal payload is left of it. */
  lemma AllocatedIff(bs: seq<Block>, i: nat, size: nat)
    requires i < |bs|
    ensures var r, p := Allocated(bs, i, size), bs[i].at + SIZEOF + size;
            && i < |r| && r[i].used && r[i].at == bs[i].at
            && if p + SIZEOF + MIN_SIZE <= bs[i].next then
                 && |r| == |bs| + 1 && r[i].next == p && r[i + 1] == Block(p, bs[i].next, false)
                 && r[..i] + r[i + 2..] == bs[..i] + bs[i + 1..]
               else |r| == |bs| && r[i].next == bs[i].next && r[..i] + r[i + 1..] == bs[..i] + bs[i + 1..]
  {
    if bs[i].Payload() >= size + SIZEOF + MIN_SIZE {
      var p := bs[i].at + SIZEOF + size;
      SplitPiece(bs, i, p, i);
      SplitPiece(bs, i, p, i + 1);
    }
  }

  // ----- the code

  class Heap {
    const memSize: nat
    const mem: array<byte>
    var hdr: map<nat, Header>
    var lfree: nat
    var usedMem: int
    var maxMem: int
    ghost var blocks: seq<Block>

    function End(): nat {
      memSize + SIZEOF
    }

    ghost function View(): State
      reads this
    {
      State(blocks, lfree, usedMem, maxMem)
    }

    /** The layout part of the invariant. */
    ghost predicate Laid()
      reads this, mem
    {
      Linked() && HintOk(blocks, End(), lfree)
    }

    /** The headers are those of the blocks, and they lie in memory. */
    ghost predicate Linked()
      reads this, mem
    {
      Sized() && Chain(hdr, blocks, End()) && Stored(mem[..], hdr, blocks, End())
    }

    ghost predicate Sized() {
      memSize >= MIN_SIZE && Aligned(memSize) && mem.Length == memSize + 2 * SIZEOF
    }

    ghost predicate Valid()
      reads this, mem
    {
      && Laid() && NoFreeNeighbours(blocks)
      && usedMem == UsedSpan(blocks) <= maxMem
    }

    method StoreHeader(p: nat, h: Header)
      requires p + SIZEOF <= mem.Length
      modifies this`hdr, mem
      ensures hdr == old(hdr)[p := h]
      ensures mem[p..p + SIZEOF] == HeaderBytes(h) && HeaderStored(mem[..], hdr, p)
      ensures forall k :: 0 <= k < mem.Length && !(p <= k < p + SIZEOF) ==> mem[k] == old(mem[k])
    {
      var bytes := HeaderBytes(h);
      for k := 0 to SIZEOF
        modifies mem
        invariant mem[p..p + k] == bytes[..k]
        invariant forall j :: 0 <= j < mem.Length && !(p <= j < p + k) ==> mem[j] == old(mem[j])
      {
        mem[p + k] := bytes[k];
      }
      hdr := hdr[p := h];
      assert mem[..][p..p + SIZEOF] == mem[p..p + SIZEOF];
    }

    /** rt_system_heap_init, for a region that is large enough. */
    constructor (size: nat)
      requires size >= MIN_SIZE && Aligned(size)
      ensures Valid() && fresh(mem) && memSize == size
      ensures blocks == [Block(0, End(), false)] && lfree == 0 && Lowest(blocks, lfree)
    {
      memSize := size;
      mem := new byte[size + 2 * SIZEOF](_ => 0);
      hdr, lfree, usedMem, maxMem := map[], 0, 0, 0;
      blocks := [Block(0, size + SIZEOF, false)];
      new;
      StoreHeader(0, Header(false, End(), 0));
      ghost var m, h := mem[..], hdr;
      StoreHeader(End(), Header(true, End(), End()));
      StaysStored(m, mem[..], h, hdr, End(), 0);
      assert HeaderAt(hdr, blocks, 0);
      assert blocks[0] in blocks;
      UsedSpanOne(blocks[0]);
    }

    /** plug_holes, either half: the header words of block b, which swallows block c behind it. */
    method StoreMerge(b: Block, c: Block)
      requires b.at in hdr && c.at in hdr && c.next in hdr && hdr[c.at].next == c.next
      requires b.at + SIZEOF <= c.next && c.next + SIZEOF <= mem.Length
      modifies this`hdr, mem
      ensures hdr == MergeHdr(old(hdr), b, c)
      ensures HeaderStored(mem[..], hdr, b.at) && HeaderStored(mem[..], hdr, c.next)
      ensures forall k :: 0 <= k < mem.Length && !(b.at <= k < b.at + SIZEOF) && !(c.next <= k < c.next + SIZEOF)
                  ==> mem[k] == old(mem[k])
    {
      var next := hdr[c.at].next;
      StoreHeader(b.at, hdr[b.at].(next := next));
      ghost var m, h := mem[..], hdr;
      StoreHeader(next, hdr[next].(prev := b.at));
      StaysStored(m, mem[..], h, hdr, next, b.at);
    }

    /** plug_holes, either half: the free block at q is swallowed by the free block at p right before it. */
    method Join(p: nat, q: nat, ghost i: nat)
      requires Laid() && i + 1 < |blocks| && p == blocks[i].at && q == blocks[i + 1].at
      requires !blocks[i].used && !blocks[i + 1].used
      modifies this`hdr, this`lfree, this`blocks, mem
      ensures Laid() && blocks == MergeAt(old(blocks), i) && lfree == if old(lfree) == q then p else old(lfree)
      ensures forall k :: 0 <= k < mem.Length && Live(old(blocks), k) ==> mem[k] == old(mem[k])
    {
      hide Tiled, AllAligned, Headers, HintOk, Live, MergeAt, MergeHdr, Stored, HeaderStored;
      JoinLaid(hdr, blocks, i, End(), lfree);
      NextInHeaders(hdr, blocks, i, End());
      OneBlock(blocks, End(), i);
      OneBlock(blocks, End(), i + 1);
      ghost var m, h := mem[..], hdr;
      if lfree == q {
        lfree := p;
      }
      StoreMerge(Block(p, q, false), Block(q, hdr[q].next, false));
      assert Block(q, h[q].next, false) == blocks[i + 1] && Block(p, q, false) == blocks[i];
      MergeStored(m, mem[..], h, blocks, i, End());
      blocks := MergeAt(blocks, i);
    }

    /** The first half of plug_holes. */
    method PlugForward(p: nat, ghost i: nat)
      requires Laid() && i < |blocks| && p == blocks[i].at && !blocks[i].used
      modifies this`hdr, this`lfree, this`blocks, mem
      ensures Laid() && blocks == Forward(old(blocks), i)
      ensures lfree == ForwardHint(old(blocks), i, old(lfree))
      ensures forall k :: 0 <= k < mem.Length && Live(old(blocks), k) ==> mem[k] == old(mem[k])
    {
      LinksAt(hdr, blocks, i, End(), lfree);
      var nmem := hdr[p].next;
      if nmem != p && !hdr[nmem].used && nmem != End() {
        Join(p, nmem, i);
      }
    }

    /** The second half of plug_holes. */
    method PlugBackward(p: nat, ghost i: nat)
      requires Laid() && i < |blocks| && p == blocks[i].at && !blocks[i].used
      modifies this`hdr, this`lfree, this`blocks, mem
      ensures Laid()
      ensures blocks == Backward(old(blocks), i) && lfree == BackwardHint(old(blocks), i, old(lfree))
      ensures forall k :: 0 <= k < mem.Length && Live(old(blocks), k) ==> mem[k] == old(mem[k])
    {
      LinksAt(hdr, blocks, i, End(), lfree);
      var pmem := hdr[p].prev;
      if pmem != p && !hdr[pmem].used {
        Join(pmem, p, i - 1);
      }
    }

    method PlugHoles(p: nat, ghost i: nat)
      requires Laid() && i < |blocks| && p == blocks[i].at && !blocks[i].used && HoleOnlyAt(blocks, i)
      modifies this`hdr, this`lfree, this`blocks, mem
      ensures Laid() && NoFreeNeighbours(blocks) && blocks == Coalesced(old(blocks), i)
      ensures lfree == PluggedHint(old(blocks), i, old(lfree))
      ensures UsedSpan(blocks) == UsedSpan(old(blocks))
      ensures forall k :: 0 <= k < mem.Length && Live(blocks, k) ==> mem[k] == old(mem[k])
    {
      ghost var target, hint := Coalesced(blocks, i), PluggedHint(blocks, i, lfree);
      CoalescedOk(blocks, i);
      ForwardKeepsLive(blocks, i);
      CoalescedKeeps(blocks, i);
      PlugForward(p, i);
      PlugBackward(p, i);
      assert blocks == target && lfree == hint;
    }

    /** rt_free, up to plug_holes: block i becomes a hole. */
    method Unuse(p: nat, ghost i: nat)
      requires Valid() && i < |blocks| && blocks[i].used && p == blocks[i].at
      modifies this`hdr, this`lfree, this`usedMem, this`blocks, mem
      ensures Laid() && HoleOnlyAt(blocks, i) && blocks == Mark(old(blocks), i, false)
      ensures usedMem == UsedSpan(blocks) <= maxMem && lfree == Min(p, old(lfree))
      ensures usedMem == old(usedMem) - (old(blocks)[i].next - p)
      ensures forall k :: 0 <= k < mem.Length && Live(blocks, k) ==> mem[k] == old(mem[k])
    {
      ReleaseDead(blocks, i, End());
      ReleaseChain(hdr, blocks, i, End());
      ReleaseHint(blocks, i, End(), lfree);
      ghost var m, h := mem[..], hdr;
      StoreHeader(p, hdr[p].(used := false));
      MarkStored(m, mem[..], h, hdr, blocks, i, false, End());
      if p < lfree {
        lfree := p;
      }
      usedMem := usedMem - (hdr[p].next - p);
      blocks := Mark(blocks, i, false);
    }

    method FreeBlock(p: nat, ghost i: nat)
      requires Valid() && i < |blocks| && blocks[i].used && p == blocks[i].at
      modifies this`hdr, this`lfree, this`usedMem, this`blocks, mem
      ensures Valid() && GiveStep(old(View()), i, View())
      ensures forall k :: 0 <= k < mem.Length && Live(blocks, k) ==> mem[k] == old(mem[k])
    {
      ghost var target, hint := Released(blocks, i), ReleasedHint(blocks, i, lfree);
      CoalescedKeeps(Mark(blocks, i, false), i);
      Unuse(p, i);
      PlugHoles(p, i);
      assert blocks == target && lfree == hint;
    }

    /** rt_free. */
    method Free(rmem: int, ghost i: nat)
      requires Valid()
      requires 0 <= rmem < End() ==> i < |blocks| && blocks[i].used && rmem == blocks[i].at + SIZEOF
      modifies this, mem
      ensures Valid() && maxMem == old(maxMem)
      ensures 0 <= rmem < End() ==>
                && GiveStep(old(View()), i, View())
                && Without(old(blocks), old(blocks)[i], blocks)
      ensures !(0 <= rmem < End()) ==> Unchanged(old(View()), View(), old(mem[..]), mem[..])
      ensures old(Lowest(blocks, lfree)) ==> Lowest(blocks, lfree)
      ensures KeptLive(blocks, old(mem[..]), mem[..], 0, 0)
    {
      if rmem == NULL {
        return;
      }
      if rmem < 0 || rmem >= End() {
        return;
      }
      ReleasedMembers(blocks, i, End());
      ReleasedLowest(blocks, i, lfree, End());
      FreeBlock(rmem - SIZEOF, i);
    }

    /** rt_malloc and rt_realloc, splitting: the header words of both parts. */
    method StoreSplit(b: Block, p2: nat)
      requires b.at in hdr && b.next in hdr && hdr[b.at].next == b.next
      requires b.at + SIZEOF < p2 && p2 + SIZEOF < b.next && HeaderStored(mem[..], hdr, b.next)
      modifies this`hdr, mem
      ensures hdr == SplitHdr(old(hdr), b, p2, End())
      ensures HeaderStored(mem[..], hdr, b.at) && HeaderStored(mem[..], hdr, p2) && HeaderStored(mem[..], hdr, b.next)
      ensures forall k :: 0 <= k < mem.Length && !(b.at <= k < b.at + SIZEOF) && !(p2 <= k < p2 + SIZEOF)
                      && !(b.next <= k < b.next + SIZEOF)
                  ==> mem[k] == old(mem[k])
    {
      var next := hdr[b.at].next;
      ghost var m, h := mem[..], hdr;
      StoreHeader(p2, Header(false, next, b.at));
      ghost var m1, h1 := mem[..], hdr;
      StaysStored(m, m1, h, h1, p2, next);
      StoreHeader(b.at, Header(true, p2, hdr[b.at].prev));
      ghost var m2, h2 := mem[..], hdr;
      StaysStored(m1, m2, h1, h2, b.at, next);
      StaysStored(m1, m2, h1, h2, b.at, p2);
      if next != memSize + SIZEOF {
        StoreHeader(next, hdr[next].(prev := p2));
        StaysStored(m2, mem[..], h2, hdr, next, b.at);
        StaysStored(m2, mem[..], h2, hdr, next, p2);
      }
    }

    /** Block i is cut at offset p2. */
    method Cut(p: nat, p2: nat, ghost i: nat)
      requires Linked() && i < |blocks| && p == blocks[i].at && Aligned(p2)
      requires p + SIZEOF < p2 && p2 + SIZEOF < blocks[i].next
      modifies this`hdr, this`blocks, mem
      ensures Linked() && blocks == SplitAt(old(blocks), i, p2)
      ensures forall k :: 0 <= k < mem.Length && Live(blocks, k) ==> mem[k] == old(mem[k])
    {
      ghost var cut := SplitAt(blocks, i, p2);
      CutDead(blocks, i, End(), p2);
      CutChain(hdr, blocks, i, End(), p2);
      HeaderOf(hdr, blocks, i, End());
      NextStored(mem[..], hdr, blocks, i, End());
      ghost var m, h := mem[..], hdr;
      StoreSplit(Block(p, hdr[p].next, hdr[p].used), p2);
      SplitStored(m, mem[..], h, blocks, i, p2, End());
      blocks := cut;
    }

    /** rt_malloc, near fit: block i is handed out whole. */
    method TakeWhole(p: nat, ghost i: nat)
      requires Linked() && i < |blocks| && p == blocks[i].at
      modifies this`hdr, this`blocks, mem
      ensures Linked() && blocks == Mark(old(blocks), i, true)
      ensures forall k :: 0 <= k < mem.Length && Live(blocks, k) ==> mem[k] == old(mem[k])
    {
      MarkTiled(blocks, i, true, End());
      MarkAligned(blocks, i, true);
      NotLiveBelow(Mark(blocks, i, true), End(), i);
      HeaderOf(hdr, blocks, i, End());
      NextInHeaders(hdr, blocks, i, End());
      MarkHeaders(hdr, blocks, i, End(), true);
      ghost var m, h := mem[..], hdr;
      StoreHeader(p, hdr[p].(used := true));
      MarkStored(m, mem[..], h, hdr, blocks, i, true, End());
      blocks := Mark(blocks, i, true);
    }

    /** The part of rt_malloc that turns block i into the caller's block, with the statistics. */
    method Carve(p: nat, size: nat, ghost i: nat)
      requires Linked() && NoFreeNeighbours(blocks) && usedMem == UsedSpan(blocks)
      requires i < |blocks| && p == blocks[i].at && Fits(blocks[i], size) && size > 0 && Aligned(size)
      modifies this`hdr, this`blocks, this`usedMem, this`maxMem, mem
      ensures Linked() && NoFreeNeighbours(blocks) && blocks == Allocated(old(blocks), i, size)
      ensures usedMem == UsedSpan(blocks) == old(usedMem) + Taken(old(blocks)[i], size)
      ensures maxMem == if old(maxMem) < usedMem then usedMem else old(maxMem)
      ensures forall k :: 0 <= k < mem.Length && Live(old(blocks), k) ==> mem[k] == old(mem[k])
    {
      hide Tiled, Headers, NoFreeNeighbours, HintOk, SpanTo, SplitAt, Mark;
      ghost var target := Allocated(blocks, i, size);
      AllocatedCases(blocks, i, size, p + SIZEOF + size);
      AllocatedNeighbours(blocks, i, size);
      AllocatedSpan(blocks, i, size);
      AllocatedMembers(blocks, i, size);
      assert Aligned(blocks[i].at);
      AlignedSum(p, size);
      HeaderOf(hdr, blocks, i, End());
      var next := hdr[p].next;
      if next - (p + SIZEOF) >= size + SIZEOF + MIN_SIZE {
        Cut(p, p + SIZEOF + size, i);
        assert blocks == target;
        usedMem := usedMem + (size + SIZEOF);
      } else {
        TakeWhole(p, i);
        assert blocks == target;
        usedMem := usedMem + (next - p);
      }
      if maxMem < usedMem {
        maxMem := usedMem;
      }
    }

    /** rt_malloc, after taking the block the hint points to: find the next free block. */
    method AdvanceHint(ghost start: nat)
      requires Linked() && start < |blocks| && lfree == blocks[start].at
      modifies this`lfree
      ensures Laid() && NextFree(blocks, old(lfree), lfree)
      ensures Lowest(blocks, old(lfree)) ==> Lowest(blocks, lfree)
    {
      hide Tiled, AllAligned, Headers, Stored, Lowest, NextFree;
      NextFreeSame(blocks, lfree);
      ghost var i := start;
      HeaderOf(hdr, blocks, i, End());
      while hdr[lfree].used && lfree != End()
        invariant i <= |blocks| && lfree == (if i < |blocks| then blocks[i].at else End()) && lfree in hdr
        invariant i < |blocks| ==> hdr[lfree].used == blocks[i].used && hdr[lfree].next == blocks[i].next
        invariant NextFree(blocks, old(lfree), lfree)
        invariant Lowest(blocks, old(lfree)) ==> Lowest(blocks, lfree)
        decreases |blocks| - i
      {
        EndsBy(blocks, End());
        NextInHeaders(hdr, blocks, i, End());
        LowestSkips(blocks, i, End());
        NextFreeSkips(blocks, i, End(), old(lfree));
        lfree := hdr[lfree].next;
        i := i + 1;
        if i < |blocks| {
          HeaderOf(hdr, blocks, i, End());
        }
      }
      if i < |blocks| {
        assert blocks[i] in blocks;
        EndsBy(blocks, End());
      }
    }

    /** The search loop of rt_malloc. */
    method FindFit(size: nat) returns (ptr: int, ghost i: nat)
      requires Valid() && size <= memSize
      ensures ptr == NULL ==> NoFit(blocks, lfree, memSize - size, size)
      ensures ptr != NULL ==> FirstFit(blocks, i, lfree, memSize - size, size) && ptr == blocks[i].at
    {
      hide AllAligned, Headers, Stored, NoFreeNeighbours, HintOk, SpanTo;
      EndsBy(blocks, End());
      var p := lfree;
      i := HintIndex(blocks, End(), lfree);
      while p < memSize - size
        invariant i <= |blocks| && p == (if i < |blocks| then blocks[i].at else End())
        invariant forall j :: 0 <= j < i && lfree <= blocks[j].at ==> !Fits(blocks[j], size)
        decreases |blocks| - i
      {
        HeaderOf(hdr, blocks, i, End());
        var mem := hdr[p];
        if !mem.used && mem.next - (p + SIZEOF) >= size {
          return p, i;
        }
        NextInHeaders(hdr, blocks, i, End());
        p := mem.next;
        i := i + 1;
      }
      ptr := NULL;
      assert forall j :: i <= j < |blocks| ==> p <= blocks[j].at;
    }

    /** rt_malloc, once the block is found. */
    method TakeBlock(p: nat, size: nat, ghost i: nat)
      requires Valid() && i < |blocks| && p == blocks[i].at && Fits(blocks[i], size) && lfree <= p
      requires size > 0 && Aligned(size)
      modifies this, mem
      ensures Valid() && blocks == Allocated(old(blocks), i, size)
      ensures if p == old(lfree) then NextFree(blocks, p, lfree) else lfree == old(lfree)
      ensures maxMem == (if old(maxMem) < usedMem then usedMem else old(maxMem))
      ensures usedMem == old(usedMem) + Taken(old(blocks)[i], size)
      ensures old(Lowest(blocks, lfree)) ==> Lowest(blocks, lfree)
      ensures forall k :: 0 <= k < mem.Length && Live(old(blocks), k) ==> mem[k] == old(mem[k])
    {
      AllocatedHint(blocks, i, End(), lfree, size);
      Carve(p, size, i);
      if p == lfree {
        AdvanceHint(i);
      }
    }

    /** rt_malloc. */
    method Malloc(request: nat) returns (r: int, ghost i: nat)
      requires Valid()
      modifies this, mem
      ensures Valid()
      ensures r == NULL <==> Refuses(memSize, old(View()), request)
      ensures r == NULL ==> Unchanged(old(View()), View(), old(mem[..]), mem[..])
      ensures r != NULL ==>
                && 0 < request && TakeStep(memSize, old(View()), RequestSize(request), i, View())
                && r == old(blocks)[i].at + SIZEOF
      ensures r != NULL ==> ServesClosely(blocks, r, request)
      ensures old(Lowest(blocks, lfree)) ==> Lowest(blocks, lfree)
      ensures KeptLive(old(blocks), old(mem[..]), mem[..], 0, 0)
    {
      hide Tiled, AllAligned, Headers, NoFreeNeighbours, HintOk, Live, SpanTo, Allocated, Lowest, NextFree, NoFit, ServesClosely;
      if request == 0 {
        return NULL, 0;
      }
      var size := Align(request);
      if size > memSize {
        return NULL, 0;
      }
      if size < MIN_SIZE {
        size := MIN_SIZE;
      }
      var p;
      p, i := FindFit(size);
      if p == NULL {
        return NULL, 0;
      }
      FirstFits(blocks, i, lfree, memSize - size, size);
      ghost var s := View();
      TakeBlock(p, size, i);
      TakenServes(memSize, s, request, i, View());
      r := p + SIZEOF;
    }

    /** rt_memcpy between two payloads. */
    method Memcpy(dst: nat, src: nat, n: nat)
      requires dst + n <= mem.Length && src + n <= mem.Length && (dst + n <= src || src + n <= dst)
      modifies mem
      ensures Copied(old(mem[..]), src, mem[..], dst, n)
      ensures SameOutside(old(mem[..]), mem[..], dst, dst + n)
    {
      for j := 0 to n
        invariant forall m :: dst <= m < dst + j ==> mem[m] == old(mem[src + (m - dst)])
        invariant forall k :: 0 <= k < mem.Length && !(dst <= k < dst + j) ==> mem[k] == old(mem[k])
      {
        mem[dst + j] := mem[src + j];
      }
    }

    /** rt_realloc, splitting, up to plug_holes: the tail of block i, from offset p2 on, becomes a hole. */
    method CutTail(p: nat, p2: nat, ghost i: nat)
      requires Valid() && i < |blocks| && blocks[i].used && p == blocks[i].at
      requires p + SIZEOF < p2 && Aligned(p2) && p2 + SIZEOF < blocks[i].next
      modifies this`hdr, this`usedMem, this`blocks, mem
      ensures Laid() && HoleOnlyAt(blocks, i + 1) && blocks == SplitAt(old(blocks), i, p2)
      ensures usedMem == UsedSpan(blocks) <= maxMem && usedMem == old(usedMem) - (old(blocks)[i].next - p2)
      ensures forall k :: 0 <= k < mem.Length && Live(blocks, k) ==> mem[k] == old(mem[k])
    {
      hide Tiled, AllAligned, Headers, NoFreeNeighbours, HintOk, Live, SpanTo, SplitAt, HoleOnlyAt;
      HeaderOf(hdr, blocks, i, End());
      usedMem := usedMem - (hdr[p].next - p2);
      ghost var before := blocks;
      Cut(p, p2, i);
      ShrinkFacts(before, i, End(), lfree, p2);
    }

    /** rt_realloc, splitting: the tail of block i, from offset p2 on, is given back in place. */
    method Shrink(p: nat, p2: nat, ghost i: nat)
      requires Valid() && i < |blocks| && blocks[i].used && p == blocks[i].at
      requires p + SIZEOF < p2 && Aligned(p2) && p2 + SIZEOF < blocks[i].next
      modifies this`hdr, this`lfree, this`usedMem, this`blocks, mem
      ensures Valid() && TrimStep(old(View()), p2, i, View())
      ensures forall k :: 0 <= k < mem.Length && Live(blocks, k) ==> mem[k] == old(mem[k])
    {
      hide Tiled, AllAligned, Headers, NoFreeNeighbours, HintOk, SpanTo, Coalesced, PluggedHint, HoleOnlyAt;
      ghost var cut, hint := SplitAt(blocks, i, p2), lfree;
      CutTail(p, p2, i);
      assert blocks == cut && lfree == hint;
      CoalescedKeeps(cut, i + 1);
      PlugHoles(p2, i + 1);
      assert blocks == Coalesced(cut, i + 1) && lfree == PluggedHint(cut, i + 1, hint);
    }

    /** The first n bytes of block i go to block j, and block i is freed. */
    method CopyAndFree(p: nat, r: nat, n: nat, ghost i: nat, ghost j: nat)
      requires Valid() && i < |blocks| && j < |blocks| && i != j && blocks[i].used && blocks[j].used
      requires p == blocks[i].at && r == blocks[j].at + SIZEOF
      requires n <= blocks[i].Payload() && n <= blocks[j].Payload()
      modifies this, mem
      ensures Valid() && Without(old(blocks), old(blocks)[i], blocks) && GiveStep(old(View()), i, View())
      ensures Copied(old(mem[..]), p + SIZEOF, mem[..], r, n)
      ensures KeptLive(blocks, old(mem[..]), mem[..], r, r + n)
      ensures old(Lowest(blocks, lfree)) ==> Lowest(blocks, lfree)
    {
      hide Tiled, AllAligned, Headers, NoFreeNeighbours, HintOk, Lowest, Live, SpanTo, Released, ReleasedHint;
      TwoBlocks(blocks, End(), i, j);
      ghost var m0, nb := mem[..], blocks[j];
      var rmem := p + SIZEOF;
      Memcpy(r, rmem, n);
      ghost var m1 := mem[..];
      assert Copied(m0, rmem, m1, r, n) && SameOutside(m0, m1, r, r + n);
      PayloadWritten(m0, m1, hdr, blocks, j, r + n, End());
      Free(rmem, i);
      CopiedKept(blocks, nb, m0, rmem, m1, mem[..], r, n);
    }

    /** rt_realloc, moving, once the new block j is there; the old one is now block i. */
    method FinishMove(p: nat, r: nat, n: nat, size: nat, newsize: nat, ghost before: seq<Block>, ghost i: nat, ghost j: nat,
                      ghost m0: seq<byte>)
      requires Valid() && i < |blocks| && blocks[i].used && p == blocks[i].at && size == blocks[i].Payload()
      requires j < |blocks| && i != j && Extended(before, blocks, blocks[j], r, newsize) && blocks[i] in before
      requires n == Min(size, newsize) && KeptLive(before, m0, mem[..], 0, 0)
      modifies this, mem
      ensures Valid() && GiveStep(old(View()), i, View())
      ensures Relocated(before, old(blocks)[i], blocks, r, newsize)
      ensures Copied(m0, p + SIZEOF, mem[..], r, n)
      ensures KeptLive(before, m0, mem[..], p + SIZEOF, p + SIZEOF + size)
      ensures old(Lowest(blocks, lfree)) ==> Lowest(blocks, lfree)
    {
      hide Tiled, AllAligned, Headers, NoFreeNeighbours, HintOk, Lowest, Live, SpanTo, Relocated, Copied, KeptLive, GiveStep;
      ghost var m1, between := mem[..], blocks;
      CopyAndFree(p, r, n, i, j);
      MoveResult(before, between, i, j, End(), blocks, r, newsize, p + SIZEOF, size, m0, m1, mem[..]);
    }

    /** rt_realloc, moving: allocate, copy, free; nothing changes when the allocation fails. */
    method Move(p: nat, size: nat, newsize: nat, ghost i: nat) returns (r: int)
      requires Valid() && i < |blocks| && blocks[i].used && p == blocks[i].at && size == blocks[i].Payload()
      modifies this, mem
      ensures Valid()
      ensures r == NULL <==> Refuses(memSize, old(View()), newsize)
      ensures r == NULL ==> Unchanged(old(View()), View(), old(mem[..]), mem[..])
      ensures r != NULL ==>
                && MoveSteps(memSize, old(View()), old(blocks)[i], newsize, View())
                && r >= 0 && Relocated(old(blocks), old(blocks)[i], blocks, r, newsize)
                && Copied(old(mem[..]), p + SIZEOF, mem[..], r, Min(size, newsize))
      ensures KeptLive(old(blocks), old(mem[..]), mem[..], p + SIZEOF, p + SIZEOF + size)
      ensures old(Lowest(blocks, lfree)) ==> Lowest(blocks, lfree)
    {
      hide Tiled, AllAligned, Headers, Stored, NoFreeNeighbours, HintOk, Lowest, SpanTo, Live, Relocated, Copied, Refuses, GiveStep;
      ghost var before, m0 := blocks, mem[..];
      ghost var j;
      r, j := Malloc(newsize);
      if r != NULL {
        ghost var i' := MovedIndex(before, i, blocks, j, RequestSize(newsize), End(), r, newsize);
        FinishMove(p, r, Min(size, newsize), size, newsize, before, i', j, m0);
      }
    }

    /** rt_realloc, splitting in place. */
    method ShrinkInPlace(p: nat, size: nat, newsize: nat, ghost i: nat)
      requires Valid() && i < |blocks| && blocks[i].used && p == blocks[i].at && size == blocks[i].Payload()
      requires newsize > 0 && Aligned(newsize) && newsize + SIZEOF + MIN_SIZE < size
      modifies this, mem
      ensures Valid() && Relocated(old(blocks), old(blocks)[i], blocks, p + SIZEOF, newsize)
      ensures TrimStep(old(View()), p + SIZEOF + newsize, i, View())
      ensures Copied(old(mem[..]), p + SIZEOF, mem[..], p + SIZEOF, newsize)
      ensures KeptLive(old(blocks), old(mem[..]), mem[..], p + SIZEOF, p + SIZEOF + size)
    {
      hide Tiled, Headers, NoFreeNeighbours, HintOk, Live, SpanTo, SplitAt, Coalesced, PluggedHint, Copied, KeptLive;
      ghost var before, m0 := blocks, mem[..];
      AlignedSum(p, newsize) by {
        assert Aligned(blocks[i].at);
      }
      var p2 := p + SIZEOF + newsize;
      EndsBy(blocks, End());
      ShrunkMembers(blocks, i, p2, End());
      Shrink(p, p2, i);
      ShrunkKept(before, before[i], blocks, p2, m0, mem[..], p + SIZEOF);
    }

    /** rt_realloc of a live block to a non-zero aligned size that is not larger than the heap. */
    method Resize(p: nat, newsize: nat, ghost i: nat) returns (r: int)
      requires Valid() && i < |blocks| && blocks[i].used && p == blocks[i].at
      requires 0 < newsize <= memSize && Aligned(newsize)
      modifies this, mem
      ensures Valid() && (r == NULL <==> MustMove(old(blocks)[i], newsize) && Refuses(memSize, old(View()), newsize))
      ensures r == NULL ==> Unchanged(old(View()), View(), old(mem[..]), mem[..])
      ensures r != NULL ==>
                && r >= 0 && Relocated(old(blocks), old(blocks)[i], blocks, r, newsize)
                && Copied(old(mem[..]), p + SIZEOF, mem[..], r, Min(old(blocks)[i].Payload(), newsize))
      ensures r != NULL ==> ResizeSteps(memSize, old(View()), i, newsize, View())
      ensures !MustMove(old(blocks)[i], newsize) ==> r == p + SIZEOF
      ensures KeptLive(old(blocks), old(mem[..]), mem[..], p + SIZEOF, old(blocks)[i].next)
      ensures old(Lowest(blocks, lfree)) && newsize + SIZEOF + MIN_SIZE >= old(blocks)[i].Payload() ==> Lowest(blocks, lfree)
    {
      hide Tiled, AllAligned, Headers, NoFreeNeighbours, HintOk, Lowest, Live, SpanTo, Relocated, TrimStep, MoveSteps, Allocated, Refuses;
      HeaderOf(hdr, blocks, i, End());
      OneBlock(blocks, End(), i);
      var size := hdr[p].next - p - SIZEOF;
      if size == newsize {
        SameRelocated(blocks, i, End());
        return p + SIZEOF;
      }
      if newsize + SIZEOF + MIN_SIZE < size {
        ShrinkInPlace(p, size, newsize, i);
        return p + SIZEOF;
      }
      r := Move(p, size, newsize, i);
    }

    /** rt_realloc to size zero. */
    method FreeAny(rmem: int, ghost i: nat)
      requires Valid()
      requires 0 <= rmem < End() ==> i < |blocks| && blocks[i].used && rmem == blocks[i].at + SIZEOF
      modifies this, mem
      ensures Valid()
      ensures 0 <= rmem < End() ==>
                && Without(old(blocks), old(blocks)[i], blocks)
                && GiveStep(old(View()), i, View())
                && KeptLive(old(blocks), old(mem[..]), mem[..], rmem, old(blocks)[i].next)
      ensures !(0 <= rmem < End()) ==> Unchanged(old(View()), View(), old(mem[..]), mem[..])
    {
      ghost var before, m0 := blocks, mem[..];
      Free(rmem, i);
      if 0 <= rmem < End() {
        FreedKept(before, before[i], blocks, m0, mem[..]);
      }
    }

    /** rt_realloc; rmem is the payload of block i, or NULL, or lies outside the heap. */
    method Realloc(rmem: int, request: nat, ghost i: nat) returns (r: int)
      requires Valid()
      requires 0 <= rmem < End() ==> i < |blocks| && blocks[i].used && rmem == blocks[i].at + SIZEOF
      modifies this, mem
      ensures Valid()
      // nothing changes: a request that is too large or cannot be met, and a pointer that is not the heap's
      ensures r == NULL <==>
                || request == 0 || Align(request) > memSize
                || (rmem == NULL && Refuses(memSize, old(View()), Align(request)))
                || (0 <= rmem < End() && MustMove(old(blocks)[i], Align(request)) && Refuses(memSize, old(View()), Align(request)))
      ensures 0 < request && r == NULL ==> Unchanged(old(View()), View(), old(mem[..]), mem[..])
      ensures !(0 <= rmem < End()) && (request == 0 || rmem != NULL) ==> Unchanged(old(View()), View(), old(mem[..]), mem[..])
      ensures !(0 <= rmem < End()) && rmem != NULL && 0 < Align(request) <= memSize ==> r == rmem
      // rt_free
      ensures request == 0 ==> r == NULL
      ensures request == 0 && 0 <= rmem < End() ==>
                GiveStep(old(View()), i, View()) && Without(old(blocks), old(blocks)[i], blocks)
      // rt_malloc
      ensures 0 < request && rmem == NULL && r != NULL ==> Mallocated(memSize, old(View()), RequestSize(request), r, View())
      // a live block
      ensures 0 < request && 0 <= rmem < End() && r != NULL ==>
                && r >= 0 && Relocated(old(blocks), old(blocks)[i], blocks, r, Align(request))
                && Copied(old(mem[..]), rmem, mem[..], r, Min(old(blocks)[i].Payload(), Align(request)))
                && ResizeSteps(memSize, old(View()), i, Align(request), View())
      ensures 0 < request && 0 <= rmem < End() && !MustMove(old(blocks)[i], Align(request)) ==> r == rmem
      ensures r != NULL && (rmem == NULL || 0 <= rmem < End()) ==> Serves(blocks, r, request)
      // everybody else's payload
      ensures if 0 <= rmem < End() then KeptLive(old(blocks), old(mem[..]), mem[..], rmem, old(blocks)[i].next)
              else KeptLive(old(blocks), old(mem[..]), mem[..], 0, 0)
    {
      hide Tiled, AllAligned, Headers, NoFreeNeighbours, HintOk, Lowest, Live, SpanTo, Relocated, ResizeSteps, TakeStep, GiveStep,
        Copied, Without, Allocated, Refuses, Serves, ServesClosely;
      var newsize := Align(request);
      if newsize > memSize {
        EndsBy(blocks, End());
        return NULL;
      } else if newsize == 0 {
        FreeAny(rmem, i);
        return NULL;
      }
      if rmem == NULL {
        ghost var j;
        r, j := Malloc(newsize);
        if r != NULL {
          ClosestServes(blocks, r, newsize, request);
        }
        return;
      }
      if rmem < 0 || rmem >= End() {
        return rmem;
      }
      ghost var before := blocks;
      r := Resize(rmem - SIZEOF, newsize, i);
      if r != NULL {
        RelocatedServes(before, before[i], blocks, r, newsize, request);
      }
    }
  }

  lemma ClosestServes(bs: seq<Block>, r: int, size: nat, request: nat)
    requires ServesClosely(bs, r, size) && request <= size
    ensures Serves(bs, r, request)
  {
  }

  lemma RelocatedServes(bs: seq<Block>, b: Block, bs': seq<Block>, r: int, size: nat, request: nat)
    requires Relocated(bs, b, bs', r, size) && request <= size
    ensures Serves(bs', r, request)
  {
  }

  // ----- headers in memory

  /** A header stays where it is while another one is written. */
  lemma StaysStored(m: seq<byte>, m': seq<byte>, h: map<nat, Header>, h': map<nat, Header>, p: nat, x: nat)
    requires HeaderStored(m, h, x) && x in h' && h'[x] == h[x] && |m'| == |m| && (x + SIZEOF <= p || p + SIZEOF <= x)
    requires forall k :: 0 <= k < |m| && !(p <= k < p + SIZEOF) ==> m'[k] == m[k]
    ensures HeaderStored(m', h', x)
  {
    assert m'[x..x + SIZEOF] == m[x..x + SIZEOF];
  }

  /** In memory, the words of every block are the ones that the chain needs: used, and the offsets of its neighbours. */
  lemma WordsInMemory(h: Heap, i: nat)
    requires h.Valid() && h.End() < 0x1_0000_0000 && i < |h.blocks|
    ensures var m, b := h.mem[..], h.blocks[i];
            && b.at + SIZEOF <= |m| && Value(m[b.at..b.at + 2]) == HEAP_MAGIC
            && Value(m[b.at + 2..b.at + 4]) == (if b.used then 1 else 0)
            && Value(m[b.at + 4..b.at + 8]) == (if i + 1 < |h.blocks| then h.blocks[i + 1].at else h.End())
            && Value(m[b.at + 8..b.at + 12]) == (if i == 0 then 0 else h.blocks[i - 1].at)
  {
    hide Value, HeaderBytes;
    var m, b := h.mem[..], h.blocks[i];
    NextInHeaders(h.hdr, h.blocks, i, h.End());
    OneBlock(h.blocks, h.End(), i);
    if i > 0 {
      OneBlock(h.blocks, h.End(), i - 1);
    }
    assert HeaderAt(h.hdr, h.blocks, i) && HeaderStored(m, h.hdr, b.at);
    HeaderReadBack(h.hdr[b.at]);
    WordsAt(m, b.at, HeaderBytes(h.hdr[b.at]));
  }

  lemma WordsAt(m: seq<byte>, x: nat, b: seq<byte>)
    requires |b| == SIZEOF && x + SIZEOF <= |m| && m[x..x + SIZEOF] == b
    ensures m[x..x + 2] == b[0..2] && m[x + 2..x + 4] == b[2..4] && m[x + 4..x + 8] == b[4..8] && m[x + 8..x + 12] == b[8..12]
  {
    assert forall k :: 0 <= k < SIZEOF ==> m[x + k] == b[k] by {
      assert forall k :: 0 <= k < SIZEOF ==> m[x..x + SIZEOF][k] == b[k];
    }
  }

  lemma NextStored(m: seq<byte>, h: map<nat, Header>, bs: seq<Block>, i: nat, end: nat)
    requires Tiled(bs, end) && Headers(h, bs, end) && Stored(m, h, bs, end) && i < |bs|
    ensures HeaderStored(m, h, bs[i].at) && HeaderStored(m, h, bs[i].next)
  {
    NextInHeaders(h, bs, i, end);
    assert i + 1 < |bs| ==> HeaderStored(m, h, bs[i + 1].at);
    assert HeaderStored(m, h, bs[i].at);
  }

  /** Where block j lies when block i is another one. */
  lemma Elsewhere(bs: seq<Block>, end: nat, i: nat, j: nat)
    requires Tiled(bs, end) && i < |bs| && j < |bs| && i != j
    ensures bs[j].at + SIZEOF <= bs[i].at || (bs[j].at >= bs[i].next && (j > i + 1 ==> bs[j].at >= bs[i].next + SIZEOF))
    ensures bs[i].next <= end && (i + 1 < |bs| ==> bs[i].next + SIZEOF <= end)
  {
    EndsBy(bs, end);
    assert j > i + 1 ==> bs[i].next == bs[i + 1].at && bs[i + 1].next <= bs[j].at;
  }

  lemma MarkStored(m: seq<byte>, m': seq<byte>, h: map<nat, Header>, h': map<nat, Header>, bs: seq<Block>, i: nat, used: bool,
                   end: nat)
    requires Tiled(bs, end) && Headers(h, bs, end) && Stored(m, h, bs, end) && i < |bs|
    requires HeaderStored(m', h', bs[i].at) && |m'| == |m| && bs[i].at in h && h' == h[bs[i].at := h'[bs[i].at]]
    requires forall k :: 0 <= k < |m| && !(bs[i].at <= k < bs[i].at + SIZEOF) ==> m'[k] == m[k]
    ensures Stored(m', h', Mark(bs, i, used), end)
  {
    hide HeaderStored;
    var r := Mark(bs, i, used);
    OneBlock(bs, end, i);
    StaysStored(m, m', h, h', bs[i].at, end);
    forall j | 0 <= j < |r|
      ensures HeaderStored(m', h', r[j].at)
    {
      if j != i {
        Elsewhere(bs, end, i, j);
        assert HeaderStored(m, h, bs[j].at);
        Untouched(m, m', h, h', bs[i].at, bs[j].at);
      }
    }
  }

  lemma Untouched(m: seq<byte>, m': seq<byte>, h: map<nat, Header>, h': map<nat, Header>, p: nat, x: nat)
    requires HeaderStored(m, h, x) && p in h' && h' == h[p := h'[p]] && |m'| == |m|
    requires x + SIZEOF <= p || p + SIZEOF <= x
    requires forall k :: 0 <= k < |m| && !(p <= k < p + SIZEOF) ==> m'[k] == m[k]
    ensures HeaderStored(m', h', x)
  {
    StaysStored(m, m', h, h', p, x);
  }

  /** After a cut: the three headers that were written are there, the others were not touched. */
  lemma SplitStored(m: seq<byte>, m': seq<byte>, h: map<nat, Header>, bs: seq<Block>, i: nat, p: nat, end: nat)
    requires Tiled(bs, end) && Headers(h, bs, end) && Stored(m, h, bs, end) && i < |bs| && bs[i].at in h && bs[i].next in h
    requires bs[i].at + SIZEOF < p && p + SIZEOF < bs[i].next && |m'| == |m|
    requires var h' := SplitHdr(h, bs[i], p, end);
             HeaderStored(m', h', bs[i].at) && HeaderStored(m', h', p) && HeaderStored(m', h', bs[i].next)
    requires forall k :: 0 <= k < |m| && !(bs[i].at <= k < bs[i].at + SIZEOF) && !(p <= k < p + SIZEOF)
                         && !(bs[i].next <= k < bs[i].next + SIZEOF)
                     ==> m'[k] == m[k]
    ensures Stored(m', SplitHdr(h, bs[i], p, end), SplitAt(bs, i, p), end)
  {
    var r, h' := SplitAt(bs, i, p), SplitHdr(h, bs[i], p, end);
    NextInHeaders(h, bs, i, end);
    forall x: nat | HeaderStored(m, h, x) && (x + SIZEOF <= bs[i].at || x >= bs[i].next + SIZEOF)
      ensures HeaderStored(m', h', x)
    {
      assert m'[x..x + SIZEOF] == m[x..x + SIZEOF];
    }
    forall k | 0 <= k < |r|
      ensures HeaderStored(m', h', r[k].at)
    {
      SplitPiece(bs, i, p, k);
      if k < i || k > i + 1 {
        var j := if k < i then k else k - 1;
        Elsewhere(bs, end, i, j);
        assert HeaderStored(m, h, bs[j].at);
      }
    }
    if i + 1 < |bs| {
      Elsewhere(bs, end, i, i + 1);
    }
  }

  /** After a merge likewise. */
  lemma MergeStored(m: seq<byte>, m': seq<byte>, h: map<nat, Header>, bs: seq<Block>, i: nat, end: nat)
    requires Tiled(bs, end) && Headers(h, bs, end) && Stored(m, h, bs, end) && i + 1 < |bs| && |m'| == |m|
    requires bs[i].at in h && bs[i + 1].next in h
    requires var h' := MergeHdr(h, bs[i], bs[i + 1]); HeaderStored(m', h', bs[i].at) && HeaderStored(m', h', bs[i + 1].next)
    requires forall k :: 0 <= k < |m| && !(bs[i].at <= k < bs[i].at + SIZEOF)
                         && !(bs[i + 1].next <= k < bs[i + 1].next + SIZEOF)
                     ==> m'[k] == m[k]
    ensures Stored(m', MergeHdr(h, bs[i], bs[i + 1]), MergeAt(bs, i), end)
  {
    hide HeaderStored, Headers, MergeHdr, Tiled;
    var r, h' := MergeAt(bs, i), MergeHdr(h, bs[i], bs[i + 1]);
    NextInHeaders(h, bs, i + 1, end);
    MergeEnds(bs, end, i);
    forall k | 0 <= k < |r| && k != i && k != i + 1
      ensures HeaderStored(m', h', r[k].at)
    {
      var j := if k < i then k else k + 1;
      assert r[k] == bs[j] && HeaderStored(m, h, bs[j].at);
      OutsideMerge(bs, end, i, j);
      StaysMerged(m, m', h, bs[i], bs[i + 1], bs[j].at);
    }
    if i + 2 < |bs| {
      StaysMerged(m, m', h, bs[i], bs[i + 1], end);
    }
  }

  lemma MergeEnds(bs: seq<Block>, end: nat, i: nat)
    requires Tiled(bs, end) && i + 1 < |bs|
    ensures bs[i].at <= bs[i + 1].next && (i + 2 < |bs| ==> end >= bs[i + 1].next + SIZEOF)
  {
    Elsewhere(bs, end, i, i + 1);
    if i + 2 < |bs| {
      Elsewhere(bs, end, i + 1, i + 2);
    }
  }

  lemma OutsideMerge(bs: seq<Block>, end: nat, i: nat, j: nat)
    requires Tiled(bs, end) && i + 1 < |bs| && j < |bs| && (j < i || j > i + 2)
    ensures bs[j].at + SIZEOF <= bs[i].at || bs[j].at >= bs[i + 1].next + SIZEOF
  {
    Elsewhere(bs, end, if j < i then i else i + 1, j);
  }

  /** A header outside the two that a merge writes is still there. */
  lemma StaysMerged(m: seq<byte>, m': seq<byte>, h: map<nat, Header>, b: Block, c: Block, x: nat)
    requires b.at in h && c.next in h && HeaderStored(m, h, x) && |m'| == |m|
    requires b.at <= c.next && (x + SIZEOF <= b.at || x >= c.next + SIZEOF)
    requires forall k :: 0 <= k < |m| && !(b.at <= k < b.at + SIZEOF) && !(c.next <= k < c.next + SIZEOF) ==> m'[k] == m[k]
    ensures HeaderStored(m', MergeHdr(h, b, c), x)
  {
    assert m'[x..x + SIZEOF] == m[x..x + SIZEOF];
  }

  /** Writing into a payload damages no header. */
  lemma PayloadWritten(m: seq<byte>, m': seq<byte>, h: map<nat, Header>, bs: seq<Block>, j: nat, hi: nat, end: nat)
    requires Tiled(bs, end) && Stored(m, h, bs, end) && j < |bs| && hi <= bs[j].next
    requires SameOutside(m, m', bs[j].at + SIZEOF, hi)
    ensures Stored(m', h, bs, end)
  {
    OneBlock(bs, end, j);
    forall x: nat | HeaderStored(m, h, x) && (x + SIZEOF <= bs[j].at + SIZEOF || x >= bs[j].next)
      ensures HeaderStored(m', h, x)
    {
      assert m'[x..x + SIZEOF] == m[x..x + SIZEOF];
    }
    forall i | 0 <= i < |bs|
      ensures HeaderStored(m', h, bs[i].at)
    {
      assert HeaderStored(m, h, bs[i].at);
      if i != j {
        Elsewhere(bs, end, j, i);
      }
    }
  }

  lemma OneBlock(bs: seq<Block>, end: nat, i: nat)
    requires Tiled(bs, end) && i < |bs|
    ensures bs[i].at + SIZEOF < bs[i].next <= end
  {
    EndsBy(bs, end);
  }

  lemma TwoBlocks(bs: seq<Block>, end: nat, i: nat, j: nat)
    requires Tiled(bs, end) && i < |bs| && j < |bs| && i != j
    ensures bs[i] != bs[j] && (bs[i].next <= bs[j].at || bs[j].next <= bs[i].at)
    ensures bs[i].at + SIZEOF < bs[i].next <= end && bs[j].at + SIZEOF < bs[j].next <= end
  {
    EndsBy(bs, end);
  }

  lemma SameRelocated(bs: seq<Block>, i: nat, end: nat)
    requires Tiled(bs, end) && i < |bs| && bs[i].used
    ensures Relocated(bs, bs[i], bs, bs[i].at + SIZEOF, bs[i].Payload())
  {
  }

  lemma FreedKept(before: seq<Block>, b: Block, after: seq<Block>, m0: seq<byte>, m2: seq<byte>)
    requires Without(before, b, after) && KeptLive(after, m0, m2, 0, 0)
    ensures KeptLive(before, m0, m2, b.at + SIZEOF, b.next)
  {
    forall k | 0 <= k < |m0| && Live(before, k) && !(b.at + SIZEOF <= k < b.next)
      ensures m2[k] == m0[k]
    {
      assert Live(after, k);
    }
  }

  lemma CutMembers(bs: seq<Block>, i: nat, p: nat, end: nat)
    requires Tiled(bs, end) && i < |bs| && bs[i].used && bs[i].at + SIZEOF < p && p + SIZEOF < bs[i].next
    ensures var cut, nb := SplitAt(bs, i, p), Block(bs[i].at, p, true);
            && nb in cut && (forall c :: c in bs && c != bs[i] ==> c in cut)
            && (forall c :: c in cut && c.used ==> c == nb || (c in bs && c != bs[i]))
            && i + 1 < |cut| && !cut[i + 1].used
  {
    var cut, nb := SplitAt(bs, i, p), Block(bs[i].at, p, true);
    SplitTiled(bs, i, p, end);
    SplitKeeps(bs, i, p);
    forall c | c in cut && c.used && c != nb
      ensures c in bs && c != bs[i]
    {
      BlocksApart(cut, end, c, nb);
    }
  }

  lemma ShrunkMembers(bs: seq<Block>, i: nat, p2: nat, end: nat)
    requires Tiled(bs, end) && i < |bs| && bs[i].used && bs[i].at + SIZEOF < p2 && p2 + SIZEOF < bs[i].next
    ensures Relocated(bs, bs[i], Coalesced(SplitAt(bs, i, p2), i + 1), bs[i].at + SIZEOF, p2 - bs[i].at - SIZEOF)
    ensures Block(bs[i].at, p2, true) in Coalesced(SplitAt(bs, i, p2), i + 1)
  {
    hide Tiled, SplitAt, Coalesced;
    CutMembers(bs, i, p2, end);
    CoalescedKeeps(SplitAt(bs, i, p2), i + 1);
  }

  lemma ShrunkKept(before: seq<Block>, b: Block, after: seq<Block>, p2: nat, m0: seq<byte>, m2: seq<byte>, src: nat)
    requires |m0| == |m2| && b in before && b.used && src == b.at + SIZEOF && src < p2 <= b.next <= |m0|
    requires forall c :: c in before && c.used && c != b ==> c in after
    requires Block(b.at, p2, true) in after
    requires forall k :: 0 <= k < |m0| && Live(after, k) ==> m2[k] == m0[k]
    ensures KeptLive(before, m0, m2, src, b.next) && Copied(m0, src, m2, src, p2 - src)
  {
    forall k | src <= k < p2
      ensures m2[k] == m0[k]
    {
      assert Live(after, k);
    }
    forall k | 0 <= k < |m0| && Live(before, k) && !(src <= k < b.next)
      ensures m2[k] == m0[k]
    {
      assert Live(after, k);
    }
  }

  lemma CopiedKept(bs: seq<Block>, nb: Block, m0: seq<byte>, src: nat, m1: seq<byte>, m2: seq<byte>, r: nat, n: nat)
    requires |m0| == |m1| == |m2| && src + n <= |m0| && r + n <= |m0|
    requires nb in bs && nb.used && r == nb.at + SIZEOF && n <= nb.Payload()
    requires Copied(m0, src, m1, r, n)
    requires SameOutside(m0, m1, r, r + n) && KeptLive(bs, m1, m2, 0, 0)
    ensures Copied(m0, src, m2, r, n) && KeptLive(bs, m0, m2, r, r + n)
  {
    forall k | r <= k < r + n
      ensures m2[k] == m0[src + (k - r)]
    {
      assert Live(bs, k);
    }
  }

  /** After the allocation the old block is still there, and the new one is another. */
  lemma MovedIndex(before: seq<Block>, i: nat, bs: seq<Block>, j: nat, want: nat, end: nat, r: int, n: nat) returns (i': nat)
    requires Tiled(before, end) && i < |before| && before[i].used && j < |before| && Fits(before[j], want) && n <= want
    requires bs == Allocated(before, j, want) && r == before[j].at + SIZEOF
    ensures j < |bs| && Extended(before, bs, bs[j], r, n)
    ensures i' < |bs| && bs[i'] == before[i] && i' != j
  {
    AllocatedMembers(before, j, want);
    forall k | before[j].at <= k < before[j].next
      ensures !Live(before, k)
    {
      HeaderNotLive(before, end, j, k);
    }
    assert before[i] in bs;
    i' :| 0 <= i' < |bs| && bs[i'] == before[i];
    BlocksApart(before, end, before[i], before[j]);
  }

  /**
   * What a move achieves: everybody who was live still is, except the old block, and the new one; the new block has the
   * old bytes; and a byte that was live outside the old block was touched by neither allocation, copy nor free.
   */
  lemma MoveResult(before: seq<Block>, bs: seq<Block>, i: nat, j: nat, end: nat, after: seq<Block>,
                   r: int, newsize: nat, src: nat, size: nat, m0: seq<byte>, m1: seq<byte>, m2: seq<byte>)
    requires Tiled(bs, end) && i < |bs| && bs[i].used && src == bs[i].at + SIZEOF && size == bs[i].Payload()
    requires j < |bs| && i != j && Extended(before, bs, bs[j], r, newsize) && bs[i] in before
    requires Without(bs, bs[i], after)
    requires KeptLive(before, m0, m1, 0, 0)
    requires r >= 0
    requires var n := Min(size, newsize); KeptLive(after, m1, m2, r, r + n) && Copied(m1, src, m2, r, n)
    ensures Relocated(before, bs[i], after, r, newsize)
    ensures Copied(m0, src, m2, r, Min(size, newsize))
    ensures KeptLive(before, m0, m2, src, src + size)
  {
    BlocksApart(bs, end, bs[i], bs[j]);
    assert bs[j] in after;
    MovedKept(before, bs[i], src, src + size, after, m0, m1, m2, r, Min(size, newsize), newsize);
  }

  lemma MovedKept(before: seq<Block>, b: Block, src: nat, hi: nat, after: seq<Block>,
                  m0: seq<byte>, m1: seq<byte>, m2: seq<byte>, r: nat, n: nat, size: nat)
    requires b in before && b.used && src == b.at + SIZEOF && hi == b.next && n <= b.Payload()
    requires KeptLive(before, m0, m1, 0, 0)
    requires KeptLive(after, m1, m2, r, r + n) && Copied(m1, src, m2, r, n)
    requires forall c :: c in before && c.used && c != b ==> c in after
    requires Dead(before, r, r + size) && n <= size
    ensures KeptLive(before, m0, m2, src, hi) && Copied(m0, src, m2, r, n)
  {
    forall k | r <= k < r + n
      ensures m2[k] == m0[src + (k - r)]
    {
      assert Live(before, src + (k - r));
      assert m1[src + (k - r)] == m0[src + (k - r)];
    }
    forall k | 0 <= k < |m0| && Live(before, k) && !(src <= k < hi)
      ensures m2[k] == m0[k]
    {
      assert Live(after, k);
      assert m1[k] == m0[k];
    }
  }

  lemma ReleasedMembers(bs: seq<Block>, i: nat, end: nat)
    requires Tiled(bs, end) && i < |bs| && bs[i].used
    ensures Without(bs, bs[i], Released(bs, i))
  {
    var m := Mark(bs, i, false);
    MarkKeeps(bs, i, false);
    CoalescedKeeps(m, i);
    MarkTiled(bs, i, false, end);
    forall c | c in m && c.used
      ensures c in bs && c != bs[i]
    {
      if c == bs[i] {
        BlocksApart(m, end, c, m[i]);
      }
    }
  }

  lemma MergeLowest(bs: seq<Block>, i: nat, l: nat, end: nat)
    requires Tiled(bs, end) && i + 1 < |bs| && !bs[i].used && !bs[i + 1].used
    ensures Lowest(bs, l) ==> Lowest(MergeAt(bs, i), if l == bs[i + 1].at then bs[i].at else l)
  {
    MergeKeeps(bs, i);
    assert bs[i] in bs && bs[i + 1] in bs;
  }

  lemma CoalescedLowest(bs: seq<Block>, i: nat, l: nat, end: nat)
    requires Tiled(bs, end) && i < |bs| && !bs[i].used
    ensures Lowest(bs, l) ==> Lowest(Coalesced(bs, i), PluggedHint(bs, i, l))
  {
    var b1 := Forward(bs, i);
    if i + 1 < |bs| && !bs[i + 1].used {
      MergeLowest(bs, i, l, end);
      MergeTiled(bs, i, end);
    }
    if i > 0 && !b1[i - 1].used {
      MergeLowest(b1, i - 1, ForwardHint(bs, i, l), end);
    }
  }

  lemma ReleasedLowest(bs: seq<Block>, i: nat, l: nat, end: nat)
    requires Tiled(bs, end) && i < |bs|
    ensures Lowest(bs, l) ==> Lowest(Released(bs, i), ReleasedHint(bs, i, l))
  {
    MarkKeeps(bs, i, false);
    MarkTiled(bs, i, false, end);
    CoalescedLowest(Mark(bs, i, false), i, Min(bs[i].at, l), end);
  }

  lemma ShrinkFacts(bs: seq<Block>, i: nat, end: nat, lfree: nat, p: nat)
    requires HintOk(bs, end, lfree) && NoFreeNeighbours(bs) && i < |bs| && bs[i].used
    ensures HintOk(SplitAt(bs, i, p), end, lfree) && HoleOnlyAt(SplitAt(bs, i, p), i + 1)
    ensures UsedSpan(SplitAt(bs, i, p)) == UsedSpan(bs) - (bs[i].next - p)
  {
    SplitSpan(bs, i, p);
    SplitHole(bs, i, p);
    SplitKeeps(bs, i, p);
  }

  lemma SplitHole(bs: seq<Block>, i: nat, p: nat)
    requires NoFreeNeighbours(bs) && i < |bs|
    ensures HoleOnlyAt(SplitAt(bs, i, p), i + 1)
  {
    var r := SplitAt(bs, i, p);
    forall k, l | 0 <= k && l == k + 1 < |r| && k != i + 1 && l != i + 1
      ensures r[k].used || r[l].used
    {
      if l < i {
        assert r[k] == bs[k] && r[l] == bs[l];
      } else if k > i + 1 {
        assert r[k] == bs[k - 1] && r[l] == bs[l - 1];
      }
    }
  }

  /** The position of the block that the hint names; past the last block for the end. */
  ghost function HintIndex(bs: seq<Block>, end: nat, lfree: nat): (i: nat)
    requires HintOk(bs, end, lfree)
    ensures i <= |bs| && lfree == if i < |bs| then bs[i].at else end
  {
    if lfree == end then |bs|
    else
      var b :| b in bs && b.at == lfree && !b.used;
      var i :| 0 <= i < |bs| && bs[i] == b;
      i
  }

  lemma AllocatedHint(bs: seq<Block>, i: nat, end: nat, lfree: nat, size: nat)
    requires Tiled(bs, end) && HintOk(bs, end, lfree) && i < |bs| && lfree <= bs[i].at && Fits(bs[i], size)
    ensures Allocated(bs, i, size)[i].at == bs[i].at
    ensures lfree != bs[i].at ==> HintOk(Allocated(bs, i, size), end, lfree)
    ensures Lowest(bs, lfree) ==> Lowest(Allocated(bs, i, size), lfree)
  {
    var bs' := Allocated(bs, i, size);
    AllocatedMembers(bs, i, size);
    if lfree != end && lfree != bs[i].at {
      var b :| b in bs && b.at == lfree && !b.used;
      assert b in bs';
    }
  }

  /** Only block i changes: its place is taken by the caller's block and possibly a free rest behind it. */
  lemma AllocatedMembers(bs: seq<Block>, i: nat, size: nat)
    requires i < |bs| && Fits(bs[i], size)
    ensures forall b :: b in bs && b != bs[i] ==> b in Allocated(bs, i, size)
    ensures forall b :: b in Allocated(bs, i, size) && !b.used ==> b in bs || b.at >= bs[i].at
    ensures forall b :: b in Allocated(bs, i, size) && b.used ==> b in bs || b == Allocated(bs, i, size)[i]
    ensures Allocated(bs, i, size)[i].used && Allocated(bs, i, size)[i].at == bs[i].at
    ensures Allocated(bs, i, size)[i].Payload() >= size
    ensures Allocated(bs, i, size)[i] in Allocated(bs, i, size)
  {
    if bs[i].Payload() >= size + SIZEOF + MIN_SIZE {
      SplitKeeps(bs, i, bs[i].at + SIZEOF + size);
    } else {
      MarkKeeps(bs, i, true);
    }
  }

  lemma HeaderOf(h: map<nat, Header>, bs: seq<Block>, i: nat, end: nat)
    requires Chain(h, bs, end) && i < |bs|
    ensures bs[i].at in h && h[bs[i].at].used == bs[i].used && h[bs[i].at].next == bs[i].next
  {
    assert HeaderAt(h, bs, i);
  }

  lemma LowestSkips(bs: seq<Block>, i: nat, end: nat)
    requires Tiled(bs, end) && i < |bs| && bs[i].used
    ensures Lowest(bs, bs[i].at) ==> Lowest(bs, bs[i].next)
  {
  }

  lemma NextFreeSame(bs: seq<Block>, from: nat)
    ensures NextFree(bs, from, from)
  {
  }

  lemma NextFreeSkips(bs: seq<Block>, i: nat, end: nat, from: nat)
    requires Tiled(bs, end) && i < |bs| && bs[i].used && NextFree(bs, from, bs[i].at)
    ensures NextFree(bs, from, bs[i].next)
  {
  }

  lemma ReleaseChain(h: map<nat, Header>, bs: seq<Block>, i: nat, end: nat)
    requires Chain(h, bs, end) && NoFreeNeighbours(bs) && i < |bs| && bs[i].used
    ensures bs[i].at in h && h[bs[i].at].next == bs[i].next && bs[i].next <= end
    ensures var bs' := Mark(bs, i, false);
            && Chain(h[bs[i].at := h[bs[i].at].(used := false)], bs', end)
            && HoleOnlyAt(bs', i) && UsedSpan(bs') == UsedSpan(bs) - (bs[i].next - bs[i].at)
  {
    HeaderOf(h, bs, i, end);
    EndsBy(bs, end);
    MarkAligned(bs, i, false);
    MarkHeaders(h, bs, i, end, false);
    MarkSpan(bs, i, false);
  }

  lemma ReleaseHint(bs: seq<Block>, i: nat, end: nat, lfree: nat)
    requires Tiled(bs, end) && HintOk(bs, end, lfree) && i < |bs| && bs[i].used
    ensures var bs', l := Mark(bs, i, false), if bs[i].at < lfree then bs[i].at else lfree;
            HintOk(bs', end, l)
  {
    var bs' := Mark(bs, i, false);
    MarkKeeps(bs, i, false);
    EndsBy(bs, end);
    if lfree != end && lfree <= bs[i].at {
      var b :| b in bs && b.at == lfree && !b.used;
      assert b in bs';
    }
  }

  lemma ReleaseDead(bs: seq<Block>, i: nat, end: nat)
    requires Tiled(bs, end) && i < |bs|
    ensures forall k :: bs[i].at <= k < bs[i].at + SIZEOF ==> !Live(Mark(bs, i, false), k)
  {
    MarkTiled(bs, i, false, end);
    NotLiveBelow(Mark(bs, i, false), end, i);
  }

  lemma CoalescedKeeps(bs: seq<Block>, i: nat)
    requires i < |bs| && !bs[i].used
    ensures KeepsUsed(Coalesced(bs, i), bs) && KeepsUsed(bs, Coalesced(bs, i))
  {
    if i + 1 < |bs| && !bs[i + 1].used {
      MergeKeeps(bs, i);
    }
    var b1 := Forward(bs, i);
    if i > 0 && !b1[i - 1].used {
      MergeKeeps(b1, i - 1);
    }
  }

  lemma CutChain(h: map<nat, Header>, bs: seq<Block>, i: nat, end: nat, p: nat)
    requires Chain(h, bs, end) && i < |bs| && Aligned(p)
    requires bs[i].at + SIZEOF < p && p + SIZEOF < bs[i].next
    ensures bs[i].at in h && h[bs[i].at].next == bs[i].next <= end
    ensures bs[i].next in h
    ensures Chain(SplitHdr(h, bs[i], p, end), SplitAt(bs, i, p), end)
  {
    HeaderOf(h, bs, i, end);
    NextInHeaders(h, bs, i, end);
    SplitTiled(bs, i, p, end);
    SplitHeaders(h, bs, i, p, end);
    SplitAligned(bs, i, p);
  }

  lemma AllocatedSpan(bs: seq<Block>, i: nat, size: nat)
    requires i < |bs| && !bs[i].used
    ensures UsedSpan(Allocated(bs, i, size)) == UsedSpan(bs) + Taken(bs[i], size)
  {
    var p := bs[i].at + SIZEOF + size;
    assert Span(bs[i]) == 0;
    if bs[i].Payload() >= size + SIZEOF + MIN_SIZE {
      SplitSpan(bs, i, p);
      assert Allocated(bs, i, size) == SplitAt(bs, i, p);
    } else {
      MarkSpan(bs, i, true);
      assert Allocated(bs, i, size) == Mark(bs, i, true);
    }
  }

  lemma AllocatedCases(bs: seq<Block>, i: nat, size: nat, p2: nat)
    requires i < |bs| && p2 == bs[i].at + SIZEOF + size
    ensures Allocated(bs, i, size)
         == if bs[i].Payload() >= size + SIZEOF + MIN_SIZE then SplitAt(bs, i, p2) else Mark(bs, i, true)
  {
  }

  lemma AllocatedNeighbours(bs: seq<Block>, i: nat, size: nat)
    requires NoFreeNeighbours(bs) && i < |bs| && !bs[i].used
    ensures NoFreeNeighbours(Allocated(bs, i, size))
  {
    if bs[i].Payload() >= size + SIZEOF + MIN_SIZE {
      SplitNeighbours(bs, i, bs[i].at + SIZEOF + size);
    }
  }

  /** None of the three headers written by a cut is live afterwards. */
  lemma CutDead(bs: seq<Block>, i: nat, end: nat, p: nat)
    requires Tiled(bs, end) && i < |bs| && bs[i].at + SIZEOF < p && p + SIZEOF < bs[i].next
    ensures forall k :: bs[i].at <= k < bs[i].at + SIZEOF ==> !Live(SplitAt(bs, i, p), k)
    ensures forall k :: p <= k < p + SIZEOF ==> !Live(SplitAt(bs, i, p), k)
    ensures forall k :: bs[i].next <= k < bs[i].next + SIZEOF ==> !Live(SplitAt(bs, i, p), k)
  {
    var cut := SplitAt(bs, i, p);
    SplitTiled(bs, i, p, end);
    NotLiveBelow(cut, end, i);
    NotLiveBelow(cut, end, i + 1);
    NextNotLive(cut, end, i + 1);
  }

  lemma SplitAligned(bs: seq<Block>, i: nat, p: nat)
    requires AllAligned(bs) && i < |bs| && Aligned(p)
    ensures AllAligned(SplitAt(bs, i, p))
  {
    var r := SplitAt(bs, i, p);
    forall k | 0 <= k < |r|
      ensures Aligned(r[k].at)
    {
      assert Aligned(bs[if k <= i then k else k - 1].at);
    }
  }

  lemma SplitNeighbours(bs: seq<Block>, i: nat, p: nat)
    requires NoFreeNeighbours(bs) && i < |bs| && !bs[i].used
    ensures NoFreeNeighbours(SplitAt(bs, i, p))
  {
    var r := SplitAt(bs, i, p);
    forall k, l | 0 <= k && l == k + 1 < |r|
      ensures r[k].used || r[l].used
    {
      if l < i {
        assert r[k] == bs[k] && r[l] == bs[l];
      } else if k > i + 1 {
        assert r[k] == bs[k - 1] && r[l] == bs[l - 1];
      } else if k == i + 1 {
        assert r[l] == bs[i + 1] && (bs[i].used || bs[i + 1].used);
      }
    }
  }

  /** What plug_holes reads: the two neighbours of block i. */
  lemma LinksAt(h: map<nat, Header>, bs: seq<Block>, i: nat, end: nat, lfree: nat)
    requires LaidOut(h, bs, end, lfree) && i < |bs|
    ensures bs[i].at in h && h[bs[i].at] == Header(bs[i].used, bs[i].next, if i == 0 then 0 else bs[i - 1].at)
    ensures bs[i].next in h && bs[i].at < bs[i].next && (bs[i].next == end <==> i + 1 == |bs|)
    ensures i + 1 < |bs| ==> bs[i].next == bs[i + 1].at && h[bs[i].next].used == bs[i + 1].used
    ensures i > 0 ==> bs[i - 1].at in h && h[bs[i - 1].at].used == bs[i - 1].used && bs[i - 1].at < bs[i].at
    ensures i == 0 ==> bs[i].at == 0
  {
    assert HeaderAt(h, bs, i);
    NextInHeaders(h, bs, i, end);
    if i + 1 < |bs| {
      assert HeaderAt(h, bs, i + 1);
      EndsBy(bs, end);
    }
    if i > 0 {
      assert HeaderAt(h, bs, i - 1);
    }
  }

  lemma JoinLaid(h: map<nat, Header>, bs: seq<Block>, i: nat, end: nat, lfree: nat)
    requires LaidOut(h, bs, end, lfree) && i + 1 < |bs| && !bs[i].used && !bs[i + 1].used
    ensures bs[i].at in h && bs[i + 1].at in h && h[bs[i + 1].at].next == bs[i + 1].next <= end
    ensures bs[i + 1].next in h
    ensures LaidOut(MergeHdr(h, bs[i], bs[i + 1]), MergeAt(bs, i), end, if lfree == bs[i + 1].at then bs[i].at else lfree)
    ensures forall k :: bs[i].at <= k < bs[i].at + SIZEOF ==> !Live(bs, k)
    ensures forall k :: bs[i + 1].next <= k < bs[i + 1].next + SIZEOF ==> !Live(bs, k)
  {
    assert HeaderAt(h, bs, i) && HeaderAt(h, bs, i + 1);
    NextInHeaders(h, bs, i + 1, end);
    MergeHint(bs, i, end, lfree);
    MergeHeaders(h, bs, i, end);
    MergeTiled(bs, i, end);
    MergeAligned(bs, i);
    NotLiveBelow(bs, end, i);
    NextNotLive(bs, end, i + 1);
  }

  lemma MergeAligned(bs: seq<Block>, i: nat)
    requires AllAligned(bs) && i + 1 < |bs|
    ensures AllAligned(MergeAt(bs, i))
  {
    var r := MergeAt(bs, i);
    forall k | 0 <= k < |r|
      ensures Aligned(r[k].at)
    {
      assert Aligned(bs[if k <= i then k else k + 1].at);
    }
  }

  lemma MarkAligned(bs: seq<Block>, i: nat, used: bool)
    requires AllAligned(bs) && i < |bs|
    ensures AllAligned(Mark(bs, i, used))
  {
    var r := Mark(bs, i, used);
    forall k | 0 <= k < |r|
      ensures Aligned(r[k].at)
    {
      assert Aligned(bs[k].at);
    }
  }

  lemma NotLiveBelow(bs: seq<Block>, end: nat, i: nat)
    requires Tiled(bs, end) && i < |bs|
    ensures forall k :: bs[i].at <= k < bs[i].at + SIZEOF ==> !Live(bs, k)
  {
    forall k | bs[i].at <= k < bs[i].at + SIZEOF
      ensures !Live(bs, k)
    {
      HeaderNotLive(bs, end, i, k);
    }
  }

  lemma NextNotLive(bs: seq<Block>, end: nat, i: nat)
    requires Tiled(bs, end) && i < |bs|
    ensures forall k :: bs[i].next <= k < bs[i].next + SIZEOF ==> !Live(bs, k)
  {
    if i + 1 < |bs| {
      NotLiveBelow(bs, end, i + 1);
    } else {
      forall k | end <= k
        ensures !Live(bs, k)
      {
        HeaderNotLive(bs, end, i, k);
      }
    }
  }

  lemma ForwardKeepsLive(bs: seq<Block>, i: nat)
    requires i < |bs| && !bs[i].used
    ensures forall k :: Live(bs, k) <==> Live(Forward(bs, i), k)
    ensures Forward(bs, i)[i].at == bs[i].at && !Forward(bs, i)[i].used
    ensures i > 0 ==> Forward(bs, i)[i - 1] == bs[i - 1]
  {
    if i + 1 < |bs| && !bs[i + 1].used {
      MergeKeeps(bs, i);
    }
  }

  lemma ForwardHole(bs: seq<Block>, i: nat)
    requires i < |bs| && !bs[i].used && HoleOnlyAt(bs, i)
    ensures var r := Forward(bs, i); HoleOnlyAt(r, i) && !r[i].used && (i + 1 < |r| ==> r[i + 1].used)
  {
    var r := Forward(bs, i);
    if i + 1 < |bs| && !bs[i + 1].used {
      forall k, l | 0 <= k && l == k + 1 < |r| && k != i && l != i
        ensures r[k].used || r[l].used
      {
        var d := if k < i then 0 else 1;
        assert r[k] == bs[k + d] && r[l] == bs[l + d];
      }
      assert i + 2 < |bs| ==> bs[i + 2].used;
    }
  }

  lemma BackwardHole(bs: seq<Block>, i: nat)
    requires i < |bs| && !bs[i].used && HoleOnlyAt(bs, i) && (i + 1 < |bs| ==> bs[i + 1].used)
    ensures NoFreeNeighbours(Backward(bs, i))
  {
    if i > 0 && !bs[i - 1].used {
      var r := MergeAt(bs, i - 1);
      forall k, l | 0 <= k && l == k + 1 < |r|
        ensures r[k].used || r[l].used
      {
        if k < i - 1 {
          assert r[k] == bs[k] && (l < i - 1 ==> r[l] == bs[l]);
          assert bs[k].used || bs[k + 1].used;
        } else {
          assert r[l] == bs[l + 1];
          assert k > i - 1 ==> r[k] == bs[k + 1];
        }
      }
    }
  }

  /** Closing the only hole leaves no two free neighbours and loses no byte. */
  lemma CoalescedOk(bs: seq<Block>, i: nat)
    requires i < |bs| && !bs[i].used && HoleOnlyAt(bs, i)
    ensures NoFreeNeighbours(Coalesced(bs, i)) && UsedSpan(Coalesced(bs, i)) == UsedSpan(bs)
  {
    ForwardHole(bs, i);
    BackwardHole(Forward(bs, i), i);
    if i + 1 < |bs| && !bs[i + 1].used {
      MergeSpan(bs, i);
    }
    if i > 0 && !Forward(bs, i)[i - 1].used {
      MergeSpan(Forward(bs, i), i - 1);
    }
  }
}
