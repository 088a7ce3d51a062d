/** Memory pools (mempool.c): blocks of one size on a list that runs through the free blocks, and a list of waiting threads. */
module MemPool {
  import opened Prelude
  import opened WaitList

  // ----- the blocks

  const NULL: int := -1
  const POOL: int := -2  // the word in front of an allocated block: the pool it belongs to
  const LINK_SIZE: nat := 4

  function AlignUp(n: nat): (r: nat)
    ensures n <= r < n + 4 && r % 4 == 0
  {
    (n + 3) / 4 * 4
  }

  /** block_total_count */
  function Count(size: nat, blockSize: nat): nat {
    size / 4 * 4 / (AlignUp(blockSize) + LINK_SIZE)
  }

  /** The blocks lie one after the other inside the pool: no two overlap, and one more would not fit. */
  lemma BlocksApart(size: nat, blockSize: nat, b: nat, c: nat)
    requires b <= c < Count(size, blockSize)
    ensures var s := AlignUp(blockSize) + LINK_SIZE;
            && (b < c ==> (b + 1) * s <= c * s) && (c + 1) * s <= size
            && size < (Count(size, blockSize) + 1) * s + 4
  {
    var s, k := AlignUp(blockSize) + LINK_SIZE, Count(size, blockSize);
    hide AlignUp;
    WholeTimes(size / 4 * 4, s);
    if b < c {
      Multiples(b + 1, c, s);
    }
    Multiples(c + 1, k, s);
  }

  lemma WholeTimes(a: nat, s: nat)
    requires s > 0
    ensures a / s * s <= a < (a / s + 1) * s
  {
    assert (a / s + 1) * s == a / s * s + s;
  }

  lemma Multiples(a: nat, b: nat, s: nat)
    requires a <= b
    ensures a * s <= b * s
  {
  }

  /** From first on, link runs through free and ends with NULL. */
  ghost predicate Linked(first: int, link: seq<int>, free: seq<nat>) {
    && first == (if free == [] then NULL else free[0])
    && forall i :: 0 <= i < |free| ==> LinkAt(link, free, i)
  }

  ghost predicate LinkAt(link: seq<int>, free: seq<nat>, i: nat)
    requires i < |free|
  {
    free[i] < |link| && link[free[i]] == if i + 1 < |free| then free[i + 1] else NULL
  }

  lemma PopLinked(first: int, link: seq<int>, free: seq<nat>)
    requires Linked(first, link, free) && NoDup(free) && free != []
    ensures free[0] == first < |link| && free[0] !in free[1..]
    ensures Linked(link[first], link[first := POOL], free[1..])
  {
    assert LinkAt(link, free, 0);
    var link', free' := link[first := POOL], free[1..];
    forall i | 0 <= i < |free'|
      ensures LinkAt(link', free', i)
    {
      assert LinkAt(link, free, i + 1);
    }
  }

  lemma PushLinked(first: int, link: seq<int>, free: seq<nat>, b: nat)
    requires Linked(first, link, free) && b < |link| && b !in free
    ensures Linked(b, link[b := first], [b] + free)
  {
    var link', free' := link[b := first], [b] + free;
    forall i | 0 <= i < |free'|
      ensures LinkAt(link', free', i)
    {
      if i > 0 {
        assert LinkAt(link, free, i - 1) && free'[i] == free[i - 1];
      }
    }
  }

  /** The blocks in address order. */
  function InOrder(count: nat): (r: seq<nat>)
    ensures |r| == count && forall i :: 0 <= i < count ==> r[i] == i
  {
    seq(count, i requires 0 <= i < count => i)
  }

  lemma InOrderHasAll(count: nat)
    ensures forall b: nat :: b in InOrder(count) <==> b < count
  {
    forall b: nat | b < count
      ensures b in InOrder(count)
    {
      assert InOrder(count)[b] == b;
    }
  }

  class Pool {
    const link: array<int>
    var blockList: int
    var freeCount: nat
    ghost var free: seq<nat>

    ghost predicate Valid()
      reads this, link
    {
      && Linked(blockList, link[..], free) && NoDup(free) && freeCount == |free|
      && forall b :: 0 <= b < link.Length && b !in free ==> link[b] == POOL
    }

    /** rt_mp_init for a pool that holds at least one block. */
    constructor (count: nat)
      requires count > 0
      ensures Valid() && fresh(link) && link.Length == count
      ensures free == InOrder(count)
    {
      link := new int[count];
      blockList, freeCount := 0, count;
      free := InOrder(count);
      new;
      for offset := 0 to count
        invariant freeCount == count && blockList == 0 && free == InOrder(count)
        invariant forall b :: 0 <= b < offset ==> link[b] == b + 1
      {
        link[offset] := offset + 1;
      }
      link[count - 1] := NULL;
      InOrderHasAll(count);
    }

    /** rt_mp_alloc, once there is a free block: the block freed last. */
    method Alloc() returns (b: nat)
      requires Valid() && freeCount > 0
      modifies this, link
      ensures Valid() && old(free) == [b] + free && b < link.Length && link[b] == POOL
      ensures forall c :: 0 <= c < link.Length && c != b ==> link[c] == old(link[c])
    {
      ghost var links := link[..];
      PopLinked(blockList, links, free);
      freeCount := freeCount - 1;
      b := blockList;
      blockList := link[b];
      link[b] := POOL;
      assert link[..] == links[b := POOL];
      assert free == [b] + free[1..];
      free := free[1..];
    }

    /** rt_mp_free of an allocated block. */
    method Free(b: nat)
      requires Valid() && b < link.Length && b !in free
      modifies this, link
      ensures Valid() && free == [b] + old(free)
      ensures forall c :: 0 <= c < link.Length && c != b ==> link[c] == old(link[c])
    {
      ghost var links := link[..];
      PushLinked(blockList, links, free, b);
      freeCount := freeCount + 1;
      link[b] := blockList;
      assert link[..] == links[b := blockList];
      blockList := b;
      free := [b] + free;
    }
  }

  // ----- every interleaving

  /** The free blocks, the allocated ones, and the threads that wait for a block. */
  datatype State = State(count: nat, free: seq<nat>, taken: set<nat>, wait: Wait)

  datatype Step =
    | Alloc(t: Tid)
    | Sleep(t: Tid)
    | Quit(t: Tid)
    | Free(b: nat)
    | Expire(i: nat)

  function Init(count: nat): State {
    State(count, InOrder(count), {}, Wait(count, [], {}))
  }

  predicate Enabled(s: State, e: Step) {
    match e
    case Alloc(t) => t !in s.wait.asleep && s.free != [] && s.wait.tokens > 0
    case Sleep(t) => t !in s.wait.asleep && s.free == []
    case Quit(t) => t in s.wait.woken && s.free == []
    case Free(b) => b in s.taken
    case Expire(i) => i < |s.wait.asleep|
  }

  /** A sleeping thread goes to the front of the list: the pool serves its waiters last in, first out. */
  function Next(s: State, e: Step): State
    requires Enabled(s, e)
  {
    match e
    case Alloc(t) => s.(free := s.free[1..], taken := s.taken + {s.free[0]}, wait := s.wait.Grab(t))
    case Sleep(t) => s.(wait := s.wait.Sleep(t, 0))
    case Quit(t) => s.(wait := s.wait.Quit(t))
    case Free(b) => s.(free := [b] + s.free, taken := s.taken - {b}, wait := s.wait.Post())
    case Expire(i) => s.(wait := s.wait.Expire(i))
  }

  /** Every block is free or taken, never both; and no wakeup is lost. */
  ghost predicate Inv(s: State) {
    && s.wait.tokens == |s.free| && s.wait.Good()
    && NoDup(s.free) && (forall i :: 0 <= i < |s.free| ==> s.free[i] !in s.taken)
    && (forall b: nat :: b < s.count <==> b in s.free || b in s.taken)
  }

  lemma FirstOff(free: seq<nat>)
    requires NoDup(free) && free != []
    ensures NoDup(free[1..]) && free[0] !in free[1..] && forall x :: x in free <==> x == free[0] || x in free[1..]
  {
    assert free == [free[0]] + free[1..];
    assert forall i :: 0 <= i < |free| - 1 ==> free[1..][i] == free[i + 1];
  }

  lemma AllocInv(s: State, t: Tid)
    requires Inv(s) && Enabled(s, Alloc(t))
    ensures Inv(Next(s, Alloc(t)))
  {
    hide Wait.Good;
    GrabKeeps(s.wait, t);
    FirstOff(s.free);
  }

  lemma FreeInv(s: State, b: nat)
    requires Inv(s) && Enabled(s, Free(b))
    ensures Inv(Next(s, Free(b)))
  {
    hide Wait.Good;
    PostKeeps(s.wait);
    assert b !in s.free;
  }

  lemma StepInv(s: State, e: Step)
    requires Inv(s) && Enabled(s, e)
    ensures Inv(Next(s, e)) && Next(s, e).count == s.count
  {
    match e
    case Alloc(t) => AllocInv(s, t);
    case Sleep(t) => SleepKeeps(s.wait, t, 0);
    case Quit(t) => QuitKeeps(s.wait, t);
    case Free(b) => FreeInv(s, b);
    case Expire(i) => ExpireKeeps(s.wait, i);
  }

  /** What a step does to the waiting threads. */
  function WaitMove(s: State, e: Step): Move
    requires Enabled(s, e)
  {
    match e
    case Alloc(t) => Goes(t)
    case Sleep(t) => FallsAsleep(t)
    case Quit(t) => Goes(t)
    case Free(_) => FirstWakes
    case Expire(i) => Goes(s.wait.asleep[i])
  }

  lemma WaitMoves(s: State, e: Step)
    requires Inv(s) && Enabled(s, e)
    ensures Moved(s.wait, WaitMove(s, e), Next(s, e).wait)
  {
    hide Moved, NoDup;
    match e
    case Alloc(t) => GrabMoves(s.wait, t);
    case Sleep(t) => SleepMoves(s.wait, t, 0);
    case Quit(t) => WokenAwake(s.wait, t); QuitMoves(s.wait, t);
    case Free(_) => PostMoves(s.wait);
    case Expire(i) => ExpireMoves(s.wait, i);
  }

  ghost predicate Moves(s: State, e: Step, s': State) {
    Enabled(s, e) && s' == Next(s, e)
  }

  ghost predicate Run(count: nat, run: seq<State>, steps: seq<Step>) {
    && |run| == |steps| + 1 && run[0] == Init(count)
    && forall i, j :: 0 <= i && j == i + 1 < |run| ==> Moves(run[i], steps[i], run[j])
  }

  lemma InitInv(count: nat)
    ensures Inv(Init(count)) && Init(count).count == count
  {
    InOrderHasAll(count);
  }

  lemma {:induction false} RunInv(count: nat, run: seq<State>, steps: seq<Step>, n: nat)
    requires Run(count, run, steps) && n < |run|
    ensures Inv(run[n]) && run[n].count == count
  {
    hide Inv, Init, Enabled, Next;
    if n == 0 {
      InitInv(count);
    } else {
      RunInv(count, run, steps, n - 1);
      assert Moves(run[n - 1], steps[n - 1], run[n]);
      StepInv(run[n - 1], steps[n - 1]);
    }
  }

  /** Never is a block given to two threads or lost, and a thread sleeps only while all free blocks are spoken for. */
  lemma PoolSafety(count: nat, run: seq<State>, steps: seq<Step>, n: nat, b: nat)
    requires Run(count, run, steps) && n < |run| && b < count
    ensures (b in run[n].free) != (b in run[n].taken)
    ensures run[n].wait.asleep != [] ==> |run[n].free| <= |run[n].wait.woken|
  {
    RunInv(count, run, steps, n);
  }

  /**
   * Along any run each step moves the threads that it should, and no other; and a thread that runs gets a block if and only
   * if one is free, and sleeps if and only if none is.  Who fell asleep last is resumed first.
   */
  lemma ThreadsMove(count: nat, run: seq<State>, steps: seq<Step>, n: nat, t: Tid)
    requires Run(count, run, steps) && n < |run|
    ensures n < |steps| ==> Enabled(run[n], steps[n]) && Moved(run[n].wait, WaitMove(run[n], steps[n]), run[n + 1].wait)
    ensures n < |steps| && steps[n].Sleep? ==> run[n + 1].wait.asleep != [] && run[n + 1].wait.asleep[0] == steps[n].t
    ensures !At(run[n].wait, t).Asleep? ==>
              (Enabled(run[n], Alloc(t)) <==> run[n].free != []) && (Enabled(run[n], Sleep(t)) <==> run[n].free == [])
  {
    hide Moved;
    RunInv(count, run, steps, n);
    if n < |steps| {
      assert Moves(run[n], steps[n], run[n + 1]);
      WaitMoves(run[n], steps[n]);
    }
  }

  // ----- the block list along a run

  ghost predicate Follows(p: Pool, s: State)
    reads p, p.link
  {
    p.Valid() && p.link.Length == s.count && p.free == s.free && p.freeCount == s.wait.tokens
  }

  /** The code of one step; those of the wait list do not touch the blocks.  An allocation returns the first free block. */
  method Perform(p: Pool, ghost s: State, e: Step) returns (block: Option<nat>)
    requires Follows(p, s) && Inv(s) && Enabled(s, e)
    modifies p, p.link
    ensures Follows(p, Next(s, e)) && block == if e.Alloc? then Some(s.free[0]) else None
  {
    block := None;
    match e
    case Alloc(_) =>
      var b := p.Alloc();
      block := Some(b);
    case Free(b) => p.Free(b);
    case _ =>
  }

  /** A fresh pool along any interleaving: the links always run through the free blocks of the protocol. */
  method Replay(count: nat, ghost run: seq<State>, steps: seq<Step>) returns (p: Pool)
    requires count > 0 && Run(count, run, steps)
    ensures fresh(p) && Follows(p, run[|steps|])
  {
    p := new Pool(count);
    hide Inv;
    for i := 0 to |steps|
      invariant fresh(p) && fresh(p.link) && Follows(p, run[i])
    {
      RunInv(count, run, steps, i);
      assert Moves(run[i], steps[i], run[i + 1]);
      var _ := Perform(p, run[i], steps[i]);
    }
  }
}
