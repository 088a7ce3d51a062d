/**
 * The memory of a message queue (ipc.c): a fixed pool of nodes, each either on the singly linked free list, on the
 * singly linked message list, or in the hands of one thread that is copying into or out of it.
 */
module MessagePool {
  import opened Prelude

  /** A node is named by its position in the pool; NULL stands for the null pointer. */
  type Node = nat
  const NULL: int := -1

  type Msg = seq<byte>

  const LINK_SIZE: nat := 4  // sizeof(struct rt_mq_message)

  /** Where node k of the pool starts: its link word, and behind that its payload area. */
  function NodeAt(msgSize: nat, k: nat): nat {
    k * (msgSize + LINK_SIZE)
  }

  /** max_msgs nodes fit into the pool, no two of them overlap, and one more would not fit. */
  lemma NodesApart(poolSize: nat, msgSize: nat, b: nat, c: nat)
    requires b <= c < poolSize / (msgSize + LINK_SIZE)
    ensures b < c ==> NodeAt(msgSize, b) + LINK_SIZE + msgSize <= NodeAt(msgSize, c)
    ensures NodeAt(msgSize, c) + LINK_SIZE + msgSize <= poolSize
    ensures poolSize < NodeAt(msgSize, poolSize / (msgSize + LINK_SIZE)) + LINK_SIZE + msgSize
  {
    var w, k := msgSize + LINK_SIZE, poolSize / (msgSize + LINK_SIZE);
    assert poolSize == k * w + poolSize % w;
    if b < c {
      Strides(b + 1, c, w);
    }
    Strides(c + 1, k, w);
  }

  lemma Strides(a: nat, b: nat, w: nat)
    requires a <= b
    ensures a * w <= b * w && (a >= 1 ==> (a - 1) * w + w == a * w)
  {
    assert (b - a) * w == b * w - a * w;
  }

  /** What the pointers mean: the two lists in order, and the payload area of every node. */
  datatype Pool = Pool(msgSize: nat, queue: seq<Node>, free: seq<Node>, body: seq<seq<byte>>)

  /** Every node is in range, on at most one list, at most once; payload areas have the configured size. */
  ghost predicate PoolOk(p: Pool) {
    && (forall i :: 0 <= i < |p.queue| ==> p.queue[i] < |p.body|)
    && (forall i :: 0 <= i < |p.free| ==> p.free[i] < |p.body|)
    && NoDup(p.queue) && NoDup(p.free) && Disjoint(p.queue, p.free)
    && (forall n :: 0 <= n < |p.body| ==> |p.body[n]| == p.msgSize)
  }

  /** A node that a thread holds: it exists and is on neither list. */
  ghost predicate Held(p: Pool, n: int) {
    0 <= n < |p.body| && n !in p.queue && n !in p.free
  }

  function PopFree(p: Pool): Pool
    requires p.free != []
  {
    p.(free := p.free[1..])
  }

  function Append(p: Pool, n: Node): Pool {
    p.(queue := p.queue + [n])
  }

  function Prepend(p: Pool, n: Node): Pool {
    p.(queue := [n] + p.queue)
  }

  function PopQueue(p: Pool): Pool
    requires p.queue != []
  {
    p.(queue := p.queue[1..])
  }

  function PushFree(p: Pool, n: Node): Pool {
    p.(free := [n] + p.free)
  }

  function WriteByte(p: Pool, n: Node, k: nat, b: byte): Pool
    requires n < |p.body| && k < |p.body[n]|
  {
    var area: seq<byte> := p.body[n];
    p.(body := p.body[n := area[k := b]])
  }

  /** Reset moves the queued nodes to the free list one at a time, so the last queued node ends up first. */
  function Flush(p: Pool): Pool {
    p.(queue := [], free := Reverse(p.queue) + p.free)
  }

  lemma FlushOne(p: Pool)
    requires p.queue != []
    ensures Flush(PushFree(PopQueue(p), p.queue[0])) == Flush(p)
  {
    var rest, n := p.queue[1..], p.queue[0];
    assert Reverse(rest) + ([n] + p.free) == (Reverse(rest) + [n]) + p.free;
  }

  /** The list s is laid out in memory from the pointer first on. */
  ghost predicate Chained(next: seq<int>, first: int, s: seq<Node>) {
    && (forall i :: 0 <= i < |s| ==> s[i] < |next|)
    && first == (if s == [] then NULL else s[0])
    && (forall i :: 0 <= i < |s| - 1 ==> next[s[i]] == s[i + 1])
    && (s != [] ==> next[s[|s| - 1]] == NULL)
  }

  lemma ChainedFrame(next: seq<int>, next': seq<int>, first: int, s: seq<Node>)
    requires Chained(next, first, s) && |next'| == |next|
    requires forall i :: 0 <= i < |s| ==> next'[s[i]] == next[s[i]]
    ensures Chained(next', first, s)
  {
  }

  lemma ChainedPop(next: seq<int>, first: int, s: seq<Node>)
    requires Chained(next, first, s) && s != []
    ensures Chained(next, next[first], s[1..])
  {
    if |s| > 1 {
      assert s[1..][|s| - 2] == s[|s| - 1];
    }
  }

  lemma ChainedPush(next: seq<int>, first: int, s: seq<Node>, n: Node)
    requires Chained(next, first, s) && n < |next| && n !in s
    ensures Chained(next[n := first], n, [n] + s)
  {
    var t, next' := [n] + s, next[n := first];
    forall i | 0 <= i < |t| - 1
      ensures next'[t[i]] == t[i + 1]
    {
      if i > 0 {
        assert t[i] == s[i - 1];
      }
    }
    if s != [] {
      assert t[|t| - 1] == s[|s| - 1];
    }
  }

  lemma ChainedAppend(next: seq<int>, first: int, s: seq<Node>, n: Node)
    requires Chained(next, first, s) && NoDup(s) && n < |next| && n !in s && next[n] == NULL
    ensures Chained(if s == [] then next else next[s[|s| - 1] := n], if s == [] then n else first, s + [n])
  {
    if s != [] {
      var t, next' := s + [n], next[s[|s| - 1] := n];
      forall i | 0 <= i < |t| - 1
        ensures next'[t[i]] == t[i + 1]
      {
        if i < |s| - 1 {
          assert s[i] != s[|s| - 1];
        }
      }
    }
  }

  /** The fields of the object and the link words together represent the pool p. */
  ghost predicate Represents(p: Pool, head: int, tail: int, free: int, entry: nat, next: seq<int>) {
    && PoolOk(p) && |next| == |p.body|
    && Chained(next, head, p.queue)
    && Chained(next, free, p.free)
    && tail == (if p.queue == [] then NULL else p.queue[|p.queue| - 1])
    && entry == |p.queue|
  }

  lemma RepresentsAppend(p: Pool, head: int, tail: int, free: int, entry: nat, next: seq<int>, n: Node)
    requires Represents(p, head, tail, free, entry, next) && Held(p, n) && next[n] == NULL
    ensures Represents(Append(p, n), if head == NULL then n else head, n, free, entry + 1,
                       if tail == NULL then next else next[tail := n])
  {
    ChainedAppend(next, head, p.queue, n);
    if tail != NULL {
      ChainedFrame(next, next[tail := n], free, p.free);
    }
  }

  lemma RepresentsPrepend(p: Pool, head: int, tail: int, free: int, entry: nat, next: seq<int>, n: Node)
    requires Represents(p, head, tail, free, entry, next) && Held(p, n)
    ensures Represents(Prepend(p, n), n, if tail == NULL then n else tail, free, entry + 1, next[n := head])
  {
    ChainedPush(next, head, p.queue, n);
    ChainedFrame(next, next[n := head], free, p.free);
  }

  lemma RepresentsPop(p: Pool, head: int, tail: int, free: int, entry: nat, next: seq<int>)
    requires Represents(p, head, tail, free, entry, next) && p.queue != []
    ensures Represents(PopQueue(p), next[head], if tail == head then NULL else tail, free, entry - 1, next)
    ensures Held(PopQueue(p), head)
  {
    ChainedPop(next, head, p.queue);
    if |p.queue| > 1 {
      assert p.queue[0] != p.queue[|p.queue| - 1];
    }
  }

  lemma RepresentsTake(p: Pool, head: int, tail: int, free: int, entry: nat, next: seq<int>)
    requires Represents(p, head, tail, free, entry, next) && p.free != []
    ensures Represents(PopFree(p), head, tail, next[free], entry, next)
    ensures Held(PopFree(p), free)
  {
    ChainedPop(next, free, p.free);
  }

  lemma RepresentsGive(p: Pool, head: int, tail: int, free: int, entry: nat, next: seq<int>, n: Node)
    requires Represents(p, head, tail, free, entry, next) && Held(p, n)
    ensures Represents(PushFree(p, n), head, tail, n, entry, next[n := free])
  {
    ChainedPush(next, free, p.free, n);
    ChainedFrame(next, next[n := free], head, p.queue);
  }

  lemma RepresentsHeldLink(p: Pool, head: int, tail: int, free: int, entry: nat, next: seq<int>, n: Node, link: int)
    requires Represents(p, head, tail, free, entry, next) && Held(p, n)
    ensures Represents(p, head, tail, free, entry, next[n := link])
  {
    ChainedFrame(next, next[n := link], head, p.queue);
    ChainedFrame(next, next[n := link], free, p.free);
  }

  /** All nodes, the last one first. */
  function Descending(n: nat): seq<Node> {
    seq(n, i requires 0 <= i < n => n - 1 - i)
  }

  lemma ThreadNone(next: seq<int>)
    ensures Chained(next, NULL, Descending(0))
  {
  }

  /** One more node goes in front of the free list. */
  lemma ThreadOne(next: seq<int>, first: int, n: nat)
    requires Chained(next, first, Descending(n)) && n < |next|
    ensures Chained(next[n := first], n, Descending(n + 1)) && [n] + Descending(n) == Descending(n + 1)
  {
    assert [n] + Descending(n) == Descending(n + 1);
    ChainedPush(next, first, Descending(n), n);
  }

  lemma FreshRepresents(p: Pool, first: int, next: seq<int>)
    requires p.queue == [] && p.free == Descending(|next|) && Chained(next, first, p.free) && |p.body| == |next|
    requires forall n :: 0 <= n < |p.body| ==> |p.body[n]| == p.msgSize
    ensures Represents(p, NULL, NULL, first, 0, next)
  {
  }

  class MessageQueue {
    const msgSize: nat
    const maxMsgs: nat
    var head: int
    var tail: int
    var free: int
    var entry: nat
    const next: array<int>
    const body: array<seq<byte>>
    ghost var queued: seq<Node>
    ghost var spare: seq<Node>

    ghost function View(): Pool
      reads this, body
    {
      Pool(msgSize, queued, spare, body[..])
    }

    ghost predicate Valid()
      reads this, next, body
    {
      && next.Length == maxMsgs && body.Length == maxMsgs
      && Represents(View(), head, tail, free, entry, next[..])
    }

    /** rt_mq_init: the pool is threaded onto the free list, so the last node comes out first. */
    constructor (msgSize: nat, maxMsgs: nat)
      ensures Valid() && fresh(next) && fresh(body)
      ensures this.msgSize == msgSize && this.maxMsgs == maxMsgs
      ensures View() == Pool(msgSize, [], Descending(maxMsgs), seq(maxMsgs, _ => seq(msgSize, _ => 0)))
    {
      hide Chained, Descending, Represents;
      this.msgSize, this.maxMsgs := msgSize, maxMsgs;
      head, tail, free, entry := NULL, NULL, NULL, 0;
      next := new int[maxMsgs](_ => NULL);
      body := new seq<byte>[maxMsgs](_ => seq(msgSize, _ => 0));
      queued, spare := [], Descending(0);
      new;
      ThreadNone(next[..]);
      var temp := 0;
      while temp < maxMsgs
        invariant 0 <= temp <= maxMsgs && this.maxMsgs == maxMsgs == next.Length
        invariant spare == Descending(temp) && Chained(next[..], free, spare)
        invariant head == tail == NULL && queued == [] && entry == 0
        invariant forall n :: 0 <= n < body.Length ==> body[n] == seq(msgSize, _ => 0)
      {
        ghost var before := next[..];
        ThreadOne(before, free, temp);
        next[temp] := free;
        assert next[..] == before[temp := free];
        free := temp;
        spare := [temp] + spare;
        temp := temp + 1;
      }
      assert body[..] == seq(maxMsgs, _ => seq(msgSize, _ => 0));
      FreshRepresents(View(), free, next[..]);
    }

    /** First locked region of rt_mq_send_wait and rt_mq_urgent: pop the free list, NULL when it is empty. */
    method TakeFree() returns (msg: int)
      requires Valid()
      modifies this`free, this`spare
      ensures Valid()
      ensures msg == NULL <==> old(spare) == []
      ensures msg == NULL ==> View() == old(View())
      ensures msg != NULL ==> msg == old(spare)[0] && View() == PopFree(old(View())) && Held(View(), msg)
    {
      msg := free;
      if msg == NULL {
        return;
      }
      RepresentsTake(View(), head, tail, free, entry, next[..]);
      free := next[msg];
      spare := spare[1..];
    }

    /** rt_mq_send_wait, unlocked: the held node becomes a list end. */
    method ClearLink(msg: Node)
      requires Valid() && Held(View(), msg)
      modifies next
      ensures Valid() && View() == old(View())
      ensures next[msg] == NULL && forall n :: Held(View(), n) && n != msg ==> next[n] == old(next[n])
    {
      RepresentsHeldLink(View(), head, tail, free, entry, next[..], msg, NULL);
      ghost var before := next[..];
      next[msg] := NULL;
      assert next[..] == before[msg := NULL];
    }

    /** One iteration of rt_memcpy into the held node, unlocked. */
    method StoreByte(msg: Node, k: nat, b: byte)
      requires Valid() && Held(View(), msg) && k < msgSize
      modifies body
      ensures Valid() && View() == WriteByte(old(View()), msg, k, b)
    {
      ghost var before := body[..];
      var area: seq<byte> := body[msg];
      body[msg] := area[k := b];
      assert body[..] == before[msg := area[k := b]];
    }

    /** Second locked region of rt_mq_send_wait: link the held node at the end. */
    method LinkTail(msg: Node)
      requires Valid() && Held(View(), msg) && next[msg] == NULL
      modifies this`head, this`tail, this`entry, this`queued, next
      ensures Valid() && View() == Append(old(View()), msg)
      ensures forall n :: Held(View(), n) ==> next[n] == old(next[n])
    {
      RepresentsAppend(View(), head, tail, free, entry, next[..], msg);
      ghost var before := next[..];
      if tail != NULL {
        next[tail] := msg;
        assert next[..] == before[tail := msg];
      }
      tail := msg;
      if head == NULL {
        head := msg;
      }
      entry := entry + 1;
      queued := queued + [msg];
    }

    /** Second locked region of rt_mq_urgent: link the held node at the front. */
    method LinkHead(msg: Node)
      requires Valid() && Held(View(), msg)
      modifies this`head, this`tail, this`entry, this`queued, next
      ensures Valid() && View() == Prepend(old(View()), msg)
      ensures forall n :: Held(View(), n) ==> next[n] == old(next[n])
    {
      RepresentsPrepend(View(), head, tail, free, entry, next[..], msg);
      ghost var before := next[..];
      next[msg] := head;
      assert next[..] == before[msg := head];
      head := msg;
      if tail == NULL {
        tail := msg;
      }
      entry := entry + 1;
      queued := [msg] + queued;
    }

    /** First locked region of rt_mq_recv, once a message is there: unlink the first node. */
    method Unlink() returns (msg: int)
      requires Valid() && entry > 0
      modifies this`head, this`tail, this`entry, this`queued
      ensures Valid() && msg == old(queued)[0]
      ensures View() == PopQueue(old(View())) && Held(View(), msg)
    {
      msg := head;
      RepresentsPop(View(), head, tail, free, entry, next[..]);
      head := next[msg];
      if tail == msg {
        tail := NULL;
      }
      entry := entry - 1;
      queued := queued[1..];
    }

    /** Second locked region of rt_mq_recv: give the held node back. */
    method GiveBack(msg: Node)
      requires Valid() && Held(View(), msg)
      modifies this`free, this`spare, next
      ensures Valid() && View() == PushFree(old(View()), msg)
      ensures forall n :: Held(View(), n) ==> next[n] == old(next[n])
    {
      RepresentsGive(View(), head, tail, free, entry, next[..], msg);
      ghost var before := next[..];
      next[msg] := free;
      assert next[..] == before[msg := free];
      free := msg;
      spare := [msg] + spare;
    }

    /** rt_mq_control(RT_IPC_CMD_RESET): every queued node goes to the free list. */
    method Reset()
      requires Valid()
      modifies this`head, this`tail, this`free, this`entry, this`queued, this`spare, next
      ensures Valid() && View() == Flush(old(View()))
      ensures forall n :: Held(View(), n) ==> next[n] == old(next[n])
    {
      hide PoolOk;
      while head != NULL
        invariant Valid()
        invariant Flush(View()) == Flush(old(View()))
        invariant forall n :: Held(View(), n) ==> next[n] == old(next[n])
        decreases |queued|
      {
        ghost var p := View();
        var msg := Unlink();
        GiveBack(msg);
        FlushOne(p);
      }
      assert Flush(View()) == View();
      entry := 0;
    }
  }
}
