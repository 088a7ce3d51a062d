/**
 * All interleavings of rt_mq_send_wait, rt_mq_urgent, rt_mq_recv and rt_mq_control(RESET) on one message queue.
 *
 * A step is one region between rt_hw_interrupt_disable and rt_hw_interrupt_enable, or the clearing of a held node's
 * link word or one byte of an rt_memcpy (both run with interrupts enabled, so any other step may come in between), or an
 * expiring thread timer.  MessageReplay runs the pointers of MessagePool.MessageQueue along every run.
 */
module MessageProtocol {
  import opened Prelude
  import opened WaitList
  import opened MessagePool

  /** What a thread that owns a node is doing with it; ready: its link word is as the linking region expects it. */
  datatype Hold =
    | Sending(node: Node, msg: Msg, copied: nat, urgent: bool, ready: bool)
    | Receiving(node: Node, size: nat, out: seq<byte>)

  /** recv: receivers wait for messages; send: senders wait for free nodes. */
  datatype State = State(pool: Pool, recv: Wait, send: Wait, holds: map<Tid, Hold>)

  datatype Step =
    | SendTake(t: Tid, msg: Msg, urgent: bool)
    | SendSleep(t: Tid, at: nat)
    | SendQuit(t: Tid)
    | SendClear(t: Tid)
    | SendByte(t: Tid)
    | SendLink(t: Tid)
    | RecvTake(t: Tid, size: nat)
    | RecvSleep(t: Tid, at: nat)
    | RecvQuit(t: Tid)
    | RecvByte(t: Tid)
    | RecvReturn(t: Tid)
    | SendExpire(i: nat)
    | RecvExpire(i: nat)
    | Reset

  function Init(msgSize: nat, maxMsgs: nat): State {
    State(Pool(msgSize, [], Descending(maxMsgs), seq(maxMsgs, _ => seq(msgSize, _ => 0))),
          Wait(0, [], {}), Wait(maxMsgs, [], {}), map[])
  }

  /** A thread about to send: it has just called, or it was woken from the senders' list. */
  predicate MaySend(s: State, t: Tid) {
    t !in s.holds && t !in s.send.asleep && t !in s.recv.asleep && t !in s.recv.woken
  }

  predicate MayReceive(s: State, t: Tid) {
    t !in s.holds && t !in s.send.asleep && t !in s.recv.asleep && t !in s.send.woken
  }

  function CopySize(p: Pool, size: nat): nat {
    if size > p.msgSize then p.msgSize else size
  }

  predicate Enabled(s: State, e: Step) {
    match e
    case SendTake(t, msg, urgent) =>
      && MaySend(s, t) && 0 < |msg| <= s.pool.msgSize && s.pool.free != [] && s.send.tokens > 0
      && (urgent ==> t !in s.send.woken)
    case SendSleep(t, at) => MaySend(s, t) && s.pool.free == [] && at <= |s.send.asleep|
    case SendQuit(t) => t in s.send.woken && s.pool.free == []
    case SendClear(t) => t in s.holds && s.holds[t].Sending? && !s.holds[t].ready
    case SendByte(t) =>
      && t in s.holds && s.holds[t].Sending? && s.holds[t].ready && s.holds[t].copied < |s.holds[t].msg|
      && s.holds[t].node < |s.pool.body| && s.holds[t].copied < |s.pool.body[s.holds[t].node]|
    case SendLink(t) => t in s.holds && s.holds[t].Sending? && s.holds[t].ready && s.holds[t].copied == |s.holds[t].msg|
    case RecvTake(t, size) => MayReceive(s, t) && size > 0 && s.pool.queue != [] && s.recv.tokens > 0
    case RecvSleep(t, at) => MayReceive(s, t) && s.recv.tokens == 0 && at <= |s.recv.asleep|
    case RecvQuit(t) => t in s.recv.woken && s.recv.tokens == 0
    case RecvByte(t) =>
      && t in s.holds && s.holds[t].Receiving? && |s.holds[t].out| < CopySize(s.pool, s.holds[t].size)
      && s.holds[t].node < |s.pool.body| && |s.holds[t].out| < |s.pool.body[s.holds[t].node]|
    case RecvReturn(t) =>
      && t in s.holds && s.holds[t].Receiving? && |s.holds[t].out| == CopySize(s.pool, s.holds[t].size)
    case SendExpire(i) => i < |s.send.asleep|
    case RecvExpire(i) => i < |s.recv.asleep|
    case Reset => true
  }

  function Next(s: State, e: Step): State
    requires Enabled(s, e)
  {
    match e
    case SendTake(t, msg, urgent) =>
      s.(pool := PopFree(s.pool), send := s.send.Grab(t),
         holds := s.holds[t := Sending(s.pool.free[0], msg, 0, urgent, urgent)])
    case SendSleep(t, at) => s.(send := s.send.Sleep(t, at))
    case SendQuit(t) => s.(send := s.send.Quit(t))
    case SendClear(t) => s.(holds := s.holds[t := s.holds[t].(ready := true)])
    case SendByte(t) =>
      var h := s.holds[t];
      s.(pool := WriteByte(s.pool, h.node, h.copied, h.msg[h.copied]), holds := s.holds[t := h.(copied := h.copied + 1)])
    case SendLink(t) =>
      var h := s.holds[t];
      s.(pool := if h.urgent then Prepend(s.pool, h.node) else Append(s.pool, h.node),
         recv := s.recv.Post(), holds := s.holds - {t})
    case RecvTake(t, size) =>
      s.(pool := PopQueue(s.pool), recv := s.recv.Grab(t), holds := s.holds[t := Receiving(s.pool.queue[0], size, [])])
    case RecvSleep(t, at) => s.(recv := s.recv.Sleep(t, at))
    case RecvQuit(t) => s.(recv := s.recv.Quit(t))
    case RecvByte(t) =>
      var h := s.holds[t];
      var area: seq<byte> := s.pool.body[h.node];
      s.(holds := s.holds[t := h.(out := h.out + [area[|h.out|]])])
    case RecvReturn(t) =>
      s.(pool := PushFree(s.pool, s.holds[t].node), send := s.send.Post(), holds := s.holds - {t})
    case SendExpire(i) => s.(send := s.send.Expire(i))
    case RecvExpire(i) => s.(recv := s.recv.Expire(i))
    case Reset =>
      s.(pool := Flush(s.pool), recv := s.recv.WakeAll(0), send := s.send.WakeAll(|s.pool.queue| + |s.pool.free|))
  }

  /** A node is in the hands of some thread. */
  ghost predicate InHands(holds: map<Tid, Hold>, n: Node) {
    exists t :: t in holds && holds[t].node == n
  }

  /** No node is in two hands, nor in a hand and on a list. */
  ghost predicate HandsApart(p: Pool, holds: map<Tid, Hold>) {
    && (forall t :: t in holds ==> Held(p, holds[t].node))
    && (forall t, u :: t in holds && u in holds && t != u ==> holds[t].node != holds[u].node)
  }

  /** No node is lost. */
  ghost predicate AllPlaced(p: Pool, holds: map<Tid, Hold>) {
    forall n :: 0 <= n < |p.body| ==> n in p.queue || n in p.free || InHands(holds, n)
  }

  /**
   * Node conservation: no node is in two places (free list, queue, one thread's hands), every node is in one, and the
   * numbers add up to the size of the pool.
   */
  ghost predicate Nodes(s: State) {
    && PoolOk(s.pool) && HandsApart(s.pool, s.holds) && AllPlaced(s.pool, s.holds)
    && |s.pool.queue| + |s.pool.free| + |s.holds| == |s.pool.body|
  }

  /** The waiting side: counters agree with the lists, nobody sleeps in vain, a thread is in one place only. */
  ghost predicate Waiting(s: State) {
    && s.recv.Good() && s.recv.tokens == |s.pool.queue|
    && s.send.Good() && s.send.tokens == |s.pool.free|
    && s.recv.Parked() !! s.send.Parked() !! s.holds.Keys
  }

  ghost predicate HoldOk(p: Pool, h: Hold) {
    && h.node < |p.body|
    && match h
       case Sending(n, msg, copied, _, _) => copied <= |msg| <= |p.body[n]| && p.body[n][..copied] == msg[..copied]
       case Receiving(n, size, out) => |out| <= CopySize(p, size) <= |p.body[n]| && p.body[n][..|out|] == out
  }

  /** The copying side: what has been copied so far is right in spite of all that happened in between. */
  ghost predicate Copies(s: State) {
    forall t :: t in s.holds ==> HoldOk(s.pool, s.holds[t])
  }

  ghost predicate Inv(s: State) {
    Nodes(s) && Waiting(s) && Copies(s)
  }

  lemma InitInv(msgSize: nat, maxMsgs: nat)
    ensures Inv(Init(msgSize, maxMsgs))
  {
    var p := Init(msgSize, maxMsgs).pool;
    forall n | 0 <= n < maxMsgs
      ensures n in p.free
    {
      assert p.free[maxMsgs - 1 - n] == n;
    }
  }

  /** p' is p with the node n, first on one of the lists, taken off that list. */
  ghost predicate TakenOff(p: Pool, p': Pool, n: Node) {
    || (p.free != [] && n == p.free[0] && p' == PopFree(p))
    || (p.queue != [] && n == p.queue[0] && p' == PopQueue(p))
  }

  /** p' is p with the node n added at an end of one of the lists. */
  ghost predicate PutOn(p: Pool, p': Pool, n: Node) {
    p' == Append(p, n) || p' == Prepend(p, n) || p' == PushFree(p, n)
  }

  lemma TakenOffMembers(p: Pool, p': Pool, n: Node)
    requires PoolOk(p) && TakenOff(p, p', n)
    ensures PoolOk(p') && Held(p', n)
    ensures forall m :: m != n ==> (m in p'.queue <==> m in p.queue) && (m in p'.free <==> m in p.free)
  {
    if p.free != [] && n == p.free[0] && p' == PopFree(p) {
      assert p.free == [n] + p'.free;
    } else {
      assert p.queue == [n] + p'.queue;
    }
  }

  lemma PutOnMembers(p: Pool, p': Pool, n: Node)
    requires PoolOk(p) && Held(p, n) && PutOn(p, p', n)
    ensures PoolOk(p') && !Held(p', n)
    ensures forall m :: m != n ==> (m in p'.queue <==> m in p.queue) && (m in p'.free <==> m in p.free)
  {
    if p' == Append(p, n) {
      assert p'.queue[|p.queue|] == n;
    } else if p' == Prepend(p, n) {
      assert p'.queue[0] == n;
    } else {
      assert p'.free[0] == n;
    }
  }

  lemma PlacedKept(p: Pool, holds: map<Tid, Hold>, p': Pool, holds': map<Tid, Hold>)
    requires AllPlaced(p, holds) && |p'.body| == |p.body|
    requires forall m :: m in p.queue || m in p.free ==> m in p'.queue || m in p'.free || InHands(holds', m)
    requires forall t :: t in holds ==>
               (t in holds' && holds'[t].node == holds[t].node) || holds[t].node in p'.queue || holds[t].node in p'.free
    ensures AllPlaced(p', holds')
  {
    forall m | 0 <= m < |p.body|
      ensures m in p'.queue || m in p'.free || InHands(holds', m)
    {
      if m !in p.queue && m !in p.free {
        var u :| u in holds && holds[u].node == m;
      }
    }
  }

  lemma HandsTake(p: Pool, holds: map<Tid, Hold>, t: Tid, h: Hold, p': Pool)
    requires PoolOk(p) && HandsApart(p, holds) && t !in holds && TakenOff(p, p', h.node)
    ensures HandsApart(p', holds[t := h])
  {
    TakenOffMembers(p, p', h.node);
    var holds' := holds[t := h];
    forall u | u in holds
      ensures Held(p', holds'[u].node) && holds'[u].node != h.node
    {
      assert Held(p, holds[u].node);
    }
  }

  lemma HandsPut(p: Pool, holds: map<Tid, Hold>, t: Tid, p': Pool)
    requires PoolOk(p) && HandsApart(p, holds) && t in holds && PutOn(p, p', holds[t].node)
    ensures HandsApart(p', holds - {t})
  {
    PutOnMembers(p, p', holds[t].node);
    forall u | u in holds - {t}
      ensures Held(p', holds[u].node)
    {
      assert Held(p, holds[u].node);
    }
  }

  lemma NodesTake(s: State, t: Tid, h: Hold, p': Pool)
    requires Nodes(s) && t !in s.holds && TakenOff(s.pool, p', h.node)
    ensures Nodes(s.(pool := p', holds := s.holds[t := h]))
  {
    var holds' := s.holds[t := h];
    HandsTake(s.pool, s.holds, t, h, p');
    TakenOffMembers(s.pool, p', h.node);
    assert holds'[t].node == h.node;
    PlacedKept(s.pool, s.holds, p', holds');
  }

  lemma NodesPut(s: State, t: Tid, p': Pool)
    requires Nodes(s) && t in s.holds && PutOn(s.pool, p', s.holds[t].node)
    ensures Nodes(s.(pool := p', holds := s.holds - {t}))
  {
    var holds' := s.holds - {t};
    HandsPut(s.pool, s.holds, t, p');
    assert Held(s.pool, s.holds[t].node);
    PutOnMembers(s.pool, p', s.holds[t].node);
    PlacedKept(s.pool, s.holds, p', holds');
    assert holds'.Keys == s.holds.Keys - {t};
    assert |holds'| == |holds'.Keys| && |s.holds| == |s.holds.Keys|;
  }

  /** The lists stay, and every thread keeps its node. */
  lemma NodesSame(s: State, s': State)
    requires Nodes(s)
    requires s'.pool.queue == s.pool.queue && s'.pool.free == s.pool.free && s'.pool.msgSize == s.pool.msgSize
    requires |s'.pool.body| == |s.pool.body| && forall n :: 0 <= n < |s.pool.body| ==> |s'.pool.body[n]| == s.pool.msgSize
    requires s'.holds.Keys == s.holds.Keys && forall t :: t in s.holds ==> s'.holds[t].node == s.holds[t].node
    ensures Nodes(s')
  {
    PlacedKept(s.pool, s.holds, s'.pool, s'.holds);
    assert |s'.holds| == |s'.holds.Keys| && |s.holds| == |s.holds.Keys|;
  }

  lemma FlushMembers(p: Pool, n: Node)
    ensures n in Flush(p).free <==> n in p.queue || n in p.free
  {
    ReverseMembers(p.queue, n);
  }

  lemma FlushOk(p: Pool)
    requires PoolOk(p)
    ensures PoolOk(Flush(p))
  {
    var r, f := Reverse(p.queue), Flush(p).free;
    ReverseNoDup(p.queue);
    forall i | 0 <= i < |f|
      ensures f[i] < |p.body|
    {
      FlushMembers(p, f[i]);
    }
    forall i, j | 0 <= i < |r| && 0 <= j < |p.free|
      ensures r[i] != p.free[j]
    {
      ReverseMembers(p.queue, r[i]);
    }
  }

  lemma NodesFlush(s: State)
    requires Nodes(s)
    ensures Nodes(s.(pool := Flush(s.pool)))
  {
    FlushOk(s.pool);
    forall n: Node
      ensures n in Flush(s.pool).free <==> n in s.pool.queue || n in s.pool.free
    {
      FlushMembers(s.pool, n);
    }
    PlacedKept(s.pool, s.holds, Flush(s.pool), s.holds);
  }

  lemma NodesSendTake(s: State, t: Tid, msg: Msg, urgent: bool)
    requires Nodes(s) && Enabled(s, SendTake(t, msg, urgent))
    ensures Nodes(Next(s, SendTake(t, msg, urgent)))
  {
    NodesTake(s, t, Sending(s.pool.free[0], msg, 0, urgent, urgent), Next(s, SendTake(t, msg, urgent)).pool);
  }

  lemma NodesRecvTake(s: State, t: Tid, size: nat)
    requires Nodes(s) && Enabled(s, RecvTake(t, size))
    ensures Nodes(Next(s, RecvTake(t, size)))
  {
    NodesTake(s, t, Receiving(s.pool.queue[0], size, []), Next(s, RecvTake(t, size)).pool);
  }

  lemma NodesSendLink(s: State, t: Tid)
    requires Nodes(s) && Enabled(s, SendLink(t))
    ensures Nodes(Next(s, SendLink(t)))
  {
    NodesPut(s, t, Next(s, SendLink(t)).pool);
  }

  lemma NodesRecvReturn(s: State, t: Tid)
    requires Nodes(s) && Enabled(s, RecvReturn(t))
    ensures Nodes(Next(s, RecvReturn(t)))
  {
    NodesPut(s, t, Next(s, RecvReturn(t)).pool);
  }

  /** No node moves when a byte is copied or a link word cleared. */
  lemma NodesCopy(s: State, e: Step)
    requires Nodes(s) && Enabled(s, e) && (e.SendClear? || e.SendByte? || e.RecvByte?)
    ensures Nodes(Next(s, e))
  {
    NodesSame(s, Next(s, e));
  }

  /** Every step of every thread keeps each node in one place. */
  lemma NodesStep(s: State, e: Step)
    requires Nodes(s) && Enabled(s, e)
    ensures Nodes(Next(s, e))
  {
    hide Nodes;
    match e {
      case SendTake(t, msg, urgent) => NodesSendTake(s, t, msg, urgent);
      case RecvTake(t, size) => NodesRecvTake(s, t, size);
      case SendLink(t) => NodesSendLink(s, t);
      case RecvReturn(t) => NodesRecvReturn(s, t);
      case SendClear(t) => NodesCopy(s, e);
      case SendByte(t) => NodesCopy(s, e);
      case RecvByte(t) => NodesCopy(s, e);
      case Reset => NodesReset(s);
      case _ => NodesIdle(s, e);
    }
  }

  lemma NodesReset(s: State)
    requires Nodes(s)
    ensures Nodes(Next(s, Reset))
  {
    NodesFlush(s);
  }

  lemma NodesIdle(s: State, e: Step)
    requires Nodes(s) && Enabled(s, e) && (e.SendSleep? || e.SendQuit? || e.RecvSleep? || e.RecvQuit? || e.SendExpire? || e.RecvExpire?)
    ensures Nodes(Next(s, e))
  {
  }

  lemma SenderWaitStep(s: State, e: Step)
    requires Waiting(s) && Enabled(s, e)
    requires e.SendTake? || e.SendSleep? || e.SendQuit? || e.SendExpire? || e.SendClear? || e.SendByte?
    ensures Waiting(Next(s, e))
  {
    hide Wait.Good, Inserted;
    match e {
      case SendTake(t, _, _) => GrabKeeps(s.send, t);
      case SendSleep(t, at) => SleepKeeps(s.send, t, at);
      case SendQuit(t) => QuitKeeps(s.send, t);
      case SendExpire(i) => ExpireKeeps(s.send, i);
      case _ =>
    }
  }

  lemma TakeWaitStep(s: State, t: Tid, size: nat)
    requires Waiting(s) && Enabled(s, RecvTake(t, size))
    ensures Waiting(Next(s, RecvTake(t, size)))
  {
    GrabKeeps(s.recv, t);
  }

  lemma SleepWaitStep(s: State, t: Tid, at: nat)
    requires Waiting(s) && Enabled(s, RecvSleep(t, at))
    ensures Waiting(Next(s, RecvSleep(t, at)))
  {
    SleepKeeps(s.recv, t, at);
  }

  lemma ReceiverWaitStep(s: State, e: Step)
    requires Waiting(s) && Enabled(s, e)
    requires e.RecvTake? || e.RecvSleep? || e.RecvQuit? || e.RecvExpire? || e.RecvByte?
    ensures Waiting(Next(s, e))
  {
    match e {
      case RecvTake(t, size) => TakeWaitStep(s, t, size);
      case RecvSleep(t, at) => SleepWaitStep(s, t, at);
      case RecvQuit(t) => QuitKeeps(s.recv, t);
      case RecvExpire(i) => ExpireKeeps(s.recv, i);
      case _ =>
    }
  }

  lemma LinkWaitStep(s: State, t: Tid)
    requires Waiting(s) && Enabled(s, SendLink(t))
    ensures Waiting(Next(s, SendLink(t)))
  {
    PostKeeps(s.recv);
    assert (s.holds - {t}).Keys <= s.holds.Keys;
  }

  lemma ReturnWaitStep(s: State, t: Tid)
    requires Waiting(s) && Enabled(s, RecvReturn(t))
    ensures Waiting(Next(s, RecvReturn(t)))
  {
    PostKeeps(s.send);
    assert (s.holds - {t}).Keys <= s.holds.Keys;
  }

  lemma ResetWaitStep(s: State)
    requires Waiting(s)
    ensures Waiting(Next(s, Reset))
  {
    WakeAllKeeps(s.recv, 0);
    WakeAllKeeps(s.send, |s.pool.queue| + |s.pool.free|);
  }

  /** Every step of every thread keeps the counters right and loses no wakeup. */
  lemma WaitingStep(s: State, e: Step)
    requires Waiting(s) && Enabled(s, e)
    ensures Waiting(Next(s, e))
  {
    match e {
      case SendLink(t) => LinkWaitStep(s, t);
      case RecvReturn(t) => ReturnWaitStep(s, t);
      case Reset => ResetWaitStep(s);
      case _ =>
        if e.RecvTake? || e.RecvSleep? || e.RecvQuit? || e.RecvExpire? || e.RecvByte? {
          ReceiverWaitStep(s, e);
        } else {
          SenderWaitStep(s, e);
        }
    }
  }

  // ----- where each thread is

  /** What a step does to the receivers. */
  function RecvMove(s: State, e: Step): Move
    requires Enabled(s, e)
  {
    match e
    case SendLink(_) => FirstWakes
    case RecvTake(t, _) => Goes(t)
    case RecvSleep(t, _) => FallsAsleep(t)
    case RecvQuit(t) => Goes(t)
    case RecvExpire(i) => Goes(s.recv.asleep[i])
    case Reset => SleepersGo
    case _ => Nothing
  }

  function SendMove(s: State, e: Step): Move
    requires Enabled(s, e)
  {
    match e
    case RecvReturn(_) => FirstWakes
    case SendTake(t, _, _) => Goes(t)
    case SendSleep(t, _) => FallsAsleep(t)
    case SendQuit(t) => Goes(t)
    case SendExpire(i) => Goes(s.send.asleep[i])
    case Reset => SleepersGo
    case _ => Nothing
  }

  lemma RecvMoves(s: State, e: Step)
    requires Waiting(s) && Enabled(s, e)
    ensures Moved(s.recv, RecvMove(s, e), Next(s, e).recv)
  {
    hide Moved, NoDup;
    match e
    case SendLink(_) => PostMoves(s.recv);
    case RecvTake(t, _) => GrabMoves(s.recv, t);
    case RecvSleep(t, at) => SleepMoves(s.recv, t, at);
    case RecvQuit(t) => WokenAwake(s.recv, t); QuitMoves(s.recv, t);
    case RecvExpire(i) => ExpireMoves(s.recv, i);
    case Reset => WakeAllMoves(s.recv, 0);
    case _ => Unmoved(s.recv, Next(s, e).recv);
  }

  lemma SendMoves(s: State, e: Step)
    requires Waiting(s) && Enabled(s, e)
    ensures Moved(s.send, SendMove(s, e), Next(s, e).send)
  {
    hide Moved, NoDup;
    match e
    case RecvReturn(_) => PostMoves(s.send);
    case SendTake(t, _, _) => GrabMoves(s.send, t);
    case SendSleep(t, at) => SleepMoves(s.send, t, at);
    case SendQuit(t) => WokenAwake(s.send, t); QuitMoves(s.send, t);
    case SendExpire(i) => ExpireMoves(s.send, i);
    case Reset => WakeAllMoves(s.send, |s.pool.queue| + |s.pool.free|);
    case _ => Unmoved(s.send, Next(s, e).send);
  }

  lemma SendByteCopies(s: State, t: Tid)
    requires HandsApart(s.pool, s.holds) && Copies(s) && Enabled(s, SendByte(t))
    ensures Copies(Next(s, SendByte(t)))
  {
    var s' := Next(s, SendByte(t));
    forall u | u in s'.holds
      ensures HoldOk(s'.pool, s'.holds[u])
    {
      var h := s.holds[u];
      assert HoldOk(s.pool, h);
      if u == t {
        var area, area': seq<byte> := s.pool.body[h.node], s'.pool.body[h.node];
        assert area'[..h.copied + 1] == area[..h.copied] + [h.msg[h.copied]];
        assert h.msg[..h.copied + 1] == h.msg[..h.copied] + [h.msg[h.copied]];
      }
    }
  }

  lemma RecvByteCopies(s: State, t: Tid)
    requires Copies(s) && Enabled(s, RecvByte(t))
    ensures Copies(Next(s, RecvByte(t)))
  {
    var h := s.holds[t];
    assert HoldOk(s.pool, h);
    var area: seq<byte> := s.pool.body[h.node];
    assert area[..|h.out| + 1] == area[..|h.out|] + [area[|h.out|]];
  }

  lemma TakeCopies(s: State, e: Step)
    requires PoolOk(s.pool) && Copies(s) && Enabled(s, e) && (e.SendTake? || e.RecvTake?)
    ensures Copies(Next(s, e))
  {
  }

  /** No step of a thread disturbs what another one has copied so far. */
  lemma CopiesStep(s: State, e: Step)
    requires PoolOk(s.pool) && HandsApart(s.pool, s.holds) && Copies(s) && Enabled(s, e)
    ensures Copies(Next(s, e))
  {
    match e {
      case SendByte(t) => SendByteCopies(s, t);
      case RecvByte(t) => RecvByteCopies(s, t);
      case SendTake(_, _, _) => TakeCopies(s, e);
      case RecvTake(_, _) => TakeCopies(s, e);
      case _ =>
        var s' := Next(s, e);
        forall u | u in s'.holds
          ensures HoldOk(s'.pool, s'.holds[u])
        {
          assert HoldOk(s.pool, s.holds[u]);
        }
    }
  }

  // ----- runs

  /** The steps es can be taken one after the other from s. */
  predicate Legal(s: State, es: seq<Step>)
    decreases |es|
  {
    es == [] || (Enabled(s, es[0]) && Legal(Next(s, es[0]), es[1..]))
  }

  function Run(s: State, es: seq<Step>): State
    requires Legal(s, es)
    decreases |es|
  {
    if es == [] then s else Run(Next(s, es[0]), es[1..])
  }

  /** All three parts of the invariant hold after every run: each step of each thread keeps them. */
  lemma {:induction false} RunInv(s: State, es: seq<Step>)
    requires Inv(s) && Legal(s, es)
    ensures Inv(Run(s, es))
    decreases |es|
  {
    if es != [] {
      NodesStep(s, es[0]);
      WaitingStep(s, es[0]);
      CopiesStep(s, es[0]);
      RunInv(Next(s, es[0]), es[1..]);
    }
  }

  lemma {:induction false} RunLast(s: State, es: seq<Step>, e: Step)
    requires Legal(s, es + [e])
    ensures Legal(s, es) && Enabled(Run(s, es), e) && Run(s, es + [e]) == Next(Run(s, es), e)
    decreases |es|
  {
    if es == [] {
      assert es + [e] == [e];
    } else {
      assert (es + [e])[1..] == es[1..] + [e];
      RunLast(Next(s, es[0]), es[1..], e);
    }
  }

  /**
   * Along any run each step moves the threads that it should, and no other: a message or a free node resumes the first
   * sleeper, a thread that takes, gives up or is timed out is gone, and a reset sends all sleepers away.
   */
  lemma ThreadsMove(msgSize: nat, maxMsgs: nat, es: seq<Step>, e: Step)
    requires Legal(Init(msgSize, maxMsgs), es + [e])
    ensures Legal(Init(msgSize, maxMsgs), es)
    ensures var s, s' := Run(Init(msgSize, maxMsgs), es), Run(Init(msgSize, maxMsgs), es + [e]);
            Enabled(s, e) && Moved(s.recv, RecvMove(s, e), s'.recv) && Moved(s.send, SendMove(s, e), s'.send)
  {
    RunLast(Init(msgSize, maxMsgs), es, e);
    InitInv(msgSize, maxMsgs);
    RunInv(Init(msgSize, maxMsgs), es);
    RecvMoves(Run(Init(msgSize, maxMsgs), es), e);
    SendMoves(Run(Init(msgSize, maxMsgs), es), e);
  }

  /** A thread that is not inside a call on this queue. */
  predicate Outside(s: State, t: Tid) {
    At(s.recv, t) == At(s.send, t) == Away && t !in s.holds
  }

  /** After a reset nobody sleeps. */
  lemma NobodySleepsAfterReset(msgSize: nat, maxMsgs: nat, es: seq<Step>)
    requires Legal(Init(msgSize, maxMsgs), es + [Reset])
    ensures var s := Run(Init(msgSize, maxMsgs), es + [Reset]); s.recv.asleep == s.send.asleep == []
  {
    var s := Run(Init(msgSize, maxMsgs), es + [Reset]);
    ThreadsMove(msgSize, maxMsgs, es, Reset);
    assert s.recv.asleep != [] ==> !At(s.recv, s.recv.asleep[0]).Asleep?;
    assert s.send.asleep != [] ==> !At(s.send, s.send.asleep[0]).Asleep?;
  }

  /** Who returned with an error may call again. */
  lemma ReturnedIsOutside(msgSize: nat, maxMsgs: nat, es: seq<Step>, e: Step, t: Tid)
    requires Legal(Init(msgSize, maxMsgs), es + [e]) && Legal(Init(msgSize, maxMsgs), es)
    requires GivesUp(Run(Init(msgSize, maxMsgs), es), e, t)
    ensures var s' := Run(Init(msgSize, maxMsgs), es + [e]); Outside(s', t) && MaySend(s', t) && MayReceive(s', t)
  {
    hide Inv, Next, Enabled, Outside, MaySend, MayReceive;
    RunLast(Init(msgSize, maxMsgs), es, e);
    InitInv(msgSize, maxMsgs);
    RunInv(Init(msgSize, maxMsgs), es);
    Returned(Run(Init(msgSize, maxMsgs), es), e, t);
  }

  /** Thread t, asleep or resumed, returns with an error in step e. */
  ghost predicate GivesUp(s: State, e: Step, t: Tid) {
    || e == SendQuit(t) || e == RecvQuit(t)
    || (e.SendExpire? && e.i < |s.send.asleep| && t == s.send.asleep[e.i])
    || (e.RecvExpire? && e.i < |s.recv.asleep| && t == s.recv.asleep[e.i])
  }

  lemma Returned(s: State, e: Step, t: Tid)
    requires Inv(s) && Enabled(s, e) && GivesUp(s, e, t)
    ensures Outside(Next(s, e), t) && MaySend(Next(s, e), t) && MayReceive(Next(s, e), t)
  {
    hide Nodes, Copies, Wait.Good, SameOrder;
    var s' := Next(s, e);
    RecvMoves(s, e);
    SendMoves(s, e);
    assert t in (if e.SendQuit? || e.SendExpire? then s.send.Parked() else s.recv.Parked());
    assert At(s'.recv, t) == Away && At(s'.send, t) == Away;
  }

  /**
   * In every reachable state a thread that runs can go on: one that may call, or was resumed, takes a message, or a free
   * node, if and only if there is one and goes to sleep if and only if there is none; and one with a node finishes with it.
   */
  lemma NobodyStuck(msgSize: nat, maxMsgs: nat, es: seq<Step>, t: Tid, size: nat, msg: Msg)
    requires Legal(Init(msgSize, maxMsgs), es) && size > 0 && 0 < |msg| <= msgSize
    ensures var s := Run(Init(msgSize, maxMsgs), es);
            && (MayReceive(s, t) ==> (Enabled(s, RecvTake(t, size)) <==> s.pool.queue != [])
                                     && (Enabled(s, RecvSleep(t, 0)) <==> s.pool.queue == []))
            && (MaySend(s, t) ==> (Enabled(s, SendTake(t, msg, false)) <==> s.pool.free != [])
                                  && (Enabled(s, SendSleep(t, 0)) <==> s.pool.free == []))
            && (At(s.recv, t).OnItsWay? ==> MayReceive(s, t)) && (At(s.send, t).OnItsWay? ==> MaySend(s, t))
            && (t in s.holds ==> || Enabled(s, SendClear(t)) || Enabled(s, SendByte(t)) || Enabled(s, SendLink(t))
                                 || Enabled(s, RecvByte(t)) || Enabled(s, RecvReturn(t)))
  {
    hide Inv, Enabled, MaySend, MayReceive, Next;
    var s := Run(Init(msgSize, maxMsgs), es);
    InitInv(msgSize, maxMsgs);
    RunInv(Init(msgSize, maxMsgs), es);
    RunSizes(Init(msgSize, maxMsgs), es);
    TestDecides(s, t, size, msg);
    ResumedRuns(s, t);
    HolderGoesOn(s, t);
  }

  lemma TestDecides(s: State, t: Tid, size: nat, msg: Msg)
    requires Inv(s) && size > 0 && 0 < |msg| <= s.pool.msgSize
    ensures MayReceive(s, t) ==>
              (Enabled(s, RecvTake(t, size)) <==> s.pool.queue != []) && (Enabled(s, RecvSleep(t, 0)) <==> s.pool.queue == [])
    ensures MaySend(s, t) ==>
              (Enabled(s, SendTake(t, msg, false)) <==> s.pool.free != []) && (Enabled(s, SendSleep(t, 0)) <==> s.pool.free == [])
  {
    hide Nodes, Copies, Wait.Good;
  }

  lemma ResumedRuns(s: State, t: Tid)
    requires Inv(s)
    ensures (At(s.recv, t).OnItsWay? ==> MayReceive(s, t)) && (At(s.send, t).OnItsWay? ==> MaySend(s, t))
  {
    hide Nodes, Copies, Wait.Good;
    assert t in s.recv.woken ==> t in s.recv.Parked();
    assert t in s.send.woken ==> t in s.send.Parked();
    assert t in s.recv.asleep ==> t in s.recv.Parked();
    assert t in s.send.asleep ==> t in s.send.Parked();
  }

  lemma HolderGoesOn(s: State, t: Tid)
    requires Inv(s)
    ensures t in s.holds ==> || Enabled(s, SendClear(t)) || Enabled(s, SendByte(t)) || Enabled(s, SendLink(t))
                             || Enabled(s, RecvByte(t)) || Enabled(s, RecvReturn(t))
  {
    hide Waiting;
    if t in s.holds {
      assert HoldOk(s.pool, s.holds[t]);
    }
  }

  /** In how many places a node is. */
  ghost function Places(s: State, n: Node): nat {
    |set i | 0 <= i < |s.pool.queue| && s.pool.queue[i] == n|
    + |set i | 0 <= i < |s.pool.free| && s.pool.free[i] == n|
    + |set t | t in s.holds && s.holds[t].node == n|
  }

  lemma OneIndex(s: seq<Node>, n: Node)
    requires NoDup(s)
    ensures |set i | 0 <= i < |s| && s[i] == n| == if n in s then 1 else 0
  {
    if n in s {
      var k :| 0 <= k < |s| && s[k] == n;
      assert (set i | 0 <= i < |s| && s[i] == n) == {k};
    } else {
      assert (set i | 0 <= i < |s| && s[i] == n) == {};
    }
  }

  lemma OnePlace(s: State, n: Node)
    requires Nodes(s) && n < |s.pool.body|
    ensures Places(s, n) == 1
  {
    OneIndex(s.pool.queue, n);
    OneIndex(s.pool.free, n);
    var hands := set t | t in s.holds && s.holds[t].node == n;
    if InHands(s.holds, n) {
      var t :| t in s.holds && s.holds[t].node == n;
      assert Held(s.pool, s.holds[t].node);
      assert hands == {t};
    } else {
      assert hands == {};
    }
  }

  /**
   * In every reachable state each of the maxMsgs nodes is in exactly one place, the places add up, the entry counter is
   * the number of queued messages (so a receiver that sees entry > 0 finds a head), and nobody sleeps while a message
   * or a free node is left over for which no woken thread is on its way.
   */
  lemma Conservation(msgSize: nat, maxMsgs: nat, es: seq<Step>)
    requires Legal(Init(msgSize, maxMsgs), es)
    ensures var s := Run(Init(msgSize, maxMsgs), es);
            && (forall n :: 0 <= n < maxMsgs ==> Places(s, n) == 1)
            && |s.pool.queue| + |s.pool.free| + |s.holds| == maxMsgs
            && s.recv.tokens == |s.pool.queue|
  {
    var s := Run(Init(msgSize, maxMsgs), es);
    InitInv(msgSize, maxMsgs);
    RunInv(Init(msgSize, maxMsgs), es);
    RunSizes(Init(msgSize, maxMsgs), es);
    forall n | 0 <= n < maxMsgs
      ensures Places(s, n) == 1
    {
      OnePlace(s, n);
    }
  }

  lemma {:induction false} RunSizes(s: State, es: seq<Step>)
    requires Legal(s, es)
    ensures |Run(s, es).pool.body| == |s.pool.body| && Run(s, es).pool.msgSize == s.pool.msgSize
    decreases |es|
  {
    if es != [] {
      RunSizes(Next(s, es[0]), es[1..]);
    }
  }

  lemma NoLostWakeups(msgSize: nat, maxMsgs: nat, es: seq<Step>)
    requires Legal(Init(msgSize, maxMsgs), es)
    ensures var s := Run(Init(msgSize, maxMsgs), es);
            && (s.recv.asleep != [] ==> |s.pool.queue| <= |s.recv.woken|)
            && (s.send.asleep != [] ==> |s.pool.free| <= |s.send.woken|)
  {
    InitInv(msgSize, maxMsgs);
    RunInv(Init(msgSize, maxMsgs), es);
  }
}
