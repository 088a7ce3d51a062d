/**
 * The pointers of a message queue along every interleaving: whatever the threads do, head, tail, entry, the free list and
 * the link words are those of the lists, also while nodes are in the hands of threads.
 */
module MessageReplay {
  import opened Prelude
  import opened WaitList
  import opened MessagePool
  import opened MessageProtocol

  /** The link word that a sender has cleared is still clear. */
  ghost predicate LinksReady(next: seq<int>, holds: map<Tid, Hold>) {
    forall t :: t in holds && holds[t].Sending? && holds[t].ready && !holds[t].urgent ==>
      holds[t].node < |next| && next[holds[t].node] == NULL
  }

  /** The object is where the protocol is. */
  ghost predicate Follows(q: MessageQueue, s: State)
    reads q, q.next, q.body
  {
    q.Valid() && q.View() == s.pool && LinksReady(q.next[..], s.holds)
  }

  /** Link words of held nodes are as before, so those that were clear still are. */
  lemma StillReady(next: seq<int>, next': seq<int>, s: State, s': State)
    requires LinksReady(next, s.holds) && |next'| == |next| == |s'.pool.body| && HandsApart(s'.pool, s'.holds)
    requires forall n :: Held(s'.pool, n) ==> next'[n] == next[n]
    requires forall t :: t in s'.holds && s'.holds[t].Sending? && !s'.holds[t].urgent && s'.holds[t].ready ==>
               && t in s.holds && s.holds[t].Sending? && !s.holds[t].urgent && s.holds[t].ready
               && s.holds[t].node == s'.holds[t].node
    ensures LinksReady(next', s'.holds)
  {
    forall t | t in s'.holds && s'.holds[t].Sending? && s'.holds[t].ready && !s'.holds[t].urgent
      ensures next'[s'.holds[t].node] == NULL
    {
      assert Held(s'.pool, s'.holds[t].node);
    }
  }

  method Take(q: MessageQueue, s: State, t: Tid, msg: Msg, urgent: bool)
    requires Follows(q, s) && Nodes(s) && Enabled(s, SendTake(t, msg, urgent))
    modifies q
    ensures Follows(q, Next(s, SendTake(t, msg, urgent)))
  {
    hide Represents, PoolOk, AllPlaced, LinksReady;
    NodesStep(s, SendTake(t, msg, urgent));
    var node := q.TakeFree();
    StillReady(old(q.next[..]), q.next[..], s, Next(s, SendTake(t, msg, urgent)));
  }

  method Link(q: MessageQueue, s: State, t: Tid)
    requires Follows(q, s) && Nodes(s) && Enabled(s, SendLink(t))
    modifies q, q.next
    ensures Follows(q, Next(s, SendLink(t)))
  {
    hide Represents, PoolOk, AllPlaced;
    NodesStep(s, SendLink(t));
    var node := s.holds[t].node;
    assert Held(s.pool, node);
    if s.holds[t].urgent {
      q.LinkHead(node);
    } else {
      q.LinkTail(node);
    }
    StillReady(old(q.next[..]), q.next[..], s, Next(s, SendLink(t)));
  }

  method Receive(q: MessageQueue, s: State, t: Tid, size: nat)
    requires Follows(q, s) && Nodes(s) && Enabled(s, RecvTake(t, size))
    modifies q
    ensures Follows(q, Next(s, RecvTake(t, size)))
  {
    hide Chained, PoolOk, AllPlaced, LinksReady;
    NodesStep(s, RecvTake(t, size));
    var node := q.Unlink();
    StillReady(old(q.next[..]), q.next[..], s, Next(s, RecvTake(t, size)));
  }

  method Return(q: MessageQueue, s: State, t: Tid)
    requires Follows(q, s) && Nodes(s) && Enabled(s, RecvReturn(t))
    modifies q, q.next
    ensures Follows(q, Next(s, RecvReturn(t)))
  {
    hide Represents, PoolOk, AllPlaced, LinksReady;
    NodesStep(s, RecvReturn(t));
    assert Held(s.pool, s.holds[t].node);
    q.GiveBack(s.holds[t].node);
    StillReady(old(q.next[..]), q.next[..], s, Next(s, RecvReturn(t)));
  }

  method Clear(q: MessageQueue, s: State, t: Tid)
    requires Follows(q, s) && Nodes(s) && Enabled(s, SendClear(t))
    modifies q.next
    ensures Follows(q, Next(s, SendClear(t)))
  {
    assert Held(s.pool, s.holds[t].node);
    q.ClearLink(s.holds[t].node);
    forall u | u in s.holds && u != t
      ensures Held(s.pool, s.holds[u].node) && s.holds[u].node != s.holds[t].node
    {
    }
  }

  method Store(q: MessageQueue, s: State, t: Tid)
    requires Follows(q, s) && Nodes(s) && Enabled(s, SendByte(t))
    modifies q.body
    ensures Follows(q, Next(s, SendByte(t)))
  {
    var h := s.holds[t];
    assert Held(s.pool, h.node);
    q.StoreByte(h.node, h.copied, h.msg[h.copied]);
  }

  method Flush(q: MessageQueue, s: State)
    requires Follows(q, s) && Nodes(s)
    modifies q, q.next
    ensures Follows(q, Next(s, Reset))
  {
    NodesStep(s, Reset);
    q.Reset();
    StillReady(old(q.next[..]), q.next[..], s, Next(s, Reset));
  }

  /** One step of the protocol, with pointers; the others touch neither the lists nor a node. */
  method Perform(q: MessageQueue, s: State, e: Step)
    requires Follows(q, s) && Nodes(s) && Enabled(s, e)
    modifies q, q.next, q.body
    ensures Follows(q, Next(s, e))
  {
    hide Represents, LinksReady, Nodes;
    match e
    case SendTake(t, msg, urgent) => Take(q, s, t, msg, urgent);
    case SendClear(t) => Clear(q, s, t);
    case SendByte(t) => Store(q, s, t);
    case SendLink(t) => Link(q, s, t);
    case RecvTake(t, size) => Receive(q, s, t, size);
    case RecvReturn(t) => Return(q, s, t);
    case Reset => Flush(q, s);
    case RecvByte(t) => Look(q, s, t);
    case _ =>
  }

  /** A receiver's copy reads its node. */
  lemma Look(q: MessageQueue, s: State, t: Tid)
    requires Follows(q, s) && Enabled(s, RecvByte(t))
    ensures Follows(q, Next(s, RecvByte(t)))
  {
  }

  /**
   * A fresh queue after any interleaving: the object still represents the lists of the protocol.  So entry is the length
   * of the queue, tail is its last node, or null exactly if head is, and no link word of a list has been overwritten.
   */
  method Replay(msgSize: nat, maxMsgs: nat, es: seq<Step>) returns (q: MessageQueue)
    requires Legal(Init(msgSize, maxMsgs), es)
    ensures fresh(q) && Follows(q, Run(Init(msgSize, maxMsgs), es))
  {
    q := new MessageQueue(msgSize, maxMsgs);
    var s := Init(msgSize, maxMsgs);
    ghost var last := Run(s, es);
    InitInv(msgSize, maxMsgs);
    var i := 0;
    assert es[0..] == es;
    hide Nodes, Represents, LinksReady, Enabled, Next;
    while i < |es|
      invariant i <= |es| && fresh(q) && fresh(q.next) && fresh(q.body)
      invariant Nodes(s) && Follows(q, s) && Legal(s, es[i..]) && Run(s, es[i..]) == last
    {
      assert es[i..][0] == es[i] && es[i..][1..] == es[i + 1..];
      Perform(q, s, es[i]);
      NodesStep(s, es[i]);
      s := Next(s, es[i]);
      i := i + 1;
    }
  }
}
