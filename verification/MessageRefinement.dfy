/**
 * What a message queue is for: a double-ended queue of messages.  The concurrent protocol refines it: a send takes
 * effect when its node is linked, a receive when the first node is unlinked, and in spite of the unlocked copies every
 * receiver returns the bytes that one sender passed in.
 */
module MessageRefinement {
  import opened Prelude
  import opened WaitList
  import opened MessagePool
  import opened MessageProtocol

  /** What an active receiver has got, and how many bytes it asked for. */
  datatype Taking = Taking(msg: Msg, size: nat)

  /** deque: messages sent and not yet received; limit: no receive returns more bytes than that. */
  datatype Spec = Spec(limit: nat, deque: seq<Msg>, taken: map<Tid, Taking>)

  datatype Action =
    | PushBack(msg: Msg)
    | PushFront(msg: Msg)
    | PopFront(t: Tid, size: nat)
    | Return(t: Tid, out: seq<byte>)
    | Clear
    | Silent

  /** A receive returns as many bytes as it asked for, up to the limit; they start with the message, as far as both go. */
  predicate Delivers(limit: nat, k: Taking, out: seq<byte>) {
    |out| == Min(k.size, limit)
    && var n := Min(|k.msg|, |out|);
    out[..n] == k.msg[..n]
  }

  /** None: the action is not possible in this state. */
  function SpecStep(a: Spec, act: Action): Option<Spec> {
    match act
    case PushBack(m) => Some(a.(deque := a.deque + [m]))
    case PushFront(m) => Some(a.(deque := [m] + a.deque))
    case PopFront(t, size) =>
      if a.deque == [] then None
      else Some(a.(deque := a.deque[1..], taken := a.taken[t := Taking(a.deque[0], size)]))
    case Return(t, out) =>
      if t in a.taken && Delivers(a.limit, a.taken[t], out) then Some(a.(taken := a.taken - {t})) else None
    case Clear => Some(a.(deque := []))
    case Silent => Some(a)
  }

  /** What a step of the protocol means to a user of the queue. */
  function Meaning(s: State, e: Step): Action
    requires Enabled(s, e)
  {
    match e
    case SendLink(t) => if s.holds[t].urgent then PushFront(s.holds[t].msg) else PushBack(s.holds[t].msg)
    case RecvTake(t, size) => PopFront(t, size)
    case RecvReturn(t) => Return(t, s.holds[t].out)
    case Reset => Clear
    case _ => Silent
  }

  /** The payload area starts with the message. */
  ghost predicate Carries(area: seq<byte>, m: Msg) {
    |m| <= |area| && area[..|m|] == m
  }

  ghost predicate DequeSim(p: Pool, deque: seq<Msg>) {
    && |deque| == |p.queue|
    && forall i :: 0 <= i < |deque| ==> p.queue[i] < |p.body| && Carries(p.body[p.queue[i]], deque[i])
  }

  ghost predicate TakenSim(s: State, taken: map<Tid, Taking>) {
    && (forall t :: t in taken <==> t in s.holds && s.holds[t].Receiving?)
    && (forall t :: t in taken ==>
          && s.holds[t].node < |s.pool.body| && Carries(s.pool.body[s.holds[t].node], taken[t].msg)
          && s.holds[t].size == taken[t].size)
  }

  ghost predicate Sim(s: State, a: Spec) {
    a.limit == s.pool.msgSize && DequeSim(s.pool, a.deque) && TakenSim(s, a.taken)
  }

  /** Writing into a held node disturbs neither a queued message nor one that another thread is reading. */
  lemma SendByteSim(s: State, a: Spec, t: Tid)
    requires HandsApart(s.pool, s.holds) && Sim(s, a) && Enabled(s, SendByte(t))
    ensures Sim(Next(s, SendByte(t)), a)
  {
    assert Held(s.pool, s.holds[t].node);
  }

  lemma LinkSim(s: State, a: Spec, t: Tid)
    requires HandsApart(s.pool, s.holds) && Copies(s) && Sim(s, a) && Enabled(s, SendLink(t))
    ensures SpecStep(a, Meaning(s, SendLink(t))).Some?
    ensures Sim(Next(s, SendLink(t)), SpecStep(a, Meaning(s, SendLink(t))).value)
  {
    var h := s.holds[t];
    assert HoldOk(s.pool, h);
    assert h.msg[..|h.msg|] == h.msg;
    assert Carries(s.pool.body[h.node], h.msg);
  }

  lemma TakeSim(s: State, a: Spec, t: Tid, size: nat)
    requires Sim(s, a) && Enabled(s, RecvTake(t, size))
    ensures SpecStep(a, PopFront(t, size)).Some?
    ensures Sim(Next(s, RecvTake(t, size)), SpecStep(a, PopFront(t, size)).value)
  {
  }

  lemma ReturnSim(s: State, a: Spec, t: Tid)
    requires Copies(s) && Sim(s, a) && Enabled(s, RecvReturn(t))
    ensures SpecStep(a, Return(t, s.holds[t].out)).Some?
    ensures Sim(Next(s, RecvReturn(t)), SpecStep(a, Return(t, s.holds[t].out)).value)
  {
    var h := s.holds[t];
    assert HoldOk(s.pool, h);
    var area: seq<byte>, msg := s.pool.body[h.node], a.taken[t].msg;
    var n := Min(|msg|, |h.out|);
    assert h.out[..n] == area[..n] == msg[..n];
  }

  lemma ResetSim(s: State, a: Spec)
    requires Sim(s, a)
    ensures Sim(Next(s, Reset), a.(deque := []))
  {
    assert Next(s, Reset).pool.body == s.pool.body;
  }

  lemma QuietSim(s: State, a: Spec, e: Step)
    requires Sim(s, a) && Enabled(s, e) && Meaning(s, e).Silent? && !e.SendByte?
    ensures Sim(Next(s, e), a)
  {
    var s' := Next(s, e);
    assert s'.pool.queue == s.pool.queue && s'.pool.body == s.pool.body;
  }

  /** Forward simulation: whatever step the protocol takes, the deque can take the corresponding action. */
  lemma StepSim(s: State, a: Spec, e: Step)
    requires HandsApart(s.pool, s.holds) && Copies(s) && Sim(s, a) && Enabled(s, e)
    ensures SpecStep(a, Meaning(s, e)).Some?
    ensures Sim(Next(s, e), SpecStep(a, Meaning(s, e)).value)
  {
    match e {
      case SendByte(t) => SendByteSim(s, a, t);
      case SendLink(t) => LinkSim(s, a, t);
      case RecvTake(t, size) => TakeSim(s, a, t, size);
      case RecvReturn(t) => ReturnSim(s, a, t);
      case Reset => ResetSim(s, a);
      case _ => QuietSim(s, a, e);
    }
  }

  /** What a run means: one action per step. */
  function Trace(s: State, es: seq<Step>): seq<Action>
    requires Legal(s, es)
    decreases |es|
  {
    if es == [] then [] else [Meaning(s, es[0])] + Trace(Next(s, es[0]), es[1..])
  }

  function SpecRun(a: Spec, acts: seq<Action>): Option<Spec>
    decreases |acts|
  {
    if acts == [] then Some(a)
    else
      match SpecStep(a, acts[0])
      case None => None
      case Some(a') => SpecRun(a', acts[1..])
  }

  lemma {:induction false} RunSim(s: State, a: Spec, es: seq<Step>)
    requires Inv(s) && Sim(s, a) && Legal(s, es)
    ensures SpecRun(a, Trace(s, es)).Some? && Sim(Run(s, es), SpecRun(a, Trace(s, es)).value)
    decreases |es|
  {
    hide PoolOk, HandsApart, AllPlaced, Waiting, Copies, Sim, Enabled, Next, Meaning, SpecStep;
    if es != [] {
      StepSim(s, a, es[0]);
      NodesStep(s, es[0]);
      WaitingStep(s, es[0]);
      CopiesStep(s, es[0]);
      RunSim(Next(s, es[0]), SpecStep(a, Meaning(s, es[0])).value, es[1..]);
      assert Trace(s, es)[1..] == Trace(Next(s, es[0]), es[1..]);
    }
  }

  /**
   * The main theorem about the message queue: every interleaving of senders, urgent senders, receivers, timeouts and
   * resets is a run of the deque, whatever the pool size, message size and number of threads.
   */
  lemma RefinesDeque(msgSize: nat, maxMsgs: nat, es: seq<Step>)
    requires Legal(Init(msgSize, maxMsgs), es)
    ensures var a := SpecRun(Spec(msgSize, [], map[]), Trace(Init(msgSize, maxMsgs), es));
            && a.Some? && Sim(Run(Init(msgSize, maxMsgs), es), a.value)
            && |a.value.deque| == |Run(Init(msgSize, maxMsgs), es).pool.queue|
  {
    InitInv(msgSize, maxMsgs);
    RunSim(Init(msgSize, maxMsgs), Spec(msgSize, [], map[]), es);
  }
}
