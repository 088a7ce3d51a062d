/** Mailboxes (ipc.c): a ring of words with a wait list on each side. */
module Mailbox {
  import opened Prelude
  import opened WaitList

  // ----- the ring

  /** The n words from position first on, around the end. */
  ghost function Around(words: seq<int>, first: nat, n: nat): seq<int>
    requires first < |words| && n <= |words|
  {
    if first + n <= |words| then words[first..first + n] else words[first..] + words[..first + n - |words|]
  }

  lemma HeadOfMails(words: seq<int>, first: nat, n: nat)
    requires first < |words| && 0 < n <= |words|
    ensures Around(words, first, n)
         == [words[first]] + Around(words, if first + 1 < |words| then first + 1 else 0, n - 1)
  {
  }

  lemma TailOfMails(words: seq<int>, first: nat, n: nat, value: int)
    requires first < |words| && n < |words|
    ensures var at := if first + n < |words| then first + n else first + n - |words|;
            Around(words[at := value], first, n + 1) == Around(words, first, n) + [value]
  {
  }

  class Ring {
    const size: nat
    const pool: array<int>
    var entry: nat
    var inOffset: nat
    var outOffset: nat

    ghost predicate Valid()
      reads this
    {
      && pool.Length == size && entry <= size && inOffset < size && outOffset < size
      && inOffset == if outOffset + entry < size then outOffset + entry else outOffset + entry - size
    }

    /** The mails, oldest first. */
    ghost function Mails(): seq<int>
      requires Valid()
      reads this, pool
    {
      Around(pool[..], outOffset, entry)
    }

    /** rt_mb_init */
    constructor (n: nat)
      requires n > 0
      ensures Valid() && fresh(pool) && size == n && Mails() == []
    {
      size, pool, entry, inOffset, outOffset := n, new int[n], 0, 0, 0;
    }

    /** rt_mb_send_wait, once there is room. */
    method Put(value: int)
      requires Valid() && entry < size
      modifies this, pool
      ensures Valid() && Mails() == old(Mails()) + [value]
    {
      ghost var words := pool[..];
      TailOfMails(words, outOffset, entry, value);
      pool[inOffset] := value;
      assert pool[..] == words[inOffset := value];
      inOffset := inOffset + 1;
      if inOffset >= size {
        inOffset := 0;
      }
      entry := entry + 1;
    }

    /** rt_mb_recv, once there is a mail. */
    method Get() returns (value: int)
      requires Valid() && entry > 0
      modifies this
      ensures Valid() && old(Mails()) == [value] + Mails()
    {
      ghost var words, first, n := pool[..], outOffset, entry;
      HeadOfMails(words, first, n);
      value := pool[outOffset];
      outOffset := outOffset + 1;
      if outOffset >= size {
        outOffset := 0;
      }
      entry := entry - 1;
    }

    /** rt_mb_control with RT_IPC_CMD_RESET. */
    method Reset()
      requires Valid()
      modifies this
      ensures Valid() && Mails() == []
    {
      entry, inOffset, outOffset := 0, 0, 0;
    }
  }

  // ----- every interleaving

  /** The mails in the ring, those who wait for a mail and those who wait for room; and all mails in and out since a reset. */
  datatype State = State(size: nat, mails: seq<int>, recv: Wait, send: Wait, sent: seq<int>, got: seq<int>)

  /** A step is a region under the interrupt lock, or an expiring timer. */
  datatype Step =
    | Put(t: Tid, value: int)
    | SendSleep(t: Tid, at: nat)
    | SendQuit(t: Tid)
    | Get(t: Tid)
    | RecvSleep(t: Tid, at: nat)
    | RecvQuit(t: Tid)
    | SendExpire(i: nat)
    | RecvExpire(i: nat)
    | Reset

  function Init(size: nat): State {
    State(size, [], Wait(0, [], {}), Wait(size, [], {}), [], [])
  }

  /** Thread t runs in rt_mb_send_wait: it has just called, or was woken there. */
  predicate MaySend(s: State, t: Tid) {
    t !in s.send.asleep && t !in s.recv.asleep && t !in s.recv.woken
  }

  predicate MayReceive(s: State, t: Tid) {
    t !in s.send.asleep && t !in s.recv.asleep && t !in s.send.woken
  }

  predicate Enabled(s: State, e: Step) {
    match e
    case Put(t, _) => MaySend(s, t) && |s.mails| != s.size && s.send.tokens > 0
    case SendSleep(t, at) => MaySend(s, t) && |s.mails| == s.size && at <= |s.send.asleep|
    case SendQuit(t) => t in s.send.woken && |s.mails| == s.size
    case Get(t) => MayReceive(s, t) && s.mails != [] && s.recv.tokens > 0
    case RecvSleep(t, at) => MayReceive(s, t) && s.mails == [] && at <= |s.recv.asleep|
    case RecvQuit(t) => t in s.recv.woken && s.mails == []
    case SendExpire(i) => i < |s.send.asleep|
    case RecvExpire(i) => i < |s.recv.asleep|
    case Reset => true
  }

  function Next(s: State, e: Step): State
    requires Enabled(s, e)
  {
    match e
    case Put(t, v) =>
      s.(mails := s.mails + [v], sent := s.sent + [v], send := s.send.Grab(t), recv := s.recv.Post())
    case SendSleep(t, at) => s.(send := s.send.Sleep(t, at))
    case SendQuit(t) => s.(send := s.send.Quit(t))
    case Get(t) =>
      s.(mails := s.mails[1..], got := s.got + [s.mails[0]], recv := s.recv.Grab(t), send := s.send.Post())
    case RecvSleep(t, at) => s.(recv := s.recv.Sleep(t, at))
    case RecvQuit(t) => s.(recv := s.recv.Quit(t))
    case SendExpire(i) => s.(send := s.send.Expire(i))
    case RecvExpire(i) => s.(recv := s.recv.Expire(i))
    case Reset => State(s.size, [], s.recv.WakeAll(0), s.send.WakeAll(s.size), [], [])
  }

  /**
   * The counters are what they count, no wakeup is lost on either side, no thread is on both, and no mail is lost, doubled
   * or overtaken.
   */
  ghost predicate Inv(s: State) {
    && s.recv.tokens == |s.mails| && s.send.tokens + |s.mails| == s.size
    && s.recv.Good() && s.send.Good() && s.recv.Parked() !! s.send.Parked()
    && s.sent == s.got + s.mails
  }

  lemma PutInv(s: State, t: Tid, v: int)
    requires Inv(s) && Enabled(s, Put(t, v))
    ensures Inv(Next(s, Put(t, v)))
  {
    hide Wait.Good;
    GrabKeeps(s.send, t);
    PostKeeps(s.recv);
    assert s.got + (s.mails + [v]) == s.got + s.mails + [v];
  }

  lemma GetInv(s: State, t: Tid)
    requires Inv(s) && Enabled(s, Get(t))
    ensures Inv(Next(s, Get(t)))
  {
    hide Wait.Good;
    GrabKeeps(s.recv, t);
    PostKeeps(s.send);
    assert s.mails == [s.mails[0]] + s.mails[1..];
    assert s.got + ([s.mails[0]] + s.mails[1..]) == s.got + [s.mails[0]] + s.mails[1..];
  }

  lemma ResetInv(s: State)
    requires Inv(s)
    ensures Inv(Next(s, Reset))
  {
    WakeAllKeeps(s.recv, 0);
    WakeAllKeeps(s.send, s.size);
  }

  lemma StepInv(s: State, e: Step)
    requires Inv(s) && Enabled(s, e)
    ensures Inv(Next(s, e)) && Next(s, e).size == s.size
  {
    match e
    case Put(t, v) => PutInv(s, t, v);
    case SendSleep(t, at) => SleepKeeps(s.send, t, at);
    case SendQuit(t) => QuitKeeps(s.send, t);
    case Get(t) => GetInv(s, t);
    case RecvSleep(t, at) => SleepKeeps(s.recv, t, at);
    case RecvQuit(t) => QuitKeeps(s.recv, t);
    case SendExpire(i) => ExpireKeeps(s.send, i);
    case RecvExpire(i) => ExpireKeeps(s.recv, i);
    case Reset => ResetInv(s);
  }

  // ----- where each thread is

  /** What a step does to the receivers. */
  function RecvMove(s: State, e: Step): Move
    requires Enabled(s, e)
  {
    match e
    case Put(_, _) => FirstWakes
    case Get(t) => Goes(t)
    case RecvSleep(t, _) => FallsAsleep(t)
    case RecvQuit(t) => Goes(t)
    case RecvExpire(i) => Goes(s.recv.asleep[i])
    case Reset => SleepersGo
    case _ => Nothing
  }

  function SendMove(s: State, e: Step): Move
    requires Enabled(s, e)
  {
    match e
    case Get(_) => FirstWakes
    case Put(t, _) => Goes(t)
    case SendSleep(t, _) => FallsAsleep(t)
    case SendQuit(t) => Goes(t)
    case SendExpire(i) => Goes(s.send.asleep[i])
    case Reset => SleepersGo
    case _ => Nothing
  }

  lemma RecvMoves(s: State, e: Step)
    requires Inv(s) && Enabled(s, e)
    ensures Moved(s.recv, RecvMove(s, e), Next(s, e).recv)
  {
    hide Moved, NoDup;
    match e
    case Put(_, _) => PostMoves(s.recv);
    case Get(t) => GrabMoves(s.recv, t);
    case RecvSleep(t, at) => SleepMoves(s.recv, t, at);
    case RecvQuit(t) => WokenAwake(s.recv, t); QuitMoves(s.recv, t);
    case RecvExpire(i) => ExpireMoves(s.recv, i);
    case Reset => WakeAllMoves(s.recv, 0);
    case _ => Unmoved(s.recv, Next(s, e).recv);
  }

  lemma SendMoves(s: State, e: Step)
    requires Inv(s) && Enabled(s, e)
    ensures Moved(s.send, SendMove(s, e), Next(s, e).send)
  {
    hide Moved, NoDup;
    match e
    case Get(_) => PostMoves(s.send);
    case Put(t, _) => GrabMoves(s.send, t);
    case SendSleep(t, at) => SleepMoves(s.send, t, at);
    case SendQuit(t) => WokenAwake(s.send, t); QuitMoves(s.send, t);
    case SendExpire(i) => ExpireMoves(s.send, i);
    case Reset => WakeAllMoves(s.send, s.size);
    case _ => Unmoved(s.send, Next(s, e).send);
  }

  /** Thread t, asleep or resumed, returns with an error in step e. */
  ghost predicate GivesUp(s: State, e: Step, t: Tid) {
    || e == SendQuit(t) || e == RecvQuit(t)
    || (e.SendExpire? && e.i < |s.send.asleep| && t == s.send.asleep[e.i])
    || (e.RecvExpire? && e.i < |s.recv.asleep| && t == s.recv.asleep[e.i])
  }

  lemma Returned(s: State, e: Step, t: Tid)
    requires Inv(s) && Enabled(s, e) && GivesUp(s, e, t)
    ensures At(Next(s, e).recv, t) == At(Next(s, e).send, t) == Away
  {
    hide Wait.Good, SameOrder;
    RecvMoves(s, e);
    SendMoves(s, e);
    assert t in (if e.SendQuit? || e.SendExpire? then s.send.Parked() else s.recv.Parked());
  }

  ghost predicate Moves(s: State, e: Step, s': State) {
    Enabled(s, e) && s' == Next(s, e)
  }

  ghost predicate Run(size: nat, run: seq<State>, steps: seq<Step>) {
    && |run| == |steps| + 1 && run[0] == Init(size)
    && forall i, j :: 0 <= i && j == i + 1 < |run| ==> Moves(run[i], steps[i], run[j])
  }

  lemma InitInv(size: nat)
    ensures Inv(Init(size)) && Init(size).size == size
  {
  }

  lemma {:induction false} RunInv(size: nat, run: seq<State>, steps: seq<Step>, n: nat)
    requires Run(size, run, steps) && n < |run|
    ensures Inv(run[n]) && run[n].size == size
  {
    hide Inv, Init, Enabled, Next;
    if n == 0 {
      InitInv(size);
    } else {
      RunInv(size, run, steps, n - 1);
      assert Moves(run[n - 1], steps[n - 1], run[n]);
      StepInv(run[n - 1], steps[n - 1]);
    }
  }

  /** A thread sleeps only while as many others are on their way as there are mails, or free places, to be had. */
  lemma NoLostWakeups(size: nat, run: seq<State>, steps: seq<Step>, n: nat)
    requires Run(size, run, steps) && n < |run|
    ensures run[n].recv.asleep != [] ==> |run[n].mails| <= |run[n].recv.woken|
    ensures run[n].send.asleep != [] ==> size - |run[n].mails| <= |run[n].send.woken|
    ensures run[n].recv.woken == {} && run[n].send.woken == {} && size > 0 ==>
              run[n].recv.asleep == [] || run[n].send.asleep == []
  {
    RunInv(size, run, steps, n);
  }

  /**
   * Along any run each step moves the threads that it should, and no other.  After a reset nobody sleeps and no mail is
   * left; who returned with an error may call again.
   */
  lemma ThreadsMove(size: nat, run: seq<State>, steps: seq<Step>, n: nat)
    requires Run(size, run, steps) && n < |steps|
    ensures Enabled(run[n], steps[n])
    ensures Moved(run[n].recv, RecvMove(run[n], steps[n]), run[n + 1].recv)
    ensures Moved(run[n].send, SendMove(run[n], steps[n]), run[n + 1].send)
    ensures steps[n].Reset? ==> run[n + 1].recv.asleep == run[n + 1].send.asleep == run[n + 1].mails == []
    ensures forall t: Tid :: GivesUp(run[n], steps[n], t) ==> MaySend(run[n + 1], t) && MayReceive(run[n + 1], t)
  {
    hide Inv, GivesUp;
    RunInv(size, run, steps, n);
    assert Moves(run[n], steps[n], run[n + 1]);
    RecvMoves(run[n], steps[n]);
    SendMoves(run[n], steps[n]);
    forall t: Tid | GivesUp(run[n], steps[n], t)
      ensures MaySend(run[n + 1], t) && MayReceive(run[n + 1], t)
    {
      Returned(run[n], steps[n], t);
    }
  }

  /** A thread that runs gets a mail, or room for one, if and only if there is one, and sleeps if and only if there is none. */
  lemma NobodyStuck(size: nat, run: seq<State>, steps: seq<Step>, n: nat, t: Tid, v: int)
    requires Run(size, run, steps) && n < |run|
    ensures var s := run[n];
            && (MayReceive(s, t) ==> (Enabled(s, Get(t)) <==> s.mails != []) && (Enabled(s, RecvSleep(t, 0)) <==> s.mails == []))
            && (MaySend(s, t) ==> (Enabled(s, Put(t, v)) <==> |s.mails| < size)
                                  && (Enabled(s, SendSleep(t, 0)) <==> |s.mails| == size))
            && (At(s.recv, t).OnItsWay? ==> MayReceive(s, t)) && (At(s.send, t).OnItsWay? ==> MaySend(s, t))
  {
    hide Wait.Good;
    RunInv(size, run, steps, n);
    assert t in run[n].recv.asleep + run[n].send.asleep ==> t in run[n].recv.Parked() + run[n].send.Parked();
    assert t in run[n].recv.woken ==> t in run[n].recv.Parked();
    assert t in run[n].send.woken ==> t in run[n].send.Parked();
  }

  /** What came out, then what is still inside, is what went in, in that order. */
  lemma FirstInFirstOut(size: nat, run: seq<State>, steps: seq<Step>, n: nat)
    requires Run(size, run, steps) && n < |run|
    ensures run[n].sent == run[n].got + run[n].mails && |run[n].mails| <= size
  {
    RunInv(size, run, steps, n);
  }

  // ----- the ring along a run

  ghost predicate Follows(r: Ring, s: State)
    reads r, r.pool
  {
    r.Valid() && r.size == s.size && r.Mails() == s.mails && r.entry == s.recv.tokens
  }

  /** The code of one step; those of the wait lists do not touch the ring.  A receiver gets the oldest mail. */
  method Perform(r: Ring, ghost s: State, e: Step) returns (value: Option<int>)
    requires Follows(r, s) && Inv(s) && Enabled(s, e)
    modifies r, r.pool
    ensures Follows(r, Next(s, e))
    ensures Next(s, e).got == if e.Reset? then [] else if value.Some? then s.got + [value.value] else s.got
  {
    hide Wait.Good;
    value := None;
    match e
    case Put(_, v) => r.Put(v);
    case Get(_) =>
      var mail := r.Get();
      value := Some(mail);
    case Reset => r.Reset();
    case _ =>
  }

  /** A fresh mailbox along any interleaving: the ring always holds the mails of the protocol. */
  method Replay(size: nat, ghost run: seq<State>, steps: seq<Step>) returns (r: Ring)
    requires size > 0 && Run(size, run, steps)
    ensures fresh(r) && Follows(r, run[|steps|])
  {
    r := new Ring(size);
    hide Inv;
    for i := 0 to |steps|
      invariant fresh(r) && fresh(r.pool) && Follows(r, run[i])
    {
      RunInv(size, run, steps, i);
      assert Moves(run[i], steps[i], run[i + 1]);
      var _ := Perform(r, run[i], steps[i]);
    }
  }
}
