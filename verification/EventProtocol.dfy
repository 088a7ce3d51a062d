/** Event sets over every interleaving of senders, receivers, timeouts and resets. */
module EventProtocol {
  import opened Prelude
  import opened IpcList
  import E = Events

  type Bits = E.Bits
  type Info = E.Info

  // ----- bit by bit

  /** What keeps a thread waiting: with AND a bit that it wants and that is not there, with OR alone that none is there. */
  ghost predicate Lacks(e: Bits, i: Info) {
    if i.all then exists b :: b in i.want && b !in e else forall b :: b in i.want ==> b !in e
  }

  lemma MetIff(e: Bits, i: Info)
    requires i.all || i.any
    ensures E.Met(e, i) <==> !Lacks(e, i)
  {
    if !i.all && E.Met(e, i) {
      var b :| b in e * i.want;
    }
    if !i.all && !Lacks(e, i) {
      var b :| b in i.want && b in e;
      assert b in e * i.want;
    }
  }

  /** got are the wanted bits that are in e, and with CLEAR they leave it. */
  ghost predicate Delivered(e: Bits, i: Info, got: Bits, cleared: Bits) {
    (forall b :: b in got <==> b in i.want && b in e) && forall b :: b in cleared <==> i.clear && b in got
  }

  /**
   * Each waiter in its turn finds the bits that those before it have left: it is resumed, and gets its bits, if and only if
   * it lacks nothing then.
   */
  ghost predicate InTurn(e: Bits, ws: seq<Tid>, info: map<Tid, Info>, woken: seq<E.Wakeup>, kept: seq<Tid>) {
    if ws == [] then woken == [] && kept == []
    else
      && ws[0] in info
      && if Lacks(e, info[ws[0]]) then kept != [] && kept[0] == ws[0] && InTurn(e, ws[1..], info, woken, kept[1..])
         else
           && woken != [] && woken[0].t == ws[0] && Delivered(e, info[ws[0]], woken[0].got, woken[0].cleared)
           && InTurn(e - woken[0].cleared, ws[1..], info, woken[1..], kept)
  }

  /** Every waiter has named AND or OR. */
  ghost predicate Asked(ws: seq<Tid>, info: map<Tid, Info>) {
    forall k :: 0 <= k < |ws| ==> ws[k] in info && (info[ws[k]].all || info[ws[k]].any)
  }

  lemma GotDelivered(e: Bits, i: Info)
    requires E.Met(e, i)
    ensures Delivered(e, i, E.Got(e, i), E.Cleared(e, i))
  {
  }

  lemma TailAsked(ws: seq<Tid>, info: map<Tid, Info>)
    requires Asked(ws, info) && NoDup(ws) && ws != []
    ensures Asked(ws[1..], info) && NoDup(ws[1..]) && ws[0] !in ws[1..]
  {
    assert forall k :: 0 <= k < |ws| - 1 ==> ws[1..][k] == ws[k + 1];
  }

  /** The event fields of threads that are not waiting do not matter. */
  lemma {:induction false} InTurnSame(e: Bits, ws: seq<Tid>, info: map<Tid, Info>, info': map<Tid, Info>,
                                      woken: seq<E.Wakeup>, kept: seq<Tid>)
    requires InTurn(e, ws, info', woken, kept)
    requires forall t :: t in ws ==> t in info && t in info' && info[t] == info'[t]
    ensures InTurn(e, ws, info, woken, kept)
    decreases |ws|
  {
    if ws != [] {
      assert ws[0] in ws && forall t :: t in ws[1..] ==> t in ws;
      if Lacks(e, info[ws[0]]) {
        InTurnSame(e, ws[1..], info, info', woken, kept[1..]);
      } else {
        InTurnSame(e - woken[0].cleared, ws[1..], info, info', woken[1..], kept);
      }
    }
  }

  lemma {:induction false} SweepInTurn(e: Bits, ws: seq<Tid>, info: map<Tid, Info>)
    requires Asked(ws, info) && NoDup(ws)
    ensures var r := E.Sweep(e, ws, info); InTurn(e, ws, info, r.woken, r.kept)
  {
    if ws != [] {
      hide NoDup, Lacks, Delivered;
      var t, i, r := ws[0], info[ws[0]], E.Sweep(e, ws, info);
      TailAsked(ws, info);
      MetIff(e, i);
      if E.Met(e, i) {
        var e', info' := e - E.Cleared(e, i), info[t := i.(want := E.Got(e, i))];
        assert forall k :: 0 <= k < |ws| - 1 ==> ws[1..][k] in ws[1..];
        SweepInTurn(e', ws[1..], info');
        var r' := E.Sweep(e', ws[1..], info');
        GotDelivered(e, i);
        InTurnSame(e', ws[1..], info, info', r'.woken, r'.kept);
        assert r.woken[1..] == r'.woken;
      } else {
        SweepInTurn(e, ws[1..], info);
        assert r.kept[1..] == E.Sweep(e, ws[1..], info).kept;
      }
    }
  }

  // ----- one send

  /** A smaller set satisfies fewer conditions. */
  lemma MetMonotone(e: Bits, f: Bits, i: Info)
    requires e <= f && E.Met(e, i)
    ensures E.Met(f, i)
  {
    if !i.all {
      var b :| b in e * i.want;
      assert b in f * i.want;
    }
  }

  /** A waiter that a send satisfies gets the bits, and has the bits taken, that it would have got by asking just then. */
  lemma BlockedLikeImmediate(e: Bits, i: Info)
    requires E.Met(e, i)
    ensures E.ReceiveNow(e, i) == (e - E.Cleared(e, i), E.Got(e, i))
  {
    if i.all {
      assert e * i.want == i.want;
    } else {
      assert i.want * e == e * i.want;
      assert e - i.want == e - i.want * e;
    }
    assert e - {} == e;
  }

  /** Nobody who is left after the loop is satisfied by what is left of the set. */
  lemma {:induction false} SweepUnmet(e: Bits, ws: seq<Tid>, info: map<Tid, Info>)
    requires E.Informed(ws, info) && NoDup(ws)
    ensures var r := E.Sweep(e, ws, info);
            && r.e <= e && r.info.Keys == info.Keys
            && (forall k :: 0 <= k < |r.kept| ==> r.kept[k] in info && !E.Met(r.e, info[r.kept[k]]))
            && (forall t :: t in info && (t !in ws || t in r.kept) ==> r.info[t] == info[t])
            && (forall t :: t in r.kept ==> t in ws)
  {
    if ws != [] {
      var t, i := ws[0], info[ws[0]];
      assert forall k :: 0 < k < |ws| ==> ws[k] == ws[1..][k - 1];
      assert forall u :: u in ws <==> u == t || u in ws[1..];
      if E.Met(e, i) {
        SweepUnmet(e - E.Cleared(e, i), ws[1..], info[t := i.(want := E.Got(e, i))]);
      } else {
        SweepUnmet(e, ws[1..], info);
        var r := E.Sweep(e, ws[1..], info);
        if E.Met(r.e, i) {
          MetMonotone(r.e, e, i);
        }
      }
    }
  }

  /** The bits that left the set with the resumed threads. */
  function Spent(woken: seq<E.Wakeup>): Bits {
    if woken == [] then {} else woken[0].cleared + Spent(woken[1..])
  }

  /** No bit is taken for two threads, and none of those taken is left. */
  ghost predicate Exclusive(woken: seq<E.Wakeup>, left: Bits) {
    && (forall i :: 0 <= i < |woken| ==> woken[i].cleared !! left && woken[i].cleared <= woken[i].got)
    && forall i, j :: 0 <= i < j < |woken| ==> woken[i].cleared !! woken[j].cleared
  }

  /** One more resumed thread, whose bits the others no longer saw. */
  lemma ExclusiveFront(w: E.Wakeup, woken: seq<E.Wakeup>, left: Bits, e: Bits)
    requires w.cleared <= e && w.cleared <= w.got && Exclusive(woken, left)
    requires left + Spent(woken) == e - w.cleared && forall k :: 0 <= k < |woken| ==> woken[k].cleared <= e - w.cleared
    ensures left + Spent([w] + woken) == e && Exclusive([w] + woken, left)
    ensures forall k :: 0 <= k < |[w] + woken| ==> ([w] + woken)[k].cleared <= e
  {
    var all := [w] + woken;
    assert all[1..] == woken;
    assert Spent(all) == w.cleared + Spent(woken);
    assert left + Spent(all) == w.cleared + (left + Spent(woken)) == w.cleared + (e - w.cleared) == e;
    forall i | 0 <= i < |all|
      ensures all[i].cleared !! left && all[i].cleared <= all[i].got && all[i].cleared <= e
    {
      assert i > 0 ==> all[i] == woken[i - 1];
      assert left <= e - w.cleared;
    }
    forall i, j | 0 <= i < j < |all|
      ensures all[i].cleared !! all[j].cleared
    {
      assert all[j] == woken[j - 1];
      assert i > 0 ==> all[i] == woken[i - 1];
    }
  }

  /** Every bit of the set is still there or was taken for exactly one of the resumed threads. */
  lemma {:induction false} SweepAccounts(e: Bits, ws: seq<Tid>, info: map<Tid, Info>)
    requires E.Informed(ws, info) && NoDup(ws)
    ensures var r := E.Sweep(e, ws, info);
            r.e + Spent(r.woken) == e && Exclusive(r.woken, r.e) && (forall k :: 0 <= k < |r.woken| ==> r.woken[k].cleared <= e)
  {
    if ws != [] {
      var t, i := ws[0], info[ws[0]];
      assert forall k :: 0 < k < |ws| ==> ws[k] == ws[1..][k - 1];
      if E.Met(e, i) {
        var c, info' := E.Cleared(e, i), info[t := i.(want := E.Got(e, i))];
        SweepAccounts(e - c, ws[1..], info');
        var r, r' := E.Sweep(e, ws, info), E.Sweep(e - c, ws[1..], info');
        assert r.woken == [E.Wakeup(t, E.Got(e, i), c)] + r'.woken && r.woken[1..] == r'.woken;
        ExclusiveFront(E.Wakeup(t, E.Got(e, i), c), r'.woken, r'.e, e);
      } else {
        SweepAccounts(e, ws[1..], info);
      }
    }
  }

  // ----- runs

  datatype Step =
    | Send(bits: Bits)
    | Recv(t: Tid, i: Info, wait: bool)
    | Expire(k: nat)
    | Reset

  /** Asleep threads take no step; the options name AND or OR. */
  ghost predicate Enabled(s: E.State, prio: Priorities, step: Step) {
    match step
    case Recv(t, i, _) => t in prio && t !in s.waiters && (i.all || i.any)
    case Expire(k) => k < |s.waiters|
    case _ => true
  }

  ghost predicate Sound(s: E.State, prio: Priorities) {
    E.Informed(s.waiters, s.info) && Known(s.waiters, prio)
  }

  /** The state after a step.  Where the state functions are not defined, which no run reaches, nothing happens. */
  ghost function After(flag: Flag, s: E.State, prio: Priorities, step: Step): E.State
    requires Enabled(s, prio, step)
  {
    if !Sound(s, prio) then s
    else match step
    case Send(bits) => E.Sent(s, bits).0
    case Recv(t, i, wait) => E.Recv(flag, s, prio, t, i, wait).0
    case Expire(k) => s.(waiters := Dropped(s.waiters, k))
    case Reset => E.State({}, [], s.info)
  }

  /** No sleeping thread's condition holds. */
  ghost predicate Inv(s: E.State, prio: Priorities) {
    && Sound(s, prio) && NoDup(s.waiters) && Asked(s.waiters, s.info)
    && forall t :: t in s.waiters ==> t in s.info && !E.Met(s.bits, s.info[t])
  }

  lemma SendInv(s: E.State, prio: Priorities, bits: Bits)
    requires Inv(s, prio)
    ensures Inv(E.Sent(s, bits).0, prio)
  {
    if bits != {} {
      SweepUnmet(s.bits + bits, s.waiters, s.info);
      KeptInOrder(s.bits + bits, s.waiters, s.info);
      var r := E.Sweep(s.bits + bits, s.waiters, s.info);
      forall t | t in r.kept
        ensures t in r.info && !E.Met(r.e, r.info[t]) && t in prio && (r.info[t].all || r.info[t].any)
      {
        var k :| 0 <= k < |r.kept| && r.kept[k] == t;
        var j :| 0 <= j < |s.waiters| && s.waiters[j] == t;
      }
    }
  }

  lemma {:induction false} KeptInOrder(e: Bits, ws: seq<Tid>, info: map<Tid, Info>)
    requires E.Informed(ws, info) && NoDup(ws)
    ensures NoDup(E.Sweep(e, ws, info).kept)
  {
    if ws != [] {
      var t, i := ws[0], info[ws[0]];
      assert forall k :: 0 < k < |ws| ==> ws[k] == ws[1..][k - 1];
      if E.Met(e, i) {
        KeptInOrder(e - E.Cleared(e, i), ws[1..], info[t := i.(want := E.Got(e, i))]);
      } else {
        var kept := E.Sweep(e, ws[1..], info).kept;
        KeptInOrder(e, ws[1..], info);
        SweepUnmet(e, ws[1..], info);
        assert t !in ws[1..] && t !in kept;
        InFront(t, kept);
        assert E.Sweep(e, ws, info).kept == [t] + kept;
      }
    }
  }

  lemma InFront(t: Tid, ws: seq<Tid>)
    requires NoDup(ws) && t !in ws
    ensures NoDup([t] + ws)
  {
  }

  lemma RecvInv(flag: Flag, s: E.State, prio: Priorities, t: Tid, i: Info, wait: bool)
    requires Inv(s, prio) && Enabled(s, prio, Recv(t, i, wait))
    ensures Inv(E.Recv(flag, s, prio, t, i, wait).0, prio)
  {
    var s' := E.Recv(flag, s, prio, t, i, wait).0;
    if i.want == {} {
    } else if E.Met(s.bits, i) {
      forall u | u in s.waiters
        ensures !E.Met(s'.bits, s.info[u])
      {
        if E.Met(s'.bits, s.info[u]) {
          MetMonotone(s'.bits, s.bits, s.info[u]);
        }
      }
    } else if wait {
      var k := Place(flag, s.waiters, prio, t);
      InsertMembers(s.waiters, k, t);
      forall j | 0 <= j < |s'.waiters|
        ensures s'.waiters[j] in s'.info && s'.waiters[j] in prio
      {
        assert s'.waiters[j] in s'.waiters;
      }
    }
  }

  lemma ExpireInv(s: E.State, prio: Priorities, k: nat)
    requires Inv(s, prio) && k < |s.waiters|
    ensures Inv(s.(waiters := Dropped(s.waiters, k)), prio)
  {
    var ws := Dropped(s.waiters, k);
    assert forall i :: 0 <= i < |ws| ==> ws[i] == s.waiters[if i < k then i else i + 1];
  }

  lemma StepInv(flag: Flag, s: E.State, prio: Priorities, step: Step)
    requires Inv(s, prio) && Enabled(s, prio, step)
    ensures Inv(After(flag, s, prio, step), prio)
  {
    match step
    case Send(bits) => SendInv(s, prio, bits);
    case Recv(t, i, wait) => RecvInv(flag, s, prio, t, i, wait);
    case Expire(k) => ExpireInv(s, prio, k);
    case Reset =>
  }

  ghost predicate Moves(flag: Flag, s: E.State, prio: Priorities, step: Step, s': E.State) {
    Enabled(s, prio, step) && s' == After(flag, s, prio, step)
  }

  ghost predicate Run(flag: Flag, prio: Priorities, run: seq<E.State>, steps: seq<Step>) {
    && |run| == |steps| + 1 && run[0] == E.State({}, [], map[])
    && forall i, j :: 0 <= i && j == i + 1 < |run| ==> Moves(flag, run[i], prio, steps[i], run[j])
  }

  lemma {:induction false} RunInv(flag: Flag, prio: Priorities, run: seq<E.State>, steps: seq<Step>, n: nat)
    requires Run(flag, prio, run, steps) && n < |run|
    ensures Inv(run[n], prio)
  {
    if n > 0 {
      RunInv(flag, prio, run, steps, n - 1);
      assert Moves(flag, run[n - 1], prio, steps[n - 1], run[n]);
      StepInv(flag, run[n - 1], prio, steps[n - 1]);
    }
  }

  /** In every reachable state a thread that sleeps with AND lacks a bit, and one with OR alone has none of its bits. */
  lemma NoSatisfiedSleeper(flag: Flag, prio: Priorities, run: seq<E.State>, steps: seq<Step>, n: nat, t: Tid)
    requires Run(flag, prio, run, steps) && n < |run| && t in run[n].waiters
    ensures t in run[n].info
    ensures var e, i := run[n].bits, run[n].info[t];
            && (i.all ==> exists b :: b in i.want && b !in e)
            && (!i.all ==> i.any && forall b :: b in i.want ==> b !in e)
  {
    RunInv(flag, prio, run, steps, n);
    var k :| 0 <= k < |run[n].waiters| && run[n].waiters[k] == t;
    MetIff(run[n].bits, run[n].info[t]);
  }

  /**
   * A receive that may not find its bits: it is delivered exactly the wanted bits that are set, and with CLEAR takes them
   * along, if it lacks nothing; otherwise it fails and nothing changes, or the thread sleeps.
   */
  lemma ReceiveOutcome(flag: Flag, s: E.State, prio: Priorities, t: Tid, i: Info, wait: bool)
    requires Inv(s, prio) && Enabled(s, prio, Recv(t, i, wait))
    ensures var (s', r) := E.Recv(flag, s, prio, t, i, wait);
            && (i.want == {} ==> r.Failed? && s' == s)
            && (i.want != {} ==> (r.Received? <==> !Lacks(s.bits, i)))
            && (r.Received? ==> exists cleared :: Delivered(s.bits, i, r.got, cleared) && s' == s.(bits := s.bits - cleared))
            && (i.want != {} && Lacks(s.bits, i) && !wait ==> r.Timeout? && s' == s)
            && (i.want != {} && Lacks(s.bits, i) && wait ==>
                  && r.Suspended? && s'.bits == s.bits && s'.info == s.info[t := i]
                  && forall w: Tid :: w in s'.waiters <==> w == t || w in s.waiters)
  {
    hide Lacks;
    MetIff(s.bits, i);
    if i.want != {} && E.Met(s.bits, i) {
      var cleared := if i.clear then s.bits * i.want else {};
      assert Delivered(s.bits, i, s.bits * i.want, cleared);
      assert E.ReceiveNow(s.bits, i).0 == s.bits - cleared;
    } else if i.want != {} && wait {
      InsertMembers(s.waiters, Place(flag, s.waiters, prio, t), t);
    }
  }

  /** A send adds its bits, and the waiters are served in turn; a thread that was resumed finds its bits. */
  lemma SendOutcome(s: E.State, prio: Priorities, bits: Bits)
    requires Inv(s, prio)
    ensures var (s', woken) := E.Sent(s, bits);
            if bits == {} then s' == s && woken == []
            else InTurn(s.bits + bits, s.waiters, s.info, woken, s'.waiters) && s'.bits + Spent(woken) == s.bits + bits
                 && s'.bits !! Spent(woken)
                 && Found(woken, s'.info)
  {
    if bits != {} {
      SweepFound(s.bits + bits, s.waiters, s.info);
      SweepInTurn(s.bits + bits, s.waiters, s.info);
      SweepAccounts(s.bits + bits, s.waiters, s.info);
      SpentApart(E.Sent(s, bits).1, E.Sent(s, bits).0.bits);
    }
  }

  /** The resumed threads find in event_set what they got. */
  ghost predicate Found(woken: seq<E.Wakeup>, info: map<Tid, Info>) {
    forall k :: 0 <= k < |woken| ==> woken[k].t in info && info[woken[k].t].want == woken[k].got
  }

  lemma {:induction false} SweepFound(e: Bits, ws: seq<Tid>, info: map<Tid, Info>)
    requires E.Informed(ws, info) && NoDup(ws)
    ensures var r := E.Sweep(e, ws, info); Found(r.woken, r.info)
  {
    if ws != [] {
      var t, i := ws[0], info[ws[0]];
      assert forall k :: 0 < k < |ws| ==> ws[k] == ws[1..][k - 1];
      if E.Met(e, i) {
        var e', info' := e - E.Cleared(e, i), info[t := i.(want := E.Got(e, i))];
        SweepFound(e', ws[1..], info');
        SweepUnmet(e', ws[1..], info');
      } else {
        hide Found;
        SweepFound(e, ws[1..], info);
      }
    }
  }

  lemma {:induction false} SpentApart(woken: seq<E.Wakeup>, left: Bits)
    requires forall i :: 0 <= i < |woken| ==> woken[i].cleared !! left
    ensures Spent(woken) !! left
  {
    if woken != [] {
      SpentApart(woken[1..], left);
    }
  }
}
