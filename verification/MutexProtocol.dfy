/** Any number of threads on one mutex: exclusion, ownership and priority inheritance over every interleaving. */
module MutexProtocol {
  import opened Prelude
  import opened IpcList
  import M = Mutex

  /**
   * The mutex with history: the priority each thread came with, when each waiter arrived, and how many of a thread's takes
   * have succeeded and were not released yet.
   */
  datatype Machine = Machine(m: M.State, base: Priorities, clock: nat, arrived: map<Tid, nat>, depth: map<Tid, nat>)

  datatype Step = Take(t: Tid, wait: bool) | Release(t: Tid) | Expire(k: nat)

  function Depth(d: map<Tid, nat>, t: Tid): nat {
    if t in d then d[t] else 0
  }

  function Entered(d: map<Tid, nat>, o: Option<Tid>): map<Tid, nat> {
    if o.Some? then d[o.value := Depth(d, o.value) + 1] else d
  }

  /** A thread that is asleep on the list takes no step; the eight-bit hold count does not wrap. */
  ghost predicate Enabled(x: Machine, step: Step) {
    match step
    case Take(t, _) => t in x.m.prio && t !in x.m.waiters && x.m.hold < 255
    case Release(t) => t in x.m.prio && t !in x.m.waiters
    case Expire(k) => k < |x.m.waiters|
  }

  /** What the state functions need. */
  ghost predicate Sound(m: M.State) {
    M.Closed(m) && (m.owner.Some? ==> m.hold > 0)
  }

  /** The state after a step.  Where the state functions are not defined, which no run reaches, nothing happens. */
  ghost function After(flag: Flag, x: Machine, step: Step): Machine
    requires Enabled(x, step)
  {
    if !Sound(x.m) then x
    else match step
    case Take(t, wait) =>
      var (m, r) := M.Take(flag, x.m, t, wait);
      if r.Done? then x.(m := m, depth := Entered(x.depth, Some(t)))
      else if r.Refused? then x.(m := m)
      else x.(m := m, arrived := x.arrived[t := x.clock], clock := x.clock + 1)
    case Release(t) =>
      var (m, ok) := M.Release(x.m, t);
      if !ok then x.(m := m)
      else
        var d := x.depth[t := if Depth(x.depth, t) > 0 then Depth(x.depth, t) - 1 else 0];
        x.(m := m, depth := if m.owner == Some(t) then d else Entered(d, m.owner))
    case Expire(k) => x.(m := M.Expire(x.m, k))
  }

  function Start(prio: Priorities): Machine {
    Machine(M.State(1, None, M.NO_PRIORITY, 0, [], prio), prio, 0, map[], map[])
  }

  // ----- the invariant

  /** owner is null iff value is 1 iff hold is 0, and only an owned mutex has waiters. */
  ghost predicate Ownership(m: M.State) {
    && (m.owner.None? <==> m.value == 1) && (m.owner.None? <==> m.hold == 0) && m.value <= 1
    && (m.waiters != [] ==> m.owner.Some?)
    && (m.owner.Some? ==> m.owner.value !in m.waiters)
    && NoDup(m.waiters)
  }

  /** Exactly the owner is inside, as often as hold says. */
  ghost predicate Ledger(x: Machine) {
    forall t: Tid :: Depth(x.depth, t) == if x.m.owner == Some(t) then x.m.hold else 0
  }

  /** Only the owner's priority may differ from the one it came with; it was only raised, and original remembers. */
  ghost predicate Inherited(x: Machine) {
    && x.m.prio.Keys == x.base.Keys
    && (forall t :: t in x.m.prio && x.m.owner != Some(t) ==> x.m.prio[t] == x.base[t])
    && (x.m.owner.Some? ==>
          && x.m.owner.value in x.base && x.m.original == x.base[x.m.owner.value]
          && x.m.prio[x.m.owner.value] <= x.base[x.m.owner.value])
  }

  ghost predicate Queue(flag: Flag, x: Machine) {
    Ordered(flag, x.m.waiters, x.m.prio, x.arrived)
    && forall i :: 0 <= i < |x.m.waiters| ==> x.arrived[x.m.waiters[i]] < x.clock
  }

  /** The owner is at least as urgent as every waiter. */
  ghost predicate OwnerUrgent(m: M.State) {
    forall w :: w in m.waiters ==> m.owner.Some? && m.owner.value in m.prio && w in m.prio && m.prio[m.owner.value] <= m.prio[w]
  }

  ghost predicate Inv(flag: Flag, x: Machine) {
    && Sound(x.m) && Ownership(x.m) && Ledger(x) && Inherited(x) && Queue(flag, x)
    && (flag.Prio? ==> OwnerUrgent(x.m))
  }

  lemma StartInv(flag: Flag, prio: Priorities)
    ensures Inv(flag, Start(prio))
  {
  }

  /** Priorities that agree on the waiters order them alike. */
  lemma OrderedSame(flag: Flag, ws: seq<Tid>, p: Priorities, q: Priorities, arrived: map<Tid, nat>)
    requires Ordered(flag, ws, p, arrived)
    requires forall i :: 0 <= i < |ws| ==> ws[i] in q && q[ws[i]] == p[ws[i]]
    ensures Ordered(flag, ws, q, arrived)
  {
    forall i, j | 0 <= i < j < |ws|
      ensures if flag.Fifo? then arrived[ws[i]] < arrived[ws[j]] else Before(q, arrived, ws[i], ws[j])
    {
      assert flag.Prio? ==> Before(p, arrived, ws[i], ws[j]);
    }
  }

  /** The waiters after thread t went to sleep. */
  lemma SleepList(flag: Flag, x: Machine, t: Tid)
    requires Inv(flag, x) && Enabled(x, Take(t, true)) && x.m.owner != Some(t) && x.m.value == 0
    ensures var ws', o := After(flag, x, Take(t, true)).m.waiters, x.m.owner.value;
            NoDup(ws') && o !in ws' && ws' != [] && forall w :: w in ws' <==> w == t || w in x.m.waiters
  {
    var ws, ws' := x.m.waiters, After(flag, x, Take(t, true)).m.waiters;
    var k :| 0 <= k <= |ws| && ws' == InsertAt(ws, k, t);
    InsertMembers(ws, k, t);
  }

  lemma SleepQueue(flag: Flag, x: Machine, t: Tid)
    requires Inv(flag, x) && Enabled(x, Take(t, true)) && x.m.owner != Some(t) && x.m.value == 0
    ensures Queue(flag, After(flag, x, Take(t, true)))
  {
    var x', ws := After(flag, x, Take(t, true)), x.m.waiters;
    OrderedSame(flag, ws, x.m.prio, x'.m.prio, x.arrived);
    SuspendKeepsOrder(flag, ws, x'.m.prio, x.arrived, t, x.clock);
    SleepList(flag, x, t);
    forall i | 0 <= i < |x'.m.waiters|
      ensures x'.arrived[x'.m.waiters[i]] < x'.clock
    {
      assert x'.m.waiters[i] in x'.m.waiters;
    }
  }

  lemma SleepInv(flag: Flag, x: Machine, t: Tid)
    requires Inv(flag, x) && Enabled(x, Take(t, true)) && x.m.owner != Some(t) && x.m.value == 0
    ensures Inv(flag, After(flag, x, Take(t, true)))
  {
    SleepList(flag, x, t);
    SleepQueue(flag, x, t);
    assert After(flag, x, Take(t, true)).m.prio.Keys == x.base.Keys;
  }

  lemma ExpireInv(flag: Flag, x: Machine, k: nat)
    requires Inv(flag, x) && k < |x.m.waiters|
    ensures Inv(flag, After(flag, x, Expire(k)))
  {
    var ws := x.m.waiters;
    var ws' := Dropped(ws, k);
    DropKeepsOrder(flag, ws, x.m.prio, x.arrived, k);
    assert forall i :: 0 <= i < |ws'| ==> ws'[i] == ws[if i < k then i else i + 1];
    assert forall w :: w in ws' ==> w in ws;
  }

  lemma TakeInv(flag: Flag, x: Machine, t: Tid, wait: bool)
    requires Inv(flag, x) && Enabled(x, Take(t, wait)) && (x.m.owner == Some(t) || x.m.value > 0)
    ensures Inv(flag, After(flag, x, Take(t, wait)))
  {
  }

  lemma HandOffQueue(flag: Flag, x: Machine, t: Tid)
    requires Inv(flag, x) && Enabled(x, Release(t)) && x.m.owner == Some(t) && x.m.hold == 1 && x.m.waiters != []
    ensures Queue(flag, After(flag, x, Release(t)))
  {
    var x', ws := After(flag, x, Release(t)), x.m.waiters;
    assert ws[1..] == Dropped(ws, 0);
    assert forall w :: w in ws ==> w != t && x'.m.prio[w] == x.m.prio[w];
    DropKeepsOrder(flag, ws, x.m.prio, x.arrived, 0);
    OrderedSame(flag, ws[1..], x.m.prio, x'.m.prio, x.arrived);
  }

  /** The others keep their priorities, and the first waiter is not among the rest. */
  lemma HandOffRest(flag: Flag, x: Machine, t: Tid)
    requires Inv(flag, x) && Enabled(x, Release(t)) && x.m.owner == Some(t) && x.m.hold == 1 && x.m.waiters != []
    ensures var m', ws := After(flag, x, Release(t)).m, x.m.waiters;
            && m'.owner == Some(ws[0]) && m'.waiters == ws[1..] && m'.prio == x.m.prio[t := x.base[t]]
            && (forall w :: w in ws[1..] ==> w in ws && w != ws[0] && w != t)
            && (flag.Prio? ==> forall w :: w in ws[1..] ==> m'.prio[ws[0]] <= m'.prio[w])
  {
    var ws := x.m.waiters;
    forall w | w in ws[1..]
      ensures w in ws && w != ws[0] && w != t && (flag.Prio? ==> x.m.prio[ws[0]] <= x.m.prio[w])
    {
      var i :| 1 <= i < |ws| && ws[i] == w;
      assert flag.Prio? ==> Before(x.m.prio, x.arrived, ws[0], ws[i]);
    }
  }

  /** The owner lets go and the first waiter gets the mutex. */
  lemma HandOffInv(flag: Flag, x: Machine, t: Tid)
    requires Inv(flag, x) && Enabled(x, Release(t)) && x.m.owner == Some(t) && x.m.hold == 1 && x.m.waiters != []
    ensures Inv(flag, After(flag, x, Release(t)))
  {
    HandOffQueue(flag, x, t);
    HandOffRest(flag, x, t);
    assert After(flag, x, Release(t)).m.prio.Keys == x.base.Keys;
  }

  lemma ReleaseInv(flag: Flag, x: Machine, t: Tid)
    requires Inv(flag, x) && Enabled(x, Release(t))
    ensures Inv(flag, After(flag, x, Release(t)))
  {
    if x.m.owner == Some(t) && x.m.hold == 1 && x.m.waiters != [] {
      HandOffInv(flag, x, t);
    } else if x.m.owner == Some(t) && x.m.hold == 1 {
      assert x.m.prio[t := x.m.original].Keys == x.base.Keys;
    }
  }

  lemma StepInv(flag: Flag, x: Machine, step: Step)
    requires Inv(flag, x) && Enabled(x, step)
    ensures Inv(flag, After(flag, x, step))
  {
    match step
    case Take(t, wait) =>
      if x.m.owner == Some(t) || x.m.value > 0 {
        TakeInv(flag, x, t, wait);
      } else if wait {
        SleepInv(flag, x, t);
      }
    case Release(t) => ReleaseInv(flag, x, t);
    case Expire(k) => ExpireInv(flag, x, k);
  }

  // ----- runs

  ghost predicate Moves(flag: Flag, x: Machine, step: Step, x': Machine) {
    Enabled(x, step) && x' == After(flag, x, step)
  }

  /** run[i + 1] is the state after steps[i]. */
  ghost predicate Run(flag: Flag, prio: Priorities, run: seq<Machine>, steps: seq<Step>) {
    && |run| == |steps| + 1 && run[0] == Start(prio)
    && forall i, j :: 0 <= i && j == i + 1 < |run| ==> Moves(flag, run[i], steps[i], run[j])
  }

  lemma {:induction false} RunInv(flag: Flag, prio: Priorities, run: seq<Machine>, steps: seq<Step>, n: nat)
    requires Run(flag, prio, run, steps) && n < |run|
    ensures Inv(flag, run[n]) && run[n].base == prio
  {
    if n == 0 {
      StartInv(flag, prio);
    } else {
      RunInv(flag, prio, run, steps, n - 1);
      assert Moves(flag, run[n - 1], steps[n - 1], run[n]);
      StepInv(flag, run[n - 1], steps[n - 1]);
    }
  }

  lemma OneMove(flag: Flag, prio: Priorities, run: seq<Machine>, steps: seq<Step>, n: nat)
    requires Run(flag, prio, run, steps) && n + 1 < |run|
    ensures n < |steps| < |run| && Inv(flag, run[n]) && Enabled(run[n], steps[n]) && run[n + 1] == After(flag, run[n], steps[n])
  {
    RunInv(flag, prio, run, steps, n);
    assert Moves(flag, run[n], steps[n], run[n + 1]);
  }

  // ----- what each call does, over every run

  /** No thread but t is inside. */
  ghost predicate OthersOut(x: Machine, t: Tid) {
    forall u: Tid :: u != t ==> Depth(x.depth, u) == 0
  }

  /** Every thread but t is inside as often as before. */
  ghost predicate OthersStay(x: Machine, t: Tid, x': Machine) {
    forall u: Tid :: u != t ==> Depth(x'.depth, u) == Depth(x.depth, u)
  }

  /** Thread t joins the sleepers, the owner becomes at least as urgent as t, and no other priority changes. */
  ghost predicate FallsAsleep(x: Machine, t: Tid, x': Machine) {
    && x'.depth == x.depth && (forall w: Tid :: w in x'.m.waiters <==> w == t || w in x.m.waiters)
    && x.m.prio.Keys == x'.m.prio.Keys && t in x.m.prio
    && (forall u :: u in x.m.prio ==>
          x'.m.prio[u] == if Depth(x.depth, u) > 0 && x.m.prio[t] < x.m.prio[u] then x.m.prio[t] else x.m.prio[u])
  }

  lemma OwnerInside(flag: Flag, x: Machine, t: Tid)
    requires Inv(flag, x)
    ensures OthersOut(x, t) <==> x.m.owner == Some(t) || x.m.value > 0
  {
    if x.m.owner.Some? && x.m.owner != Some(t) {
      assert Depth(x.depth, x.m.owner.value) > 0;
    }
  }

  lemma TakeSleeps(flag: Flag, x: Machine, t: Tid)
    requires Inv(flag, x) && Enabled(x, Take(t, true)) && x.m.owner != Some(t) && x.m.value == 0
    ensures FallsAsleep(x, t, After(flag, x, Take(t, true)))
  {
    SleepList(flag, x, t);
  }

  /**
   * A thread that takes the mutex is inside once more, and is not put to sleep, if and only if no other thread is inside;
   * otherwise it is refused and nothing changes, if it may not wait, or it sleeps.
   */
  lemma TakeOutcome(flag: Flag, prio: Priorities, run: seq<Machine>, steps: seq<Step>, n: nat, t: Tid, wait: bool)
    requires Run(flag, prio, run, steps) && n < |steps| && steps[n] == Take(t, wait)
    ensures var x, x' := run[n], run[n + 1];
            && OthersStay(x, t, x')
            && (Depth(x'.depth, t) == Depth(x.depth, t) + 1 <==> OthersOut(x, t))
            && (OthersOut(x, t) ==> x'.m.waiters == x.m.waiters && x'.m.prio == x.m.prio)
            && (!OthersOut(x, t) && !wait ==> x' == x)
            && (!OthersOut(x, t) && wait ==> FallsAsleep(x, t, x'))
  {
    OneMove(flag, prio, run, steps, n);
    hide Inv, OthersOut;
    OwnerInside(flag, run[n], t);
    TakeInside(flag, run[n], t, wait);
    if run[n].m.owner != Some(t) && run[n].m.value == 0 && wait {
      TakeSleeps(flag, run[n], t);
    }
  }

  lemma TakeInside(flag: Flag, x: Machine, t: Tid, wait: bool)
    requires Inv(flag, x) && Enabled(x, Take(t, wait))
    ensures var x' := After(flag, x, Take(t, wait));
            && OthersStay(x, t, x')
            && if x.m.owner == Some(t) || x.m.value > 0 then
                 Depth(x'.depth, t) == Depth(x.depth, t) + 1 && x'.m.waiters == x.m.waiters && x'.m.prio == x.m.prio
               else x'.depth == x.depth && (!wait ==> x' == x)
  {
  }

  /**
   * A thread that releases the mutex is inside once less if it was inside, and otherwise nothing changes.  When it has left,
   * it has its own priority again and the first waiter is inside, once; if nobody waits, nobody is.
   */
  lemma ReleaseOutcome(flag: Flag, prio: Priorities, run: seq<Machine>, steps: seq<Step>, n: nat, t: Tid)
    requires Run(flag, prio, run, steps) && n < |steps| && steps[n] == Release(t)
    ensures var x, x', d := run[n], run[n + 1], Depth(run[n].depth, t);
            && (d == 0 ==> x' == x)
            && (d > 0 ==> Depth(x'.depth, t) == d - 1)
            && (d > 1 ==> OthersStay(x, t, x') && x'.m.waiters == x.m.waiters && x'.m.prio == x.m.prio)
            && (d == 1 && x.m.waiters == [] ==> OthersStay(x, t, x') && x'.m.waiters == [])
            && (d == 1 && x.m.waiters != [] ==> Depth(x'.depth, x.m.waiters[0]) == 1 && x'.m.waiters == x.m.waiters[1..]
                                                && OthersOut(x', x.m.waiters[0]))
            && (d == 1 ==> t in prio && x'.m.prio == x.m.prio[t := prio[t]])
  {
    RunInv(flag, prio, run, steps, n);
    OneMove(flag, prio, run, steps, n);
    ReleaseInside(flag, run[n], t);
  }

  lemma ReleaseInside(flag: Flag, x: Machine, t: Tid)
    requires Inv(flag, x) && Enabled(x, Release(t))
    ensures var x', d := After(flag, x, Release(t)), Depth(x.depth, t);
            && (d == 0 ==> x' == x)
            && (d > 0 ==> Depth(x'.depth, t) == d - 1)
            && (d > 1 ==> OthersStay(x, t, x') && x'.m.waiters == x.m.waiters && x'.m.prio == x.m.prio)
            && (d == 1 && x.m.waiters == [] ==> OthersStay(x, t, x') && x'.m.waiters == [])
            && (d == 1 && x.m.waiters != [] ==> Depth(x'.depth, x.m.waiters[0]) == 1 && x'.m.waiters == x.m.waiters[1..]
                                                && OthersOut(x', x.m.waiters[0]))
            && (d == 1 ==> t in x.base && x'.m.prio == x.m.prio[t := x.base[t]])
  {
    hide Queue, OwnerUrgent;
    assert Depth(x.depth, t) == if x.m.owner == Some(t) then x.m.hold else 0;
    if Depth(x.depth, t) == 1 && x.m.waiters != [] {
      HandOffRest(flag, x, t);
      ReleaseInv(flag, x, t);
    }
  }

  /** A waiter that is timed out sleeps no more; nobody else moves, and nobody gets in. */
  lemma ExpireOutcome(flag: Flag, prio: Priorities, run: seq<Machine>, steps: seq<Step>, n: nat, k: nat)
    requires Run(flag, prio, run, steps) && n < |steps| && steps[n] == Expire(k)
    ensures var x, x' := run[n], run[n + 1];
            && k < |x.m.waiters| && x'.depth == x.depth && x'.m.prio == x.m.prio
            && forall w: Tid :: w in x'.m.waiters <==> w in x.m.waiters && w != x.m.waiters[k]
  {
    OneMove(flag, prio, run, steps, n);
    DroppedMembers(run[n].m.waiters, k);
  }

  /** At most one thread is inside. */
  lemma Exclusion(flag: Flag, prio: Priorities, run: seq<Machine>, steps: seq<Step>, n: nat, t: Tid, u: Tid)
    requires Run(flag, prio, run, steps) && n < |run|
    requires Depth(run[n].depth, t) > 0 && Depth(run[n].depth, u) > 0
    ensures t == u && run[n].m.owner == Some(t) && run[n].m.hold == Depth(run[n].depth, t)
  {
    RunInv(flag, prio, run, steps, n);
  }

  /** A thread that is not inside has the priority it started with, whatever it inherited meanwhile. */
  lemma PriorityRestored(flag: Flag, prio: Priorities, run: seq<Machine>, steps: seq<Step>, n: nat, t: Tid)
    requires Run(flag, prio, run, steps) && n < |run| && t in prio && Depth(run[n].depth, t) == 0
    ensures t in run[n].m.prio && run[n].m.prio[t] == prio[t]
  {
    RunInv(flag, prio, run, steps, n);
  }

  /** With a priority list no waiter is ever more urgent than the owner: not even right after a hand-off. */
  lemma NoInversion(prio: Priorities, run: seq<Machine>, steps: seq<Step>, n: nat, w: Tid)
    requires Run(Prio, prio, run, steps) && n < |run| && w in run[n].m.waiters
    ensures run[n].m.owner.Some? && run[n].m.owner.value in run[n].m.prio && w in run[n].m.prio
    ensures run[n].m.prio[run[n].m.owner.value] <= run[n].m.prio[w]
  {
    RunInv(Prio, prio, run, steps, n);
  }

  // ----- what a first-come list loses

  /** No waiter is more urgent than the first. */
  ghost predicate FirstUrgent(m: M.State) {
    forall i :: 0 <= i < |m.waiters| && m.waiters[0] in m.prio && m.waiters[i] in m.prio ==>
      m.prio[m.waiters[0]] <= m.prio[m.waiters[i]]
  }

  /** After a hand-off the owner is as urgent as all waiters exactly if the first waiter was the most urgent one. */
  lemma HandOffUrgentIff(flag: Flag, x: Machine, t: Tid)
    requires Inv(flag, x) && Enabled(x, Release(t)) && x.m.owner == Some(t) && x.m.hold == 1 && x.m.waiters != []
    ensures OwnerUrgent(After(flag, x, Release(t)).m) <==> FirstUrgent(x.m)
  {
    HandOffInv(flag, x, t);
    var x', ws := After(flag, x, Release(t)), x.m.waiters;
    assert forall w :: w in ws ==> w != t && x'.m.prio[w] == x.m.prio[w];
    assert forall i :: 1 <= i < |ws| ==> ws[i] == ws[1..][i - 1] && ws[i] in ws[1..];
  }

  /** The owner's last release, while threads wait. */
  ghost predicate HandsOff(x: Machine, step: Step) {
    step.Release? && x.m.owner == Some(step.t) && x.m.hold == 1 && x.m.waiters != []
  }

  lemma SleepUrgent(flag: Flag, x: Machine, t: Tid)
    requires Inv(flag, x) && Enabled(x, Take(t, true)) && x.m.owner != Some(t) && x.m.value == 0 && OwnerUrgent(x.m)
    ensures OwnerUrgent(After(flag, x, Take(t, true)).m)
  {
    SleepList(flag, x, t);
  }

  lemma UrgentIff(flag: Flag, x: Machine, step: Step)
    requires Inv(flag, x) && Enabled(x, step) && OwnerUrgent(x.m)
    ensures OwnerUrgent(After(flag, x, step).m) <==> (HandsOff(x, step) ==> FirstUrgent(x.m))
  {
    if HandsOff(x, step) {
      HandOffUrgentIff(flag, x, step.t);
    } else {
      match step
      case Take(t, wait) =>
        if wait && x.m.owner != Some(t) && x.m.value == 0 {
          SleepUrgent(flag, x, t);
        }
      case Expire(k) =>
        assert forall w :: w in Dropped(x.m.waiters, k) ==> w in x.m.waiters;
      case Release(t) =>
    }
  }

  ghost predicate UrgentUpTo(run: seq<Machine>, n: nat)
    requires n < |run|
  {
    forall i :: 0 <= i <= n ==> OwnerUrgent(run[i].m)
  }

  /** Whenever the mutex was handed on in the first n steps, the first waiter was the most urgent. */
  ghost predicate HandedOnWell(run: seq<Machine>, steps: seq<Step>, n: nat)
    requires n <= |steps| <= |run|
  {
    forall i :: 0 <= i < n && HandsOff(run[i], steps[i]) ==> FirstUrgent(run[i].m)
  }

  lemma StartUrgent(flag: Flag, prio: Priorities, run: seq<Machine>, steps: seq<Step>)
    requires Run(flag, prio, run, steps)
    ensures UrgentUpTo(run, 0) && HandedOnWell(run, steps, 0)
  {
    assert OwnerUrgent(run[0].m);
  }

  lemma OneUrgentMore(run: seq<Machine>, steps: seq<Step>, n: nat)
    requires n < |steps| < |run|
    ensures UrgentUpTo(run, n + 1) <==> UrgentUpTo(run, n) && OwnerUrgent(run[n + 1].m)
    ensures UrgentUpTo(run, n) ==> OwnerUrgent(run[n].m)
    ensures HandedOnWell(run, steps, n + 1)
       <==> HandedOnWell(run, steps, n) && (HandsOff(run[n], steps[n]) ==> FirstUrgent(run[n].m))
  {
    hide OwnerUrgent, HandsOff, FirstUrgent;
  }

  /**
   * Over a run, for either flag, the owner is at all times as urgent as every waiter, if and only if the mutex is handed
   * on to the most urgent waiter each time.
   */
  lemma {:induction false} RunUrgentIff(flag: Flag, prio: Priorities, run: seq<Machine>, steps: seq<Step>, n: nat)
    requires Run(flag, prio, run, steps) && n < |run|
    ensures UrgentUpTo(run, n) <==> HandedOnWell(run, steps, n)
  {
    hide Run, Inv, OwnerUrgent, Enabled, After, UrgentUpTo, HandedOnWell, HandsOff, FirstUrgent;
    if n == 0 {
      StartUrgent(flag, prio, run, steps);
    } else {
      OneMove(flag, prio, run, steps, n - 1);
      OneUrgentMore(run, steps, n - 1);
      RunUrgentIff(flag, prio, run, steps, n - 1);
      if OwnerUrgent(run[n - 1].m) {
        UrgentIff(flag, run[n - 1], steps[n - 1]);
      }
    }
  }

  /** Three threads on a first-come mutex: thread 1 (priority 20) is handed the mutex while thread 2 (priority 5) waits. */
  lemma FifoInversion()
    ensures var prio: Priorities := map[0 := 10, 1 := 20, 2 := 5];
            var x0 := Start(prio);
            && Enabled(x0, Take(0, true))
            && var x1 := After(Fifo, x0, Take(0, true));
            && Enabled(x1, Take(1, true))
            && var x2 := After(Fifo, x1, Take(1, true));
            && Enabled(x2, Take(2, true))
            && var x3 := After(Fifo, x2, Take(2, true));
            && Enabled(x3, Release(0)) && x3.m.waiters == [1, 2]
            && var x4 := After(Fifo, x3, Release(0));
            x4.m.owner == Some(1) && x4.m.waiters == [2] && !OwnerUrgent(x4.m)
  {
    hide After;
    var prio: Priorities := map[0 := 10, 1 := 20, 2 := 5];
    var x1 := After(Fifo, Start(prio), Take(0, true));
    FirstTakes(Start(prio));
    var x2 := After(Fifo, x1, Take(1, true));
    SecondWaits(x1);
    var x3 := After(Fifo, x2, Take(2, true));
    ThirdWaits(x2);
    SecondIsNext(x3);
    assert 2 in After(Fifo, x3, Release(0)).m.waiters;
  }

  lemma FirstTakes(x: Machine)
    requires x.m == M.State(1, None, M.NO_PRIORITY, 0, [], map[0 := 10, 1 := 20, 2 := 5])
    ensures After(Fifo, x, Take(0, true)).m == M.State(0, Some(0), 10, 1, [], map[0 := 10, 1 := 20, 2 := 5])
  {
  }

  lemma SecondWaits(x: Machine)
    requires x.m == M.State(0, Some(0), 10, 1, [], map[0 := 10, 1 := 20, 2 := 5])
    ensures After(Fifo, x, Take(1, true)).m == M.State(0, Some(0), 10, 1, [1], map[0 := 10, 1 := 20, 2 := 5])
  {
  }

  lemma SecondIsNext(x: Machine)
    requires x.m == M.State(0, Some(0), 10, 1, [1, 2], map[0 := 5, 1 := 20, 2 := 5])
    ensures After(Fifo, x, Release(0)).m == M.State(0, Some(1), 20, 1, [2], map[0 := 10, 1 := 20, 2 := 5])
  {
    assert [1, 2][1..] == [2] && x.m.prio[0 := 10] == map[0 := 10, 1 := 20, 2 := 5];
  }

  lemma ThirdWaits(x: Machine)
    requires x.m == M.State(0, Some(0), 10, 1, [1], map[0 := 10, 1 := 20, 2 := 5])
    ensures After(Fifo, x, Take(2, true)).m == M.State(0, Some(0), 10, 1, [1, 2], map[0 := 5, 1 := 20, 2 := 5])
  {
    assert x.m.prio[0 := 5] == map[0 := 5, 1 := 20, 2 := 5];
  }

  // ----- where an inherited priority comes from

  /** The owner's priority is its own or that of a thread that still waits. */
  ghost predicate Justified(x: Machine) {
    x.m.owner.Some? && x.m.owner.value in x.m.prio && x.m.owner.value in x.base ==>
      || x.m.prio[x.m.owner.value] == x.base[x.m.owner.value]
      || exists w :: w in x.m.waiters && w in x.m.prio && x.m.prio[w] == x.m.prio[x.m.owner.value]
  }

  lemma StepJustified(flag: Flag, x: Machine, step: Step)
    requires Inv(flag, x) && Enabled(x, step) && Justified(x) && !step.Expire?
    ensures Justified(After(flag, x, step))
  {
    var x' := After(flag, x, step);
    match step
    case Take(t, wait) =>
      if wait && x.m.owner != Some(t) && x.m.value == 0 {
        SleepList(flag, x, t);
        assert t in x'.m.waiters;
      }
    case Release(t) =>
      if x.m.owner == Some(t) && x.m.hold == 1 && x.m.waiters != [] {
        HandOffRest(flag, x, t);
        assert x.m.waiters[0] in x.m.waiters;
      }
    case Expire(k) =>
  }

  /** Waiter k may leave: the owner's priority is its own, or another waiter has it too. */
  ghost predicate Spare(x: Machine, k: nat) {
    x.m.owner.Some? && x.m.owner.value in x.m.prio && x.m.owner.value in x.base ==>
      || x.m.prio[x.m.owner.value] == x.base[x.m.owner.value]
      || exists j :: 0 <= j < |x.m.waiters| && j != k && x.m.waiters[j] in x.m.prio
                     && x.m.prio[x.m.waiters[j]] == x.m.prio[x.m.owner.value]
  }

  /** A timeout keeps the owner's priority justified exactly if the waiter that leaves may do so. */
  lemma ExpireJustifiedIff(flag: Flag, x: Machine, k: nat)
    requires Inv(flag, x) && Enabled(x, Expire(k))
    ensures Justified(After(flag, x, Expire(k))) <==> Spare(x, k)
  {
    DroppedMembers(x.m.waiters, k);
    hide Dropped;
  }

  lemma DroppedMembers(ws: seq<Tid>, k: nat)
    requires k < |ws|
    ensures forall w :: w in Dropped(ws, k) <==> exists j :: 0 <= j < |ws| && j != k && ws[j] == w
  {
    var rest := Dropped(ws, k);
    forall j | 0 <= j < |ws| && j != k
      ensures ws[j] in rest
    {
      assert rest[if j < k then j else j - 1] == ws[j];
    }
    forall w | w in rest
      ensures exists j :: 0 <= j < |ws| && j != k && ws[j] == w
    {
      var i :| 0 <= i < |rest| && rest[i] == w;
      assert ws[if i < k then i else i + 1] == w;
    }
  }

  lemma JustifiedIff(flag: Flag, x: Machine, step: Step)
    requires Inv(flag, x) && Enabled(x, step) && Justified(x)
    ensures Justified(After(flag, x, step)) <==> (step.Expire? ==> Spare(x, step.k))
  {
    if step.Expire? {
      ExpireJustifiedIff(flag, x, step.k);
    } else {
      StepJustified(flag, x, step);
    }
  }

  ghost predicate JustifiedUpTo(run: seq<Machine>, n: nat)
    requires n < |run|
  {
    forall i :: 0 <= i <= n ==> Justified(run[i])
  }

  /** Whoever times out in the first n steps may leave. */
  ghost predicate SpareUpTo(run: seq<Machine>, steps: seq<Step>, n: nat)
    requires n <= |steps| <= |run|
  {
    forall i :: 0 <= i < n && steps[i].Expire? ==> Spare(run[i], steps[i].k)
  }

  /**
   * Over a run, an inherited priority always belongs to a thread that still waits, if and only if no waiter times out
   * whose priority the owner has inherited and no other waiter shares.
   */
  lemma {:induction false} RunJustifiedIff(flag: Flag, prio: Priorities, run: seq<Machine>, steps: seq<Step>, n: nat)
    requires Run(flag, prio, run, steps) && n < |run|
    ensures JustifiedUpTo(run, n) <==> SpareUpTo(run, steps, n)
  {
    hide Run, Inv, Justified, Spare, Enabled, After, JustifiedUpTo, SpareUpTo;
    if n == 0 {
      StartJustified(flag, prio, run, steps);
    } else {
      OneMove(flag, prio, run, steps, n - 1);
      OneStepMore(run, steps, n - 1);
      RunJustifiedIff(flag, prio, run, steps, n - 1);
      if Justified(run[n - 1]) {
        JustifiedIff(flag, run[n - 1], steps[n - 1]);
      }
    }
  }

  lemma StartJustified(flag: Flag, prio: Priorities, run: seq<Machine>, steps: seq<Step>)
    requires Run(flag, prio, run, steps)
    ensures JustifiedUpTo(run, 0) && SpareUpTo(run, steps, 0)
  {
    assert Justified(run[0]);
  }

  lemma OneStepMore(run: seq<Machine>, steps: seq<Step>, n: nat)
    requires n < |steps| < |run|
    ensures JustifiedUpTo(run, n + 1) <==> JustifiedUpTo(run, n) && Justified(run[n + 1])
    ensures JustifiedUpTo(run, n) ==> Justified(run[n])
    ensures SpareUpTo(run, steps, n + 1) <==> SpareUpTo(run, steps, n) && (steps[n].Expire? ==> Spare(run[n], steps[n].k))
  {
    hide Justified, Spare;
  }

  /** When a waiter gives up, the owner keeps the priority it inherited from it until it releases the mutex. */
  lemma StaleBoost()
    ensures var prio: Priorities := map[0 := 10, 1 := 5];
            var x0 := Start(prio);
            && Enabled(x0, Take(0, true))
            && var x1 := After(Prio, x0, Take(0, true));
            && Enabled(x1, Take(1, true))
            && var x2 := After(Prio, x1, Take(1, true));
            && Enabled(x2, Expire(0))
            && var x3 := After(Prio, x2, Expire(0));
            x3.m.owner == Some(0) && x3.m.waiters == [] && x3.m.prio[0] == 5 && !Justified(x3)
  {
    var prio: Priorities := map[0 := 10, 1 := 5];
    var x1 := After(Prio, Start(prio), Take(0, true));
    var x2 := After(Prio, x1, Take(1, true));
    assert x2.m.waiters == [1];
    assert After(Prio, x2, Expire(0)).m.waiters == [];
  }
}
