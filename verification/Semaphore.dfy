/** Semaphores (ipc.c): a release hands its unit to a waiter directly, so no later thread can get in between. */
module Semaphore {
  import opened Prelude
  import opened IpcList

  datatype State = State(value: nat, waiters: seq<Tid>)

  datatype Outcome = Done | Refused | Suspended

  /** rt_sem_take by thread t, up to the point where it returns or sleeps; wait says whether it may sleep. */
  function Take(flag: Flag, s: State, prio: Priorities, t: Tid, wait: bool): (State, Outcome)
    requires t in prio && forall i :: 0 <= i < |s.waiters| ==> s.waiters[i] in prio
  {
    if s.value > 0 then (s.(value := s.value - 1), Done)
    else if !wait then (s, Refused)
    else (s.(waiters := IpcList.Suspended(flag, s.waiters, prio, t)), Suspended)
  }

  /** rt_sem_release: the new state, and the thread that was resumed with the unit. */
  function Release(s: State): (State, Option<Tid>) {
    if s.waiters != [] then (s.(waiters := s.waiters[1..]), Some(s.waiters[0])) else (s.(value := s.value + 1), None)
  }

  class Semaphore {
    const flag: Flag
    var value: nat
    var waiters: seq<Tid>

    ghost function View(): State
      reads this
    {
      State(value, waiters)
    }

    /** rt_sem_init */
    constructor (v: nat, f: Flag)
      ensures flag == f && View() == State(v, [])
    {
      flag, value, waiters := f, v, [];
    }

    method TakeNow(thread: Tid, wait: bool, prio: Priorities) returns (r: Outcome)
      requires thread in prio && Known(waiters, prio)
      modifies this
      ensures (View(), r) == Take(flag, old(View()), prio, thread, wait)
    {
      if value > 0 {
        value := value - 1;
        return Done;
      }
      if !wait {
        return Refused;
      }
      waiters := ListSuspend(flag, waiters, prio, thread);
      r := Suspended;
    }

    method ReleaseNow() returns (woken: Option<Tid>)
      modifies this
      ensures (View(), woken) == Release(old(View()))
    {
      if waiters != [] {
        woken := Some(waiters[0]);
        waiters := waiters[1..];
      } else {
        value := value + 1;
        woken := None;
      }
    }

    /** rt_sem_control with RT_IPC_CMD_RESET: every waiter is resumed with an error. */
    method Reset(v: nat)
      modifies this
      ensures View() == State(v, [])
    {
      while waiters != []
        decreases |waiters|
      {
        waiters := waiters[1..];
      }
      value := v;
    }
  }

  // ----- every interleaving

  /**
   * The semaphore with history: since it was set to first, how many releases there were and how many takes succeeded;
   * when each waiter arrived; and the arrivals of those that a release has resumed.
   */
  datatype Machine = Machine(s: State, first: nat, releases: nat, takes: nat, clock: nat, arrived: map<Tid, nat>, served: seq<nat>)

  datatype Step = Takes(t: Tid, wait: bool) | Releases | Expire(k: nat) | Reset(v: nat)

  function Start(v: nat): Machine {
    Machine(State(v, []), v, 0, 0, 0, map[], [])
  }

  ghost predicate Enabled(x: Machine, prio: Priorities, step: Step) {
    match step
    case Takes(t, _) => t in prio && t !in x.s.waiters
    case Releases => true
    case Expire(k) => k < |x.s.waiters|
    case Reset(_) => true
  }

  ghost predicate Queued(flag: Flag, x: Machine, prio: Priorities) {
    && Ordered(flag, x.s.waiters, prio, x.arrived) && NoDup(x.s.waiters)
    && forall i :: 0 <= i < |x.s.waiters| ==> x.arrived[x.s.waiters[i]] < x.clock
  }

  /** The state after a step.  Where the state functions are not defined, which no run reaches, nothing happens. */
  ghost function After(flag: Flag, x: Machine, prio: Priorities, step: Step): Machine
    requires Enabled(x, prio, step)
  {
    if !Queued(flag, x, prio) then x
    else match step
    case Takes(t, wait) =>
      var (s, r) := Take(flag, x.s, prio, t, wait);
      if r.Suspended? then x.(s := s, arrived := x.arrived[t := x.clock], clock := x.clock + 1)
      else x.(s := s, takes := x.takes + if r.Done? then 1 else 0)
    case Releases =>
      var (s, woken) := Release(x.s);
      if woken.None? then x.(s := s, releases := x.releases + 1)
      else x.(s := s, releases := x.releases + 1, takes := x.takes + 1, served := x.served + [x.arrived[woken.value]])
    case Expire(k) => x.(s := x.s.(waiters := Dropped(x.s.waiters, k)))
    case Reset(v) => x.(s := State(v, []), first := v, releases := 0, takes := 0)
  }

  /** On a first-come list, whoever was served had come before all who still wait. */
  ghost predicate Fair(x: Machine) {
    && (forall i, j :: 0 <= i < j < |x.served| ==> x.served[i] < x.served[j])
    && (forall i, j :: 0 <= i < |x.served| && 0 <= j < |x.s.waiters| ==>
          x.s.waiters[j] in x.arrived && x.served[i] < x.arrived[x.s.waiters[j]])
    && (forall i :: 0 <= i < |x.served| ==> x.served[i] < x.clock)
  }

  /** Nobody waits while there is a unit, no unit is lost or made up, and the list is in order. */
  ghost predicate Inv(flag: Flag, x: Machine, prio: Priorities) {
    && Queued(flag, x, prio)
    && (x.s.waiters != [] ==> x.s.value == 0)
    && x.s.value + x.takes == x.first + x.releases
    && (flag.Fifo? ==> Fair(x))
  }

  lemma SleepInv(flag: Flag, x: Machine, prio: Priorities, t: Tid)
    requires Inv(flag, x, prio) && Enabled(x, prio, Takes(t, true)) && x.s.value == 0
    ensures Inv(flag, After(flag, x, prio, Takes(t, true)), prio)
  {
    SuspendKeepsOrder(flag, x.s.waiters, prio, x.arrived, t, x.clock);
    InsertMembers(x.s.waiters, Place(flag, x.s.waiters, prio, t), t);
    var ws, a := IpcList.Suspended(flag, x.s.waiters, prio, t), x.arrived[t := x.clock];
    forall i | 0 <= i < |ws|
      ensures a[ws[i]] < x.clock + 1 && (ws[i] == t || ws[i] in x.s.waiters)
    {
      assert ws[i] in ws;
    }
  }

  lemma ServeFair(x: Machine, prio: Priorities, y: Machine)
    requires Fair(x) && Queued(Fifo, x, prio) && x.s.waiters != []
    requires y.s.waiters == x.s.waiters[1..] && y.arrived == x.arrived && y.clock == x.clock
    requires y.served == x.served + [x.arrived[x.s.waiters[0]]]
    ensures Fair(y)
  {
    var ws, n := x.s.waiters, |x.served|;
    forall i, j | 0 <= i < |y.served| && 0 <= j < |y.s.waiters|
      ensures y.s.waiters[j] in y.arrived && y.served[i] < y.arrived[y.s.waiters[j]]
    {
      assert y.s.waiters[j] == ws[j + 1] && (i < n ==> y.served[i] == x.served[i]);
    }
  }

  lemma ReleaseInv(flag: Flag, x: Machine, prio: Priorities)
    requires Inv(flag, x, prio)
    ensures Inv(flag, After(flag, x, prio, Releases), prio)
  {
    if x.s.waiters != [] {
      hide Fair;
      var ws, rest := x.s.waiters, x.s.waiters[1..];
      DropKeepsOrder(flag, ws, prio, x.arrived, 0);
      assert Dropped(ws, 0) == rest;
      assert forall i :: 0 <= i < |rest| ==> rest[i] == ws[i + 1];
      if flag.Fifo? {
        ServeFair(x, prio, After(flag, x, prio, Releases));
      }
    }
  }

  lemma ExpireInv(flag: Flag, x: Machine, prio: Priorities, k: nat)
    requires Inv(flag, x, prio) && k < |x.s.waiters|
    ensures Inv(flag, After(flag, x, prio, Expire(k)), prio)
  {
    DropKeepsOrder(flag, x.s.waiters, prio, x.arrived, k);
    var r := Dropped(x.s.waiters, k);
    assert forall i :: 0 <= i < |r| ==> r[i] == x.s.waiters[if i < k then i else i + 1];
  }

  lemma StepInv(flag: Flag, x: Machine, prio: Priorities, step: Step)
    requires Inv(flag, x, prio) && Enabled(x, prio, step)
    ensures Inv(flag, After(flag, x, prio, step), prio)
  {
    match step
    case Takes(t, wait) =>
      if x.s.value == 0 && wait {
        SleepInv(flag, x, prio, t);
      }
    case Releases => ReleaseInv(flag, x, prio);
    case Expire(k) => ExpireInv(flag, x, prio, k);
    case Reset(v) =>
  }

  ghost predicate Moves(flag: Flag, x: Machine, prio: Priorities, step: Step, x': Machine) {
    Enabled(x, prio, step) && x' == After(flag, x, prio, step)
  }

  ghost predicate Run(flag: Flag, prio: Priorities, v: nat, run: seq<Machine>, steps: seq<Step>) {
    && |run| == |steps| + 1 && run[0] == Start(v)
    && forall i, j :: 0 <= i && j == i + 1 < |run| ==> Moves(flag, run[i], prio, steps[i], run[j])
  }

  lemma {:induction false} RunInv(flag: Flag, prio: Priorities, v: nat, run: seq<Machine>, steps: seq<Step>, n: nat)
    requires Run(flag, prio, v, run, steps) && n < |run|
    ensures Inv(flag, run[n], prio)
  {
    if n > 0 {
      RunInv(flag, prio, v, run, steps, n - 1);
      assert Moves(flag, run[n - 1], prio, steps[n - 1], run[n]);
      StepInv(flag, run[n - 1], prio, steps[n - 1]);
    }
  }

  /** Units are conserved: what is there and what was taken is what there was and what was released. */
  lemma UnitsConserved(flag: Flag, prio: Priorities, v: nat, run: seq<Machine>, steps: seq<Step>, n: nat)
    requires Run(flag, prio, v, run, steps) && n < |run|
    ensures run[n].s.value + run[n].takes == run[n].first + run[n].releases
    ensures run[n].s.value == 0 || run[n].s.waiters == []
  {
    RunInv(flag, prio, v, run, steps, n);
  }

  /**
   * A thread that takes gets a unit if and only if there is one; otherwise it is refused and nothing changes, if it may not
   * wait, or it joins the sleepers.
   */
  lemma TakeOutcome(flag: Flag, prio: Priorities, v: nat, run: seq<Machine>, steps: seq<Step>, n: nat, t: Tid, wait: bool)
    requires Run(flag, prio, v, run, steps) && n < |steps| && steps[n] == Takes(t, wait)
    ensures var x, x' := run[n], run[n + 1];
            && (x'.takes == x.takes + 1 <==> x.s.value > 0)
            && (x.s.value > 0 ==> x'.s.value == x.s.value - 1 && x'.s.waiters == x.s.waiters)
            && (x.s.value == 0 && !wait ==> x' == x)
            && (x.s.value == 0 && wait ==> x'.s.value == 0 && forall w: Tid :: w in x'.s.waiters <==> w == t || w in x.s.waiters)
  {
    RunInv(flag, prio, v, run, steps, n);
    assert Moves(flag, run[n], prio, steps[n], run[n + 1]);
    if run[n].s.value == 0 && wait {
      InsertMembers(run[n].s.waiters, Place(flag, run[n].s.waiters, prio, t), t);
    }
  }

  /** A release gives its unit to the first waiter, which sleeps no more, or leaves it there if nobody waits. */
  lemma ReleaseOutcome(flag: Flag, prio: Priorities, v: nat, run: seq<Machine>, steps: seq<Step>, n: nat)
    requires Run(flag, prio, v, run, steps) && n < |steps| && steps[n] == Releases
    ensures var x, x' := run[n], run[n + 1];
            if x.s.waiters == [] then x'.s == State(x.s.value + 1, []) && x'.takes == x.takes
            else x'.s == State(0, x.s.waiters[1..]) && x'.takes == x.takes + 1 && x.s.waiters[0] !in x'.s.waiters
  {
    RunInv(flag, prio, v, run, steps, n);
    assert Moves(flag, run[n], prio, steps[n], run[n + 1]);
  }

  /** While anybody waits a newcomer gets nothing, and a release serves the waiter that the flag puts first. */
  lemma NoOvertaking(flag: Flag, prio: Priorities, v: nat, run: seq<Machine>, steps: seq<Step>, n: nat, t: Tid, j: nat)
    requires Run(flag, prio, v, run, steps) && n < |run|
    requires run[n].s.waiters != [] && t in prio && 0 < j < |run[n].s.waiters|
    ensures Queued(flag, run[n], prio)
    ensures var x := run[n];
            && !Take(flag, x.s, prio, t, true).1.Done? && !Take(flag, x.s, prio, t, false).1.Done?
            && var first := Release(x.s).1.value;
            if flag.Fifo? then x.arrived[first] < x.arrived[x.s.waiters[j]]
            else Before(prio, x.arrived, first, x.s.waiters[j])
  {
    RunInv(flag, prio, v, run, steps, n);
  }

  /** On a first-come list the waiters that were served, over the whole run, were served in the order they came. */
  lemma ServedInOrder(prio: Priorities, v: nat, run: seq<Machine>, steps: seq<Step>, n: nat, i: nat, j: nat)
    requires Run(Fifo, prio, v, run, steps) && n < |run| && i < j < |run[n].served|
    ensures run[n].served[i] < run[n].served[j]
  {
    RunInv(Fifo, prio, v, run, steps, n);
  }
}
