/** Recursive mutexes with priority inheritance (ipc.c), for threads whose priority only this mutex changes. */
module Mutex {
  import opened Prelude
  import opened IpcList

  const NO_PRIORITY: nat := 0xFF

  /** The fields of a mutex, its wait list, and the priorities of all threads. */
  datatype State = State(value: nat, owner: Option<Tid>, original: nat, hold: nat, waiters: seq<Tid>, prio: Priorities)

  datatype Outcome = Done | Refused | Suspended

  /** The threads of a state have priorities. */
  ghost predicate Closed(s: State) {
    && (s.owner.Some? ==> s.owner.value in s.prio)
    && Known(s.waiters, s.prio)
    && (s.value == 0 ==> s.owner.Some?)
  }

  // ----- the atomic steps as functions

  /** rt_mutex_take by thread t, up to the point where it returns or sleeps; wait says whether it may sleep. */
  function Take(flag: Flag, s: State, t: Tid, wait: bool): (State, Outcome)
    requires t in s.prio && Closed(s)
  {
    if s.owner == Some(t) then (s.(hold := s.hold + 1), Done)
    else if s.value > 0 then
      (s.(value := s.value - 1, owner := Some(t), original := s.prio[t], hold := s.hold + 1), Done)
    else if !wait then (s, Refused)
    else
      var o := s.owner.value;
      var prio := if s.prio[t] < s.prio[o] then s.prio[o := s.prio[t]] else s.prio;
      (s.(prio := prio, waiters := IpcList.Suspended(flag, s.waiters, prio, t)), Suspended)
  }

  /** rt_mutex_release by thread t: the new state, and whether t was the owner. */
  function Release(s: State, t: Tid): (State, bool)
    requires Closed(s) && (s.owner == Some(t) ==> s.hold > 0)
  {
    if s.owner != Some(t) then (s, false)
    else if s.hold > 1 then (s.(hold := s.hold - 1), true)
    else
      var prio := s.prio[t := s.original];
      if s.waiters != [] then
        var next := s.waiters[0];
        (State(s.value, Some(next), prio[next], 1, s.waiters[1..], prio), true)
      else
        (State(s.value + 1, None, NO_PRIORITY, 0, [], prio), true)
  }

  /** A waiter gives up: its timer has removed it from the list. */
  function Expire(s: State, k: nat): State
    requires k < |s.waiters|
  {
    s.(waiters := Dropped(s.waiters, k))
  }

  // ----- the code

  class Mutex {
    const flag: Flag
    var value: nat
    var owner: Option<Tid>
    var original: nat
    var hold: nat
    var waiters: seq<Tid>
    var prio: Priorities

    ghost function View(): State
      reads this
    {
      State(value, owner, original, hold, waiters, prio)
    }

    /** rt_mutex_init */
    constructor (f: Flag, p: Priorities)
      ensures flag == f && View() == State(1, None, NO_PRIORITY, 0, [], p)
    {
      flag, value, owner, original, hold, waiters, prio := f, 1, None, NO_PRIORITY, 0, [], p;
    }

    method TakeNow(thread: Tid, wait: bool) returns (r: Outcome)
      requires thread in prio && Closed(View())
      modifies this
      ensures (View(), r) == Take(flag, old(View()), thread, wait)
    {
      if owner == Some(thread) {
        hold := hold + 1;
        return Done;
      }
      if value > 0 {
        value := value - 1;
        owner := Some(thread);
        original := prio[thread];
        hold := hold + 1;
        return Done;
      }
      if !wait {
        return Refused;
      }
      if prio[thread] < prio[owner.value] {
        prio := prio[owner.value := prio[thread]];
      }
      waiters := ListSuspend(flag, waiters, prio, thread);
      r := Suspended;
    }

    method ReleaseNow(thread: Tid) returns (ok: bool)
      requires Closed(View()) && (owner == Some(thread) ==> hold > 0)
      modifies this
      ensures (View(), ok) == Release(old(View()), thread)
    {
      if owner != Some(thread) {
        return false;
      }
      hold := hold - 1;
      if hold == 0 {
        if original != prio[thread] {
          prio := prio[thread := original];
        }
        assert prio == old(prio)[thread := original];
        if waiters != [] {
          var next := waiters[0];
          owner := Some(next);
          original := prio[next];
          hold := hold + 1;
          waiters := waiters[1..];
        } else {
          value := value + 1;
          owner := None;
          original := NO_PRIORITY;
        }
      }
      ok := true;
    }
  }
}
