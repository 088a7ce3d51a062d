/** Event sets (ipc.c): threads wait for all or for any of some bits; one send may wake several and clear bits between them. */
module Events {
  import opened Prelude
  import opened IpcList

  /** A word of event bits, as the set of the bits that are one: &, | and & ~ are *, + and -. */
  type Bits = set<nat>

  /** event_set and event_info of a thread: the bits and the AND, OR and CLEAR options. */
  datatype Info = Info(want: Bits, all: bool, any: bool, clear: bool)

  datatype State = State(bits: Bits, waiters: seq<Tid>, info: map<Tid, Info>)

  /** A thread that a send resumed: the bits it finds in event_set, and those taken from the event set for it. */
  datatype Wakeup = Wakeup(t: Tid, got: Bits, cleared: Bits)

  datatype Outcome = Received(got: Bits) | Timeout | Failed | Suspended

  ghost predicate Informed(ws: seq<Tid>, info: map<Tid, Info>) {
    forall k :: 0 <= k < |ws| ==> ws[k] in info
  }

  /** The condition that both rt_event_send and rt_event_recv test; AND prevails over OR. */
  predicate Met(e: Bits, i: Info) {
    if i.all then i.want <= e else i.any && e * i.want != {}
  }

  // ----- receiving

  /** rt_event_recv when the condition holds at once: the remaining set and what was received. */
  function ReceiveNow(e: Bits, i: Info): (Bits, Bits) {
    (if i.clear then e - i.want else e, e * i.want)
  }

  /** rt_event_recv by thread t, up to the point where it returns or sleeps. */
  function Recv(flag: Flag, s: State, prio: Priorities, t: Tid, i: Info, wait: bool): (State, Outcome)
    requires t in prio && forall k :: 0 <= k < |s.waiters| ==> s.waiters[k] in prio
  {
    if i.want == {} then (s, Failed)
    else if Met(s.bits, i) then
      var (e, got) := ReceiveNow(s.bits, i);
      (s.(bits := e), Received(got))
    else if !wait then (s, Timeout)
    else (s.(waiters := IpcList.Suspended(flag, s.waiters, prio, t), info := s.info[t := i]), Suspended)
  }

  // ----- sending

  /** event_set of a waiter once a send has satisfied it. */
  function Got(e: Bits, i: Info): Bits {
    if i.all then i.want else i.want * e
  }

  function Cleared(e: Bits, i: Info): Bits {
    if i.clear then Got(e, i) else {}
  }

  /** After the loop of rt_event_send: the set, who still waits, all event fields, and who was resumed. */
  datatype Swept = Swept(e: Bits, kept: seq<Tid>, info: map<Tid, Info>, woken: seq<Wakeup>)

  function Sweep(e: Bits, ws: seq<Tid>, info: map<Tid, Info>): Swept
    requires forall k :: 0 <= k < |ws| ==> ws[k] in info
  {
    if ws == [] then Swept(e, [], info, [])
    else
      var t := ws[0];
      var i := info[t];
      if Met(e, i) then
        var r := Sweep(e - Cleared(e, i), ws[1..], info[t := i.(want := Got(e, i))]);
        r.(woken := [Wakeup(t, Got(e, i), Cleared(e, i))] + r.woken)
      else
        var r := Sweep(e, ws[1..], info);
        r.(kept := [t] + r.kept)
  }

  /** rt_event_send */
  function Sent(s: State, bits: Bits): (State, seq<Wakeup>)
    requires forall k :: 0 <= k < |s.waiters| ==> s.waiters[k] in s.info
  {
    if bits == {} then (s, [])
    else
      var r := Sweep(s.bits + bits, s.waiters, s.info);
      (State(r.e, r.kept, r.info), r.woken)
  }

  // ----- the code

  /** What came before, then what a sweep over the rest does. */
  ghost predicate Partway(total: Swept, e: Bits, ws: seq<Tid>, n: nat, info: map<Tid, Info>, woken: seq<Wakeup>) {
    && n <= |ws| && Informed(ws[n..], info)
    && var r := Sweep(e, ws[n..], info);
    total == Swept(r.e, ws[..n] + r.kept, r.info, woken + r.woken)
  }

  class Event {
    const flag: Flag
    var bits: Bits
    var waiters: seq<Tid>
    var info: map<Tid, Info>

    ghost function View(): State
      reads this
    {
      State(bits, waiters, info)
    }

    constructor (f: Flag)
      ensures flag == f && View() == State({}, [], map[])
    {
      flag, bits, waiters, info := f, {}, [], map[];
    }

    /** rt_event_recv, up to the point where it returns or sleeps. */
    method Receive(t: Tid, set_: Bits, all: bool, any: bool, clear: bool, wait: bool, prio: Priorities) returns (r: Outcome)
      requires t in prio && Known(waiters, prio) && (all || any)
      modifies this
      ensures (View(), r) == Recv(flag, old(View()), prio, t, Info(set_, all, any, clear), wait)
    {
      if set_ == {} {
        return Failed;
      }
      var status := false;
      if all {
        status := bits * set_ == set_;
      } else if any {
        status := bits * set_ != {};
      }
      if status {
        r := Received(bits * set_);
        if clear {
          bits := bits - set_;
        }
      } else if !wait {
        r := Timeout;
      } else {
        info := info[t := Info(set_, all, any, clear)];
        waiters := ListSuspend(flag, waiters, prio, t);
        r := Suspended;
      }
    }

    /** The test that rt_event_send makes for one waiter, which leaves the received bits in its event_set. */
    method Check(i: Info) returns (status: bool, i': Info)
      ensures status == Met(bits, i) && i' == if status then i.(want := Got(bits, i)) else i
    {
      status, i' := false, i;
      if i.all {
        status := i.want * bits == i.want;
        assert status <==> i.want <= bits;
      } else if i.any {
        if i.want * bits != {} {
          i' := i.(want := i.want * bits);
          status := true;
        }
      }
    }

    /** The turn of waiter n in rt_event_send: it is resumed if its condition holds. */
    method Serve(n: nat) returns (w: Option<Wakeup>)
      requires n < |waiters| && waiters[n] in info
      modifies this
      ensures var t, i := old(waiters)[n], old(info)[old(waiters)[n]];
              if Met(old(bits), i) then
                && w == Some(Wakeup(t, Got(old(bits), i), Cleared(old(bits), i)))
                && View() == State(old(bits) - Cleared(old(bits), i), Dropped(old(waiters), n),
                                   old(info)[t := i.(want := Got(old(bits), i))])
              else w == None && View() == old(View())
    {
      var t := waiters[n];
      var status, i := Check(info[t]);
      if !status {
        return None;
      }
      w := Some(Wakeup(t, i.want, if i.clear then i.want else {}));
      assert bits - {} == bits;
      info := info[t := i];
      if i.clear {
        bits := bits - i.want;
      }
      waiters := waiters[..n] + waiters[n + 1..];
    }

    /** rt_event_send: the threads that it resumed, in that order, and what they got. */
    method Send(set_: Bits) returns (ok: bool, woken: seq<Wakeup>)
      requires Informed(waiters, info)
      modifies this
      ensures ok == (set_ != {}) && (View(), woken) == Sent(old(View()), set_)
    {
      woken := [];
      if set_ == {} {
        return false, [];
      }
      bits := bits + set_;
      var n := 0;
      ghost var total := Sweep(bits, waiters, info);
      assert waiters[0..] == waiters && [] + total.kept == total.kept && [] + total.woken == total.woken;
      while n < |waiters|
        invariant 0 <= n <= |waiters| && Partway(total, bits, waiters, n, info, woken)
        decreases |waiters| - n
      {
        PartwayStep(total, bits, waiters, n, info, woken);
        var w := Serve(n);
        if w.None? {
          n := n + 1;
        } else {
          woken := woken + [w.value];
        }
      }
      assert waiters[n..] == [] && waiters[..n] + [] == waiters && woken + [] == woken;
      ok := true;
    }

    /** rt_event_control with RT_IPC_CMD_RESET: every waiter is resumed with an error. */
    method Reset()
      modifies this
      ensures View() == State({}, [], old(info))
    {
      while waiters != []
        modifies this
        invariant info == old(info)
        decreases |waiters|
      {
        waiters := waiters[1..];
      }
      bits := {};
    }
  }

  lemma PartwayStep(total: Swept, e: Bits, ws: seq<Tid>, n: nat, info: map<Tid, Info>, woken: seq<Wakeup>)
    requires n < |ws| && Partway(total, e, ws, n, info, woken)
    ensures ws[n] in info
    ensures var t, i := ws[n], info[ws[n]];
            if Met(e, i) then
              Partway(total, e - Cleared(e, i), Dropped(ws, n), n, info[t := i.(want := Got(e, i))],
                      woken + [Wakeup(t, Got(e, i), Cleared(e, i))])
            else Partway(total, e, ws, n + 1, info, woken)
  {
    var t, i, r := ws[n], info[ws[n]], Sweep(e, ws[n..], info);
    assert ws[n..][0] == t && ws[n..][1..] == ws[n + 1..];
    if Met(e, i) {
      var ws' := Dropped(ws, n);
      assert ws'[n..] == ws[n + 1..] && ws'[..n] == ws[..n];
      var r' := Sweep(e - Cleared(e, i), ws[n + 1..], info[t := i.(want := Got(e, i))]);
      assert woken + ([Wakeup(t, Got(e, i), Cleared(e, i))] + r'.woken)
          == woken + [Wakeup(t, Got(e, i), Cleared(e, i))] + r'.woken;
    } else {
      var r' := Sweep(e, ws[n + 1..], info);
      assert ws[..n] + ([t] + r'.kept) == ws[..n + 1] + r'.kept;
    }
  }
}
