/** The wait lists of ipc.c: where a suspended thread is put, and who is resumed first. */
module IpcList {
  import opened Prelude

  datatype Flag = Fifo | Prio

  /** current_priority of every thread; a smaller number is more urgent. */
  type Priorities = map<Tid, nat>

  ghost predicate Known(ws: seq<Tid>, prio: Priorities) {
    forall i :: 0 <= i < |ws| ==> ws[i] in prio
  }

  /** How many waiters stay in front of a new one. */
  function Place(flag: Flag, ws: seq<Tid>, prio: Priorities, t: Tid): (k: nat)
    requires t in prio && forall i :: 0 <= i < |ws| ==> ws[i] in prio
    ensures k <= |ws|
  {
    if flag.Fifo? then |ws|
    else if ws == [] || prio[t] < prio[ws[0]] then 0
    else 1 + Place(flag, ws[1..], prio, t)
  }

  function InsertAt(ws: seq<Tid>, k: nat, t: Tid): seq<Tid>
    requires k <= |ws|
  {
    ws[..k] + [t] + ws[k..]
  }

  lemma InsertMembers(ws: seq<Tid>, k: nat, t: Tid)
    requires NoDup(ws) && t !in ws && k <= |ws|
    ensures NoDup(InsertAt(ws, k, t)) && forall w :: w in InsertAt(ws, k, t) <==> w == t || w in ws
  {
    assert ws == ws[..k] + ws[k..];
  }

  /** The list after rt_ipc_list_suspend. */
  function Suspended(flag: Flag, ws: seq<Tid>, prio: Priorities, t: Tid): seq<Tid>
    requires t in prio && forall i :: 0 <= i < |ws| ==> ws[i] in prio
  {
    InsertAt(ws, Place(flag, ws, prio, t), t)
  }

  /** rt_ipc_list_suspend */
  method ListSuspend(flag: Flag, ws: seq<Tid>, prio: Priorities, t: Tid) returns (r: seq<Tid>)
    requires t in prio && Known(ws, prio)
    ensures r == Suspended(flag, ws, prio, t)
  {
    match flag
    case Fifo =>
      r := ws + [t];
    case Prio =>
      var n := 0;
      while n < |ws| && prio[t] >= prio[ws[n]]
        invariant 0 <= n <= |ws| && Place(Prio, ws, prio, t) == n + Place(Prio, ws[n..], prio, t)
      {
        assert ws[n..][1..] == ws[n + 1..];
        n := n + 1;
      }
      r := ws[..n] + [t] + ws[n..];
  }

  /** More urgent first; among equals, who arrived earlier. */
  ghost predicate Before(prio: Priorities, arrived: map<Tid, nat>, a: Tid, b: Tid) {
    && a in prio && b in prio && a in arrived && b in arrived
    && (prio[a] < prio[b] || (prio[a] == prio[b] && arrived[a] < arrived[b]))
  }

  /** The order that the flag promises: by arrival, or by priority and then by arrival. */
  ghost predicate Ordered(flag: Flag, ws: seq<Tid>, prio: Priorities, arrived: map<Tid, nat>) {
    && (forall i :: 0 <= i < |ws| ==> ws[i] in prio && ws[i] in arrived)
    && forall i, j :: 0 <= i < j < |ws| ==>
         if flag.Fifo? then arrived[ws[i]] < arrived[ws[j]] else Before(prio, arrived, ws[i], ws[j])
  }

  /** A new waiter passes exactly those that are less urgent. */
  lemma {:induction false} PlaceSplits(ws: seq<Tid>, prio: Priorities, arrived: map<Tid, nat>, t: Tid)
    requires t in prio && Ordered(Prio, ws, prio, arrived)
    ensures var k := Place(Prio, ws, prio, t);
            && (forall i :: 0 <= i < k ==> prio[ws[i]] <= prio[t])
            && (forall i :: k <= i < |ws| ==> prio[t] < prio[ws[i]])
  {
    if ws != [] {
      if prio[t] < prio[ws[0]] {
        assert forall i :: 0 < i < |ws| ==> Before(prio, arrived, ws[0], ws[i]);
      } else {
        PlaceSplits(ws[1..], prio, arrived, t);
        assert forall i :: 1 <= i < |ws| ==> ws[i] == ws[1..][i - 1];
      }
    }
  }

  /** Suspending a thread that arrives last keeps the order. */
  lemma SuspendKeepsOrder(flag: Flag, ws: seq<Tid>, prio: Priorities, arrived: map<Tid, nat>, t: Tid, now: nat)
    requires t in prio && t !in ws && Ordered(flag, ws, prio, arrived)
    requires forall i :: 0 <= i < |ws| ==> arrived[ws[i]] < now
    ensures Ordered(flag, Suspended(flag, ws, prio, t), prio, arrived[t := now])
  {
    var k, r, a := Place(flag, ws, prio, t), Suspended(flag, ws, prio, t), arrived[t := now];
    if flag.Prio? {
      PlaceSplits(ws, prio, arrived, t);
    }
    hide Place, Before;
    forall i | 0 <= i < |r|
      ensures r[i] in prio && r[i] in a
    {
      assert i != k ==> r[i] == ws[if i < k then i else i - 1];
    }
    forall i, j | 0 <= i < j < |r|
      ensures if flag.Fifo? then a[r[i]] < a[r[j]] else Before(prio, a, r[i], r[j])
    {
      PairInOrder(flag, ws, prio, arrived, t, now, k, i, j);
    }
  }

  lemma PairInOrder(flag: Flag, ws: seq<Tid>, prio: Priorities, arrived: map<Tid, nat>, t: Tid, now: nat, k: nat, i: nat, j: nat)
    requires t in prio && t !in ws && Ordered(flag, ws, prio, arrived) && k <= |ws| && i < j <= |ws|
    requires forall i :: 0 <= i < |ws| ==> arrived[ws[i]] < now
    requires if flag.Fifo? then k == |ws|
             else (forall i :: 0 <= i < k ==> prio[ws[i]] <= prio[t]) && forall i :: k <= i < |ws| ==> prio[t] < prio[ws[i]]
    ensures var r, a := InsertAt(ws, k, t), arrived[t := now];
            && r[i] in a && r[j] in a && if flag.Fifo? then a[r[i]] < a[r[j]] else Before(prio, a, r[i], r[j])
  {
    var r, i', j' := InsertAt(ws, k, t), if i < k then i else i - 1, if j < k then j else j - 1;
    assert i != k ==> r[i] == ws[i'] != t;
    assert j != k ==> r[j] == ws[j'] != t;
    assert i != k && j != k && flag.Prio? ==> Before(prio, arrived, ws[i'], ws[j']);
  }

  function Dropped(ws: seq<Tid>, k: nat): seq<Tid>
    requires k < |ws|
  {
    ws[..k] + ws[k + 1..]
  }

  /** A waiter that leaves does not disturb the others. */
  lemma DropKeepsOrder(flag: Flag, ws: seq<Tid>, prio: Priorities, arrived: map<Tid, nat>, k: nat)
    requires Ordered(flag, ws, prio, arrived) && k < |ws|
    ensures Ordered(flag, Dropped(ws, k), prio, arrived)
  {
    var r := Dropped(ws, k);
    forall i, j | 0 <= i < j < |r|
      ensures if flag.Fifo? then arrived[r[i]] < arrived[r[j]] else Before(prio, arrived, r[i], r[j])
    {
      assert r[i] == ws[if i < k then i else i + 1] && r[j] == ws[if j < k then j else j + 1];
    }
  }
}
