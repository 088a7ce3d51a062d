/**
 * The sleep/wake protocol shared by mailboxes, message queues and memory pools.
 *
 * Every blocking call in these objects has the same shape: under the interrupt lock the thread tests a
 * counter (stored messages, free slots, free blocks); if it is zero the thread links itself into a wait list
 * and sleeps; whoever makes the counter non-zero unlinks the first sleeper.  A woken thread does not own
 * anything yet: it has to run again, take the lock and test again, and any other thread may get there first.
 */
module WaitList {
  import opened Prelude

  /** tokens: the counter; asleep: the wait list; woken: threads resumed without error that have not run since. */
  datatype Wait = Wait(tokens: nat, asleep: seq<Tid>, woken: set<Tid>) {

    /** One more token; the first sleeper, if any, is resumed. */
    function Post(): Wait {
      if asleep == [] then Wait(tokens + 1, asleep, woken)
      else Wait(tokens + 1, asleep[1..], woken + {asleep[0]})
    }

    /** Thread t passes the test and takes a token, whether it was woken for it or has just arrived. */
    function Grab(t: Tid): Wait
      requires tokens > 0
    {
      Wait(tokens - 1, asleep, woken - {t})
    }

    /** Thread t fails the test and is linked into the wait list at position at. */
    function Sleep(t: Tid, at: nat): Wait
      requires at <= |asleep|
    {
      Wait(tokens, Inserted(asleep, t, at), woken - {t})
    }

    /** A woken thread fails the test and has no time left: it returns an error. */
    function Quit(t: Tid): Wait {
      Wait(tokens, asleep, woken - {t})
    }

    /** The timer of the i-th sleeper fires: it is unlinked and will return an error. */
    function Expire(i: nat): Wait
      requires i < |asleep|
    {
      Wait(tokens, asleep[..i] + asleep[i + 1..], woken)
    }

    /** Reset: every sleeper is resumed with an error, and the counter is set. */
    function WakeAll(k: nat): Wait {
      Wait(k, [], woken)
    }

    /** The threads this object keeps track of. */
    ghost function Parked(): set<Tid> {
      (set t | t in asleep) + woken
    }

    /** No thread is linked twice, and no linked thread is also pending. */
    ghost predicate WellFormed() {
      && NoDup(asleep)
      && forall i :: 0 <= i < |asleep| ==> asleep[i] !in woken
    }

    /** The wakeup guarantee: somebody sleeps only while every available token already has a waker on its way. */
    ghost predicate NoLostWakeup() {
      asleep != [] ==> tokens <= |woken|
    }

    ghost predicate Good() {
      WellFormed() && NoLostWakeup()
    }
  }

  lemma PostKeeps(w: Wait)
    requires w.Good()
    ensures w.Post().Good() && w.Post().Parked() == w.Parked()
  {
    if w.asleep != [] {
      assert w.asleep == [w.asleep[0]] + w.asleep[1..];
      assert w.asleep[0] !in w.woken;
    }
  }

  lemma GrabKeeps(w: Wait, t: Tid)
    requires w.Good() && w.tokens > 0 && t !in w.asleep
    ensures w.Grab(t).Good() && w.Grab(t).Parked() == w.Parked() - {t}
  {
    if t in w.woken {
      assert |w.woken - {t}| == |w.woken| - 1;
    } else {
      assert w.woken - {t} == w.woken;
    }
  }

  function Inserted(s: seq<Tid>, t: Tid, at: nat): (l: seq<Tid>)
    requires at <= |s|
    ensures |l| == |s| + 1
  {
    s[..at] + [t] + s[at..]
  }

  lemma InsertedAt(s: seq<Tid>, t: Tid, at: nat, k: nat)
    requires at <= |s| && k <= |s|
    ensures Inserted(s, t, at)[k] == if k < at then s[k] else if k == at then t else s[k - 1]
  {
  }

  lemma InsertedMembers(s: seq<Tid>, t: Tid, at: nat)
    requires at <= |s|
    ensures forall x :: x in Inserted(s, t, at) <==> x in s || x == t
  {
    assert s == s[..at] + s[at..];
  }

  lemma InsertedNoDup(s: seq<Tid>, t: Tid, at: nat)
    requires NoDup(s) && t !in s && at <= |s|
    ensures NoDup(Inserted(s, t, at))
  {
    hide Inserted;
    var l := Inserted(s, t, at);
    forall i, j | 0 <= i < j < |l|
      ensures l[i] != l[j]
    {
      InsertedAt(s, t, at, i);
      InsertedAt(s, t, at, j);
    }
  }

  lemma SleepKeeps(w: Wait, t: Tid, at: nat)
    requires w.Good() && w.tokens == 0 && t !in w.asleep && at <= |w.asleep|
    ensures w.Sleep(t, at).Good() && w.Sleep(t, at).Parked() == w.Parked() + {t}
  {
    hide NoDup, Inserted;
    InsertedNoDup(w.asleep, t, at);
    InsertedMembers(w.asleep, t, at);
    var l := Inserted(w.asleep, t, at);
    assert w.Sleep(t, at).asleep == l;
    forall i | 0 <= i < |l|
      ensures l[i] !in w.woken - {t}
    {
      assert l[i] in l;
    }
  }

  lemma QuitKeeps(w: Wait, t: Tid)
    requires w.Good() && w.tokens == 0
    ensures w.Quit(t).Good() && w.Quit(t).Parked() <= w.Parked()
  {
  }

  lemma ExpireKeeps(w: Wait, i: nat)
    requires w.Good() && i < |w.asleep|
    ensures w.Expire(i).Good() && w.Expire(i).Parked() <= w.Parked()
  {
    var s, r := w.asleep, w.Expire(i).asleep;
    assert forall k :: 0 <= k < |r| ==> r[k] == s[if k < i then k else k + 1];
  }

  lemma WakeAllKeeps(w: Wait, k: nat)
    ensures w.WakeAll(k).Good() && w.WakeAll(k).Parked() <= w.Parked()
  {
  }

  // ----- where a thread is

  datatype Place = Away | Asleep | OnItsWay

  function At(w: Wait, t: Tid): Place {
    if t in w.asleep then Asleep else if t in w.woken then OnItsWay else Away
  }

  /** What a step may do to a wait list. */
  datatype Move =
    | Nothing
    | FirstWakes          // the first sleeper, if there is one, is resumed
    | FallsAsleep(t: Tid)
    | Goes(t: Tid)        // with what it wanted, or with an error
    | SleepersGo

  function PlaceAfter(w: Wait, m: Move, t: Tid): Place {
    match m
    case Nothing => At(w, t)
    case FirstWakes => if w.asleep != [] && w.asleep[0] == t then OnItsWay else At(w, t)
    case FallsAsleep(u) => if u == t then Asleep else At(w, t)
    case Goes(u) => if u == t then Away else At(w, t)
    case SleepersGo => if At(w, t).Asleep? then Away else At(w, t)
  }

  /** Those on both lists are in the same order. */
  ghost predicate SameOrder(a: seq<Tid>, b: seq<Tid>) {
    forall i, j, k, l :: 0 <= i < j < |b| && 0 <= k < |a| && 0 <= l < |a| && b[i] == a[k] && b[j] == a[l] ==> k < l
  }

  /** From w to w' exactly this has happened: every other thread is where it was, and the sleepers are in the same order. */
  ghost predicate Moved(w: Wait, m: Move, w': Wait) {
    (forall t: Tid :: At(w', t) == PlaceAfter(w, m, t)) && SameOrder(w.asleep, w'.asleep)
  }

  /** What is left of a list without duplicates when some of it is taken out is in the same order. */
  lemma PartInOrder(a: seq<Tid>, b: seq<Tid>, at: seq<nat>)
    requires NoDup(a) && |at| == |b| && forall i :: 0 <= i < |b| ==> at[i] < |a| && b[i] == a[at[i]]
    requires forall i, j :: 0 <= i < j < |at| ==> at[i] < at[j]
    ensures SameOrder(a, b)
  {
    forall i, j, k, l | 0 <= i < j < |b| && 0 <= k < |a| && 0 <= l < |a| && b[i] == a[k] && b[j] == a[l]
      ensures k < l
    {
      assert k == at[i] && l == at[j];
    }
  }

  lemma Unmoved(w: Wait, w': Wait)
    requires NoDup(w.asleep) && w'.asleep == w.asleep && w'.woken == w.woken
    ensures Moved(w, Nothing, w')
  {
    PartInOrder(w.asleep, w.asleep, seq(|w.asleep|, i => i));
  }

  /** One entry is taken out. */
  lemma OutOf(s: seq<Tid>, i: nat)
    requires NoDup(s) && i < |s|
    ensures var r := s[..i] + s[i + 1..];
            SameOrder(s, r) && forall t: Tid :: t in r <==> t in s && t != s[i]
  {
    var r := s[..i] + s[i + 1..];
    OutOfOrder(s, i);
    forall t: Tid
      ensures t in r <==> t in s && t != s[i]
    {
      if t in s && t != s[i] {
        var k :| 0 <= k < |s| && s[k] == t;
        assert r[if k < i then k else k - 1] == t;
      }
    }
  }

  lemma OutOfOrder(s: seq<Tid>, i: nat)
    requires NoDup(s) && i < |s|
    ensures SameOrder(s, s[..i] + s[i + 1..])
  {
    var r := s[..i] + s[i + 1..];
    PartInOrder(s, r, seq(|r|, k requires 0 <= k => if k < i then k else k + 1));
  }

  lemma WokenAwake(w: Wait, t: Tid)
    requires w.WellFormed() && t in w.woken
    ensures t !in w.asleep
  {
  }

  lemma PostMoves(w: Wait)
    requires w.WellFormed()
    ensures Moved(w, FirstWakes, w.Post())
  {
    hide NoDup, SameOrder;
    if w.asleep == [] {
      Unmoved(w, w.Post());
    } else {
      OutOf(w.asleep, 0);
      assert w.asleep[1..] == w.asleep[..0] + w.asleep[1..];
    }
  }

  lemma GrabMoves(w: Wait, t: Tid)
    requires w.WellFormed() && w.tokens > 0 && t !in w.asleep
    ensures Moved(w, Goes(t), w.Grab(t))
  {
    PartInOrder(w.asleep, w.asleep, seq(|w.asleep|, i => i));
  }

  lemma QuitMoves(w: Wait, t: Tid)
    requires w.WellFormed() && t !in w.asleep
    ensures Moved(w, Goes(t), w.Quit(t))
  {
    PartInOrder(w.asleep, w.asleep, seq(|w.asleep|, i => i));
  }

  lemma SleepMoves(w: Wait, t: Tid, at: nat)
    requires w.WellFormed() && t !in w.asleep && at <= |w.asleep|
    ensures Moved(w, FallsAsleep(t), w.Sleep(t, at))
  {
    hide NoDup, Inserted, SameOrder;
    InsertedMembers(w.asleep, t, at);
    InsertedInOrder(w.asleep, t, at);
  }

  lemma InsertedInOrder(s: seq<Tid>, t: Tid, at: nat)
    requires NoDup(s) && t !in s && at <= |s|
    ensures SameOrder(s, Inserted(s, t, at))
  {
    hide Inserted;
    var l := Inserted(s, t, at);
    forall i, j, k, m | 0 <= i < j < |l| && 0 <= k < |s| && 0 <= m < |s| && l[i] == s[k] && l[j] == s[m]
      ensures k < m
    {
      InsertedAt(s, t, at, i);
      InsertedAt(s, t, at, j);
    }
  }

  lemma ExpireMoves(w: Wait, i: nat)
    requires w.WellFormed() && i < |w.asleep|
    ensures Moved(w, Goes(w.asleep[i]), w.Expire(i))
  {
    hide NoDup, SameOrder;
    OutOf(w.asleep, i);
  }

  lemma WakeAllMoves(w: Wait, k: nat)
    requires w.WellFormed()
    ensures Moved(w, SleepersGo, w.WakeAll(k))
  {
  }

  /** When nobody is on the way, sleepers and tokens exclude each other. */
  lemma Quiescent(w: Wait)
    requires w.Good() && w.woken == {}
    ensures w.asleep == [] || w.tokens == 0
  {
  }
}
