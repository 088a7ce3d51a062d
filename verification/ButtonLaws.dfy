/** What the events of a key say, over every run of samples. */
module ButtonLaws {
  import opened FlexibleButton

  /** A key in state s, whose last sample was prev, after more samples. */
  function Run(t: Times, s: State, prev: bool, samples: seq<bool>): State {
    if samples == [] then s
    else
      var n := |samples| - 1;
      Step(t, Run(t, s, prev, samples[..n]), samples[n], samples[n] && !(if n == 0 then prev else samples[n - 1]))
  }

  lemma {:induction false} RunSplit(t: Times, s: State, prev: bool, a: seq<bool>, b: seq<bool>)
    ensures Run(t, s, prev, a + b) == Run(t, Run(t, s, prev, a), if a == [] then prev else a[|a| - 1], b)
  {
    hide Step;
    if b == [] {
      assert a + b == a;
    } else {
      var n := |b| - 1;
      RunSplit(t, s, prev, a, b[..n]);
      assert (a + b)[..|a| + n] == a + b[..n];
    }
  }

  // ----- the scanner runs every key

  /** The samples of the key at position i: its own level, if it has a bit. */
  function Track(high: seq<bool>, scans: seq<seq<bool>>, i: nat): (r: seq<bool>)
    requires i < |high| && forall k :: 0 <= k < |scans| ==> |scans[k]| == |high|
    ensures |r| == |scans|
  {
    seq(|scans|, k requires 0 <= k < |scans| => i in Pressed(high, scans[k]))
  }

  lemma TrackNext(high: seq<bool>, scans: seq<seq<bool>>, n: nat, i: nat)
    requires i < |high| && n < |scans| && forall k :: 0 <= k < |scans| ==> |scans[k]| == |high|
    ensures Track(high, scans[..n + 1], i) == Track(high, scans[..n], i) + [i in Pressed(high, scans[n])]
    ensures n > 0 ==> Track(high, scans[..n], i)[n - 1] == (i in Pressed(high, scans[n - 1]))
  {
  }

  lemma RunNext(t: Times, s: State, prev: bool, a: seq<bool>, x: bool)
    ensures Run(t, s, prev, a + [x]) == Step(t, Run(t, s, prev, a), x, x && !(if a == [] then prev else a[|a| - 1]))
  {
    assert (a + [x])[..|a|] == a;
  }

  /** One more scan of the key at position i, when cont are the keys that were down before. */
  lemma KeyNext(t: Times, s: State, first: set<nat>, high: seq<bool>, scans: seq<seq<bool>>, n: nat, i: nat, cont: set<nat>)
    requires i < |high| && n < |scans| && forall k :: 0 <= k < |scans| ==> |scans[k]| == |high|
    requires cont == if n == 0 then first else Pressed(high, scans[n - 1])
    ensures var now := Pressed(high, scans[n]);
            Run(t, s, i in first, Track(high, scans[..n + 1], i))
              == Step(t, Run(t, s, i in first, Track(high, scans[..n], i)), i in now, i in now - cont)
  {
    hide Step, Track, Run, Pressed;
    TrackNext(high, scans, n, i);
    RunNext(t, s, i in first, Track(high, scans[..n], i), i in Pressed(high, scans[n]));
  }

  lemma RunNone(s: Scanner, high: seq<bool>, scans: seq<seq<bool>>)
    requires forall k :: 0 <= k < |scans| ==> |scans[k]| == |high|
    requires |high| == |s.buttons|
    ensures forall t, v, prev, i :: 0 <= i < |high| ==> Run(t, v, prev, Track(high, scans[..0], i)) == v
  {
  }

  /** The thread that scans: every key runs on its own samples, whatever the others do. */
  method ScanAll(s: Scanner, scans: seq<seq<bool>>)
    requires s.Valid() && forall k :: 0 <= k < |scans| ==> |scans[k]| == |s.buttons|
    modifies s, s.buttons
    ensures s.Valid() && s.buttons == old(s.buttons)
    ensures forall i :: 0 <= i < |s.buttons| ==> var b := s.buttons[i];
              b.Value() == Run(b.times, old(b.Value()), i in old(s.cont), Track(Polarity(s.buttons), scans, i))
  {
    hide Step, Track, Run, Pressed;
    var k := 0;
    ghost var high := Polarity(s.buttons);
    RunNone(s, high, scans);
    while k < |scans|
      invariant k <= |scans| && s.Valid() && s.buttons == old(s.buttons)
      invariant s.cont == if k == 0 then old(s.cont) else Pressed(high, scans[k - 1])
      invariant forall i :: 0 <= i < |s.buttons| ==> var b := s.buttons[i];
                  b.Value() == Run(b.times, old(b.Value()), i in old(s.cont), Track(high, scans[..k], i))
    {
      ghost var cont := s.cont;
      s.Scan(scans[k]);
      forall i | 0 <= i < |s.buttons|
        ensures var b := s.buttons[i];
                b.Value() == Run(b.times, old(b.Value()), i in old(s.cont), Track(high, scans[..k + 1], i))
      {
        var b := s.buttons[i];
        KeyNext(b.times, old(b.Value()), old(s.cont), high, scans, k, i, cont);
      }
      k := k + 1;
    }
    assert scans[..k] == scans;
  }

  // ----- sessions

  /** How far a session has come. */
  datatype Phase = Idle | Open | Short | Long | Held | Broken

  function After(p: Phase, e: Event): Phase {
    match e
    case Down => if p == Idle then Open else Broken
    case ShortStart => if p == Open then Short else Broken
    case LongStart => if p == Short then Long else Broken
    case LongHold => if p == Long then Held else Broken
    case Silent => Broken
    case _ => if p == Idle then Broken else if p == Broken then Broken else Idle
  }

  /** A grammar: down, a prefix of short start, long start and long hold, then one event that closes. */
  function Parse(calls: seq<Event>): Phase {
    if calls == [] then Idle else After(Parse(calls[..|calls| - 1]), calls[|calls| - 1])
  }

  /** The state of the key says how far its session is. */
  predicate Follows(s: State) {
    var p := Parse(s.calls);
    && s.status <= 6 && p != Broken && (p == Idle <==> s.status == 0)
    && (s.status == 1 ==> p == Open) && (s.status == 4 ==> p == Short) && (s.status == 5 ==> p == Long)
    && (s.status == 6 ==> p == Held)
  }

  lemma FireFollows(s: State, status: nat, e: Event)
    ensures Parse(Fire(s, status, e).calls) == After(Parse(s.calls), e)
  {
    assert (s.calls + [e])[..|s.calls|] == s.calls;
  }

  lemma StepFollows(t: Times, s: State, down: bool, edge: bool)
    requires Follows(s)
    ensures Follows(Step(t, s, down, edge))
  {
    hide Parse;
    forall status: nat, e, scans: U16, clicks: U16
      ensures Parse(Fire(s.(scans := scans, clicks := clicks), status, e).calls) == After(Parse(s.calls), e)
    {
      FireFollows(s.(scans := scans, clicks := clicks), status, e);
    }
  }

  /** Over every run the calls are sessions, and the last one is open exactly if the status is not zero. */
  lemma {:induction false} RunFollows(t: Times, s: State, prev: bool, samples: seq<bool>)
    requires Follows(s)
    ensures Follows(Run(t, s, prev, samples))
  {
    if samples != [] {
      var n := |samples| - 1;
      RunFollows(t, s, prev, samples[..n]);
      StepFollows(t, Run(t, s, prev, samples[..n]), samples[n], samples[n] && !(if n == 0 then prev else samples[n - 1]));
    }
  }

  predicate Closes(e: Event) {
    e.Click? || e.DoubleClick? || e.ShortUp? || e.LongUp? || e.HoldUp?
  }

  function Bit(b: bool): nat {
    if b then 1 else 0
  }

  function Downs(calls: seq<Event>): nat {
    if calls == [] then 0 else Downs(calls[1..]) + Bit(calls[0].Down?)
  }

  function Closings(calls: seq<Event>): nat {
    if calls == [] then 0 else Closings(calls[1..]) + Bit(Closes(calls[0]))
  }

  lemma {:induction false} CountsNext(calls: seq<Event>, e: Event)
    ensures Downs(calls + [e]) == Downs(calls) + Bit(e.Down?) && Closings(calls + [e]) == Closings(calls) + Bit(Closes(e))
  {
    if calls != [] {
      CountsNext(calls[1..], e);
      assert (calls + [e])[1..] == calls[1..] + [e];
    }
  }

  lemma AfterBalances(p: Phase, e: Event)
    requires After(p, e) != Broken
    ensures p != Broken && Bit(p != Idle) + Bit(e.Down?) == Bit(Closes(e)) + Bit(After(p, e) != Idle)
  {
  }

  lemma {:induction false} ParseBalances(calls: seq<Event>)
    requires Parse(calls) != Broken
    ensures Downs(calls) == Closings(calls) + Bit(Parse(calls) != Idle)
  {
    if calls != [] {
      hide Downs, Closings, After, Closes, Bit;
      var n := |calls| - 1;
      AfterBalances(Parse(calls[..n]), calls[n]);
      ParseBalances(calls[..n]);
      CountsNext(calls[..n], calls[n]);
      assert calls[..n] + [calls[n]] == calls;
    }
  }

  /** After every run, the downs exceed the events that close by one while a session is open, and by nothing otherwise. */
  lemma DownsMinusClosings(t: Times, samples: seq<bool>)
    ensures var s := Run(t, FRESH, false, samples);
            Downs(s.calls) == Closings(s.calls) + Bit(s.status != 0)
  {
    RunFollows(t, FRESH, false, samples);
    ParseBalances(Run(t, FRESH, false, samples).calls);
  }

  /** The place of an event in a session. */
  function Rank(e: Event): nat {
    match e
    case Down => 0
    case ShortStart => 1
    case LongStart => 2
    case LongHold => 3
    case _ => 4
  }

  lemma {:induction false} PrefixParses(calls: seq<Event>, n: nat)
    requires n <= |calls| && Parse(calls) != Broken
    ensures Parse(calls[..n]) != Broken
    decreases |calls|
  {
    if n < |calls| {
      PrefixParses(calls[..|calls| - 1], n);
      assert calls[..|calls| - 1][..n] == calls[..n];
    } else {
      assert calls[..n] == calls;
    }
  }

  lemma RanksNext(calls: seq<Event>, n: nat)
    requires n + 1 < |calls| && Parse(calls) != Broken && calls[n + 1] != Down
    ensures Rank(calls[n]) < Rank(calls[n + 1])
  {
    PrefixParses(calls, n + 2);
    assert calls[..n + 2][..n + 1] == calls[..n + 1] && calls[..n + 1][..n] == calls[..n];
  }

  /** In a session every event comes at most once, and in this order: down, short start, long start, hold, closing. */
  lemma {:induction false} RanksAscend(calls: seq<Event>, i: nat, j: nat)
    requires Parse(calls) != Broken && i < j < |calls| && forall k :: i < k <= j ==> calls[k] != Down
    ensures Rank(calls[i]) < Rank(calls[j])
    decreases j
  {
    RanksNext(calls, j - 1);
    if i < j - 1 {
      RanksAscend(calls, i, j - 1);
    }
  }

  lemma SessionOrder(t: Times, samples: seq<bool>, i: nat, j: nat)
    requires var calls := Run(t, FRESH, false, samples).calls;
             i < j < |calls| && forall k :: i < k <= j ==> calls[k] != Down
    ensures var calls := Run(t, FRESH, false, samples).calls; Rank(calls[i]) < Rank(calls[j])
  {
    RunFollows(t, FRESH, false, samples);
    RanksAscend(Run(t, FRESH, false, samples).calls, i, j);
  }

  // ----- one press

  function Repeat(b: bool, n: nat): (r: seq<bool>)
    ensures |r| == n && forall i :: 0 <= i < n ==> r[i] == b
  {
    seq(n, _ => b)
  }

  /** n more scans at the same level. */
  function Steps(t: Times, s: State, n: nat, down: bool): State {
    if n == 0 then s else Step(t, Steps(t, s, n - 1, down), down, false)
  }

  lemma {:induction false} StepsAdd(t: Times, s: State, m: nat, n: nat, down: bool)
    ensures Steps(t, s, m + n, down) == Steps(t, Steps(t, s, m, down), n, down)
  {
    hide Step;
    if n > 0 {
      StepsAdd(t, s, m, n - 1, down);
    }
  }

  lemma {:induction false} RunUp(t: Times, s: State, prev: bool, n: nat)
    ensures Run(t, s, prev, Repeat(false, n)) == Steps(t, s, n, false)
  {
    if n > 0 {
      RunUp(t, s, prev, n - 1);
      assert Repeat(false, n)[..n - 1] == Repeat(false, n - 1);
    }
  }

  lemma {:induction false} RunDown(t: Times, s: State, n: nat)
    ensures Run(t, s, false, Repeat(true, n + 1)) == Steps(t, Step(t, s, true, true), n, true)
  {
    assert Repeat(true, n + 1)[..n] == Repeat(true, n);
    if n > 0 {
      RunDown(t, s, n - 1);
    } else {
      assert Run(t, s, false, Repeat(true, 0)) == s;
    }
  }

  /** What is called while the key is held, k scans after it went down. */
  function Starts(t: Times, k: nat): seq<Event> {
    (if k >= t.short then [ShortStart] else []) + (if k >= t.long then [LongStart] else [])
    + (if k >= t.hold then [LongHold] else [])
  }

  lemma StartsNext(t: Times, k: nat)
    requires Ascending(t) && k > 0
    ensures Starts(t, k) == Starts(t, k - 1) + if k == t.short then [ShortStart] else if k == t.long then [LongStart]
                                               else if k == t.hold then [LongHold] else []
  {
  }

  /** The status of a key that has been held for k more scans. */
  function Depth(t: Times, k: nat): nat {
    if k < t.short then 1 else if k < t.long then 4 else if k < t.hold then 5 else 6
  }

  lemma HoldOn(t: Times, s: State, k: nat)
    requires Ascending(t) && k > 0 && s.scans == (k - 1) % WORD && s.status == Depth(t, k - 1)
    ensures var h := Step(t, s, true, false);
            && h.scans == k % WORD && h.clicks == s.clicks && h.status == Depth(t, k)
            && h.calls == s.calls + if k == t.short then [ShortStart] else if k == t.long then [LongStart]
                                    else if k == t.hold then [LongHold] else []
  {
  }

  lemma {:induction false} Holding(t: Times, s: State, k: nat)
    requires Ascending(t) && s.status == 0
    ensures var h := Steps(t, Step(t, s, true, true), k, true);
            && h.scans == k % WORD && h.clicks == 0 && h.calls == s.calls + [Down] + Starts(t, k)
            && h.status == Depth(t, k)
  {
    if k > 0 {
      hide Step, Starts;
      Holding(t, s, k - 1);
      StartsNext(t, k);
      HoldOn(t, Steps(t, Step(t, s, true, true), k - 1, true), k);
    }
  }

  /** What closes a press that is counted as m scans long. */
  function Closing(t: Times, m: U16): Event {
    if m < t.click then (if t.click + 1 < t.short then Click else ShortUp)
    else if m < t.short then Click
    else if m < t.long then ShortUp
    else if m < t.hold then LongUp
    else HoldUp
  }

  lemma {:induction false} Resting(t: Times, s: State, n: nat)
    requires s.status == 0
    ensures var r := Steps(t, s, n, false); r.status == 0 && r.calls == s.calls
  {
    if n > 0 {
      Resting(t, s, n - 1);
    }
  }

  /** A short press waits for a second one until click scans have passed. */
  lemma {:induction false} Waiting(t: Times, s: State, n: nat)
    requires s.status == 3 && s.scans + n <= t.click && s.scans < t.click
    ensures var w := Steps(t, s, n, false);
            w.scans == s.scans + n && w.calls == s.calls && w.status == if s.scans + n < t.click then 3 else 2
  {
    if n > 0 {
      Waiting(t, s, n - 1);
    }
  }

  lemma ClickCloses(t: Times, s: State)
    requires Ascending(t) && s.status == 3 && s.scans < t.click
    ensures var r := Steps(t, s, t.click - s.scans + 1, false);
            r.status == 0 && r.calls == s.calls + [Closing(t, s.scans)]
  {
    hide Steps;
    var n := t.click - s.scans;
    Waiting(t, s, n);
    OneStepMore(t, s, n, false);
  }

  lemma OneStepMore(t: Times, s: State, n: nat, down: bool)
    ensures Steps(t, s, n + 1, down) == Step(t, Steps(t, s, n, down), down, false)
  {
  }

  /** The two scans after a press: it is closed, or too short for that. */
  lemma Lifted(t: Times, s: State)
    requires Ascending(t) && s.status in {1, 4, 5, 6} && s.clicks == 0
    ensures var up, m := Steps(t, s, 2, false), Plus(Plus(s.scans));
            if m < t.click then up.status == 3 && up.scans == m && up.calls == s.calls && up.clicks == 1
            else up.status == 0 && up.calls == s.calls + [Closing(t, m)]
  {
    var one := Steps(t, s, 1, false);
    assert one == Step(t, Steps(t, s, 0, false), false, false) && Steps(t, s, 2, false) == Step(t, one, false, false);
  }

  /** A key that was held and goes up is closed by what its length calls for, two scans later or when click has passed. */
  lemma Releasing(t: Times, s: State, n: nat)
    requires Ascending(t) && s.status in {1, 4, 5, 6} && s.clicks == 0 && n >= t.click + 3
    ensures var r := Steps(t, s, n, false);
            r.status == 0 && r.calls == s.calls + [Closing(t, Plus(Plus(s.scans)))]
  {
    hide Step, Steps, Closing;
    var up, m := Steps(t, s, 2, false), Plus(Plus(s.scans));
    Lifted(t, s);
    if m < t.click {
      var w := t.click - m + 1;
      ClickCloses(t, up);
      StepsAdd(t, s, 2, w, false);
      StepsAdd(t, s, 2 + w, n - 2 - w, false);
      Resting(t, Steps(t, up, w, false), n - 2 - w);
    } else {
      StepsAdd(t, s, 2, n - 2, false);
      Resting(t, up, n - 2);
    }
  }

  /** flex_button_event_read: the last event that was called, or that the key is at rest. */
  predicate Shown(s: State) {
    if s.event == Silent then s.status == 0 else s.calls != [] && s.event == s.calls[|s.calls| - 1]
  }

  lemma StepShown(t: Times, s: State, down: bool, edge: bool)
    requires Shown(s) && s.status <= 6
    ensures Shown(Step(t, s, down, edge)) && Step(t, s, down, edge).status <= 6
    ensures s.status == 0 && !edge ==> Step(t, s, down, edge).event == Silent
    ensures s.status > 0 && Step(t, s, down, edge).calls == s.calls ==> Step(t, s, down, edge).event == s.event
  {
  }

  /**
   * Over every run the event that can be read is the last one called; it is there for the rest of its scan, and at least
   * until a scan finds the key at rest and up.
   */
  lemma {:induction false} EventRead(t: Times, prev: bool, samples: seq<bool>)
    ensures var r := Run(t, FRESH, prev, samples); Shown(r) && r.status <= 6
    ensures samples != [] && !samples[|samples| - 1] && Run(t, FRESH, prev, samples[..|samples| - 1]).status == 0 ==>
              Run(t, FRESH, prev, samples).event == Silent
  {
    if samples != [] {
      hide Step, Shown;
      var n := |samples| - 1;
      EventRead(t, prev, samples[..n]);
      StepShown(t, Run(t, FRESH, prev, samples[..n]), samples[n], samples[n] && !(if n == 0 then prev else samples[n - 1]));
    } else {
      assert Shown(FRESH);
    }
  }

  /** The events of a press of d scans, followed by enough scans without one. */
  function PressEvents(t: Times, d: nat): seq<Event>
    requires d > 0
  {
    [Down] + Starts(t, d - 1) + [Closing(t, (d + 1) % WORD)]
  }

  /**
   * Exactly what one press is reported as, for every length. The start events are decided on the length, the closing
   * event on the length and one scan more, modulo the sixteen bits of the counter.
   */
  lemma PressIsReported(t: Times, s: State, d: nat, n: nat)
    requires Ascending(t) && s.status == 0 && d > 0 && n >= t.click + 3
    ensures var r := Run(t, s, false, Repeat(true, d) + Repeat(false, n));
            r.status == 0 && r.calls == s.calls + PressEvents(t, d)
  {
    hide Step, Steps, Starts, Run, Closing;
    var h := Run(t, s, false, Repeat(true, d));
    RunSplit(t, s, false, Repeat(true, d), Repeat(false, n));
    RunDown(t, s, d - 1);
    RunUp(t, h, true, n);
    Holding(t, s, d - 1);
    Releasing(t, h, n);
    assert s.calls + [Down] + Starts(t, d - 1) + [Closing(t, (d + 1) % WORD)] == s.calls + PressEvents(t, d);
  }

  /** Which start event a closing event belongs to. */
  function Level(e: Event): nat {
    match e
    case ShortUp => 1
    case LongUp => 2
    case HoldUp => 3
    case _ => 0
  }

  /**
   * A press is closed by the event that belongs to its last start event, unless it is counted past a threshold one scan
   * after its last sample, or so long that the counter has wrapped, or short where no scan is left between the clicks
   * and the short presses.
   */
  lemma ClosedAsStartedIff(t: Times, d: nat)
    requires Ascending(t) && d > 0
    ensures Level(Closing(t, (d + 1) % WORD)) == |Starts(t, d - 1)|
       <==> && d !in {t.short - 1, t.short, t.long - 1, t.long, t.hold - 1, t.hold}
            && (d > t.hold ==> (d + 1) % WORD >= t.hold)
            && (t.click + 1 == t.short ==> d + 1 >= t.click)
  {
  }

  /** With the board's thresholds: a short-up without a short start, and a click that ends a long hold. */
  lemma ClosedUnlikeStarted()
    ensures var t := Times(20, 100, 200, 300);
            && Run(t, FRESH, false, Repeat(true, 100) + Repeat(false, 30)).calls == [Down, ShortUp]
            && Run(t, FRESH, false, Repeat(true, WORD) + Repeat(false, 30)).calls
            == [Down, ShortStart, LongStart, LongHold, Click]
  {
    hide Run, Repeat;
    PressIsReported(Times(20, 100, 200, 300), FRESH, 100, 30);
    PressIsReported(Times(20, 100, 200, 300), FRESH, WORD, 30);
  }

  // ----- two presses

  lemma {:induction false} WaitingClicks(t: Times, s: State, n: nat)
    requires s.status == 3 && s.scans + n <= t.click && s.scans < t.click
    ensures Steps(t, s, n, false).clicks == s.clicks
  {
    if n > 0 {
      WaitingClicks(t, s, n - 1);
      Waiting(t, s, n - 1);
    }
  }

  /** The first scan of a key that goes up. */
  lemma UpOnce(t: Times, s: State)
    requires s.status in {1, 4, 5, 6}
    ensures var one := Steps(t, s, 1, false);
            one.status == 2 && one.scans == Plus(s.scans) && one.clicks == s.clicks && one.calls == s.calls
  {
    assert Steps(t, s, 1, false) == Step(t, Steps(t, s, 0, false), false, false);
  }

  /** A key that has been up for gap scans: on its way to be closed, waiting for a second press, or idle. */
  lemma UpFor(t: Times, s: State, gap: nat)
    requires Ascending(t) && s.status in {1, 4, 5, 6} && s.clicks == 0 && gap > 0
    ensures var u, m := Steps(t, s, gap, false), Plus(Plus(s.scans));
            if gap == 1 then u.status == 2 && u.scans == Plus(s.scans) && u.clicks == 0 && u.calls == s.calls
            else if m < t.click && m + gap - 2 <= t.click then
              && u.status == (if m + gap - 2 < t.click then 3 else 2)
              && u.scans == m + gap - 2 && u.clicks == 1 && u.calls == s.calls
            else u.status == 0 && u.calls == s.calls + [Closing(t, m)]
  {
    hide Step, Steps, Closing;
    var m := Plus(Plus(s.scans));
    if gap == 1 {
      UpOnce(t, s);
    } else {
      var up := Steps(t, s, 2, false);
      Lifted(t, s);
      StepsAdd(t, s, 2, gap - 2, false);
      if m >= t.click {
        Resting(t, up, gap - 2);
      } else if m + gap - 2 <= t.click {
        Waiting(t, up, gap - 2);
        WaitingClicks(t, up, gap - 2);
      } else {
        var w := t.click - m + 1;
        ClickCloses(t, up);
        StepsAdd(t, up, w, gap - 2 - w, false);
        Resting(t, Steps(t, up, w, false), gap - 2 - w);
      }
    }
  }

  /** The scans that miss the edge of a second press, gap scans after one that was counted as m: those that close. */
  predicate Unheard(t: Times, m: U16, gap: nat) {
    gap == 1 || (m < t.click && m + gap == t.click + 2)
  }

  /** Without an edge, a key that is not pressed does not look at its level. */
  lemma LevelIgnored(t: Times, s: State)
    requires s.status in {0, 2, 3}
    ensures Step(t, s, true, false) == Step(t, s, false, false) && Step(t, s, false, false).status in {0, 2, 3}
  {
  }

  lemma {:induction false} LevelsIgnored(t: Times, s: State, n: nat)
    requires s.status in {0, 2, 3}
    ensures Steps(t, s, n, true) == Steps(t, s, n, false) && Steps(t, s, n, false).status in {0, 2, 3}
  {
    if n > 0 {
      LevelsIgnored(t, s, n - 1);
      LevelIgnored(t, Steps(t, s, n - 1, false));
    }
  }

  lemma EdgeIgnoredIff(t: Times, s: State)
    requires s.status in {0, 2, 3}
    ensures Step(t, s, true, true) == Step(t, s, true, false) <==> s.status == 2
  {
  }

  /** The state in which a second press finds the key. */
  lemma BetweenPresses(t: Times, s: State, d: nat, gap: nat)
    requires Ascending(t) && s.status == 0 && d > 0 && gap > 0
    ensures var h := Run(t, s, false, Repeat(true, d));
            var u := Run(t, s, false, Repeat(true, d) + Repeat(false, gap));
            && h.status in {1, 4, 5, 6} && h.clicks == 0 && h.calls == s.calls + [Down] + Starts(t, d - 1)
            && Plus(Plus(h.scans)) == (d + 1) % WORD && u == Steps(t, h, gap, false)
  {
    hide Step, Steps, Run, Starts;
    RunSplit(t, s, false, Repeat(true, d), Repeat(false, gap));
    RunDown(t, s, d - 1);
    Holding(t, s, d - 1);
    RunUp(t, Run(t, s, false, Repeat(true, d)), true, gap);
  }

  /** For a first press of any length and any gap: the edge of a second press makes no difference exactly if it is unheard. */
  lemma SecondPressUnheardIff(t: Times, s: State, d: nat, gap: nat)
    requires Ascending(t) && s.status == 0 && d > 0 && gap > 0
    ensures var u := Run(t, s, false, Repeat(true, d) + Repeat(false, gap));
            Step(t, u, true, true) == Step(t, u, true, false) <==> Unheard(t, (d + 1) % WORD, gap)
  {
    hide Step, Steps, Run, Starts, Closing;
    BetweenPresses(t, s, d, gap);
    var h := Run(t, s, false, Repeat(true, d));
    UpFor(t, h, gap);
    EdgeIgnoredIff(t, Steps(t, h, gap, false));
  }

  /** An unheard press is lost for good: however long the key is held, all is as if it had stayed up. */
  lemma UnheardIsLost(t: Times, s: State, d: nat, gap: nat, e: nat)
    requires Ascending(t) && s.status == 0 && d > 0 && gap > 0 && Unheard(t, (d + 1) % WORD, gap)
    ensures Run(t, s, false, Repeat(true, d) + Repeat(false, gap) + Repeat(true, e))
         == Run(t, s, false, Repeat(true, d) + Repeat(false, gap + e))
  {
    hide Step, Steps, Run, Starts, Closing;
    BetweenPresses(t, s, d, gap);
    BetweenPresses(t, s, d, gap + e);
    var h := Run(t, s, false, Repeat(true, d));
    var u := Steps(t, h, gap, false);
    UpFor(t, h, gap);
    EdgeIgnoredIff(t, u);
    RunSplit(t, s, false, Repeat(true, d) + Repeat(false, gap), Repeat(true, e));
    HeldUnheard(t, u, e);
    StepsAdd(t, h, gap, e, false);
  }

  lemma HeldUnheard(t: Times, u: State, e: nat)
    requires u.status in {0, 2, 3} && Step(t, u, true, true) == Step(t, u, true, false)
    ensures Run(t, u, false, Repeat(true, e)) == Steps(t, u, e, false)
  {
    hide Step;
    if e == 0 {
      assert Repeat(true, 0) == [];
    } else {
      var v := Step(t, u, true, true);
      RunDown(t, u, e - 1);
      LevelIgnored(t, u);
      LevelsIgnored(t, v, e - 1);
      StepsAdd(t, u, 1, e - 1, false);
      assert Steps(t, u, 1, false) == Step(t, Steps(t, u, 0, false), false, false);
    }
  }

  lemma SecondDown(t: Times, s: State)
    requires Ascending(t) && s.status == 3 && s.scans < t.click && s.clicks == 1
    ensures var r := Step(t, Step(t, s, true, true), true, false);
            r.status == 0 && r.calls == s.calls + [if s.scans + 1 < t.click then DoubleClick else Click]
  {
  }

  /**
   * A second press that is heard: while the key waits it ends the session at the scan after it, as a double click unless
   * click scans have passed; after the session was closed it opens another one.
   */
  lemma SecondPress(t: Times, s: State, d: nat, gap: nat)
    requires Ascending(t) && s.status == 0 && d > 0 && gap > 0 && !Unheard(t, (d + 1) % WORD, gap)
    ensures var u, m := Run(t, s, false, Repeat(true, d) + Repeat(false, gap)), (d + 1) % WORD;
            var one := Step(t, u, true, true);
            var two := Step(t, one, true, false);
            if m < t.click && m + gap <= t.click + 1 then
              && two.status == 0
              && two.calls == s.calls + [Down] + Starts(t, d - 1) + [if m + gap <= t.click then DoubleClick else Click]
            else one.status == 1 && one.calls == s.calls + PressEvents(t, d) + [Down]
  {
    hide Steps, Run, Starts, Closing;
    BetweenPresses(t, s, d, gap);
    var h, m := Run(t, s, false, Repeat(true, d)), (d + 1) % WORD;
    var u := Steps(t, h, gap, false);
    UpFor(t, h, gap);
    if m < t.click && m + gap <= t.click + 1 {
      SecondDown(t, u);
    } else {
      assert s.calls + [Down] + Starts(t, d - 1) + [Closing(t, m)] == s.calls + PressEvents(t, d);
    }
  }

  /** Two scans down, five up, and down again: the second press is lost although it is four scans long. */
  lemma LostPress()
    ensures var r := Run(Times(6, 20, 30, 40), FRESH, false, Repeat(true, 2) + Repeat(false, 5) + Repeat(true, 4));
            r.status == 0 && r.calls == [Down, Click]
  {
    hide Run, Repeat;
    UnheardIsLost(Times(6, 20, 30, 40), FRESH, 2, 5, 4);
    PressIsReported(Times(6, 20, 30, 40), FRESH, 2, 9);
  }

  // ----- keys without a bit

  lemma NeverTrue(samples: seq<bool>)
    requires true !in samples
    ensures samples == Repeat(false, |samples|)
  {
    var r := Repeat(false, |samples|);
    forall k | 0 <= k < |samples|
      ensures samples[k] == r[k]
    {
      assert samples[k] in samples;
    }
  }

  /** A key says something exactly if it has been down in some sample. */
  lemma {:induction false} HeardIff(t: Times, samples: seq<bool>)
    ensures Run(t, FRESH, false, samples).calls != [] <==> true in samples
  {
    if samples != [] {
      var n := |samples| - 1;
      HeardIff(t, samples[..n]);
      assert samples == samples[..n] + [samples[n]];
      if true !in samples[..n] {
        NeverTrue(samples[..n]);
        RunUp(t, FRESH, false, n);
        Resting(t, FRESH, n);
      }
    }
  }

  /** A key is heard exactly if it is pressed in some scan and at one of the first sixteen positions. */
  lemma KeyHeardIff(t: Times, high: seq<bool>, scans: seq<seq<bool>>, i: nat)
    requires i < |high| && forall k :: 0 <= k < |scans| ==> |scans[k]| == |high|
    ensures Run(t, FRESH, false, Track(high, scans, i)).calls != []
       <==> i < 16 && exists k :: 0 <= k < |scans| && scans[k][i] == high[i]
  {
    var track := Track(high, scans, i);
    HeardIff(t, track);
    assert forall k :: 0 <= k < |scans| ==> track[k] == (i in Pressed(high, scans[k]));
  }

  /** Seventeen keys can be registered; when all are pressed, the one that was registered first says nothing. */
  lemma SeventeenthKey(t: Times)
    ensures var high := Repeat(false, MAX_BUTTONS + 1);
            && Run(t, FRESH, false, Track(high, [high], 16)).calls == []
            && Run(t, FRESH, false, Track(high, [high], 15)).calls != []
  {
    hide Run, Track;
    var high := Repeat(false, MAX_BUTTONS + 1);
    KeyHeardIff(t, high, [high], 16);
    KeyHeardIff(t, high, [high], 15);
    assert [high][0][15] == high[15];
  }
}
