/** flexible_button.c: the levels of up to sixteen keys are sampled, and every key turns its edges into events. */
module FlexibleButton {
  datatype Event = Down | Click | DoubleClick | ShortStart | ShortUp | LongStart | LongUp | LongHold | HoldUp | Silent

  const WORD: nat := 0x1_0000

  /** A sixteen-bit word, as the set of its bits. */
  const MASK: set<nat> := set i: nat | i < 16
  const MAX_BUTTONS: nat := 16

  type U16 = n: nat | n < WORD

  /** The thresholds of a key, in scans. */
  datatype Times = Times(click: U16, short: U16, long: U16, hold: U16)

  predicate Ascending(t: Times) {
    t.click < t.short < t.long < t.hold
  }

  /** What a key remembers; calls is what its callback has been given so far. */
  datatype State = State(status: nat, scans: U16, clicks: U16, event: Event, calls: seq<Event>)

  const FRESH: State := State(0, 0, 0, Silent, [])

  function Plus(n: U16): U16 {
    (n + 1) % WORD
  }

  function Minus(n: U16): U16 {
    (n + WORD - 1) % WORD
  }

  function Fire(s: State, status: nat, e: Event): State {
    s.(status := status, event := e, calls := s.calls + [e])
  }

  /** What the key does when it is up, by how long the press took. */
  function Close(t: Times, s: State): State {
    var idle := s.(clicks := 0);
    if s.scans < t.click then
      if Plus(s.clicks) == 1 then s.(clicks := 1, status := 3) else Fire(idle, 0, DoubleClick)
    else if s.scans < t.short then Fire(idle, 0, Click)
    else if t.short <= s.scans < t.long then Fire(idle, 0, ShortUp)
    else if t.long <= s.scans < t.hold then Fire(idle, 0, LongUp)
    else if t.hold <= s.scans then Fire(idle, 0, HoldUp)
    else s
  }

  /** One scan of one key: down is its bit in cont, edge the one in trg. */
  function Step(t: Times, was: State, down: bool, edge: bool): State {
    var s := if was.status > 0 then was.(scans := Plus(was.scans)) else was;
    match s.status
    case 0 => if edge then Fire(s.(scans := 0, clicks := 0), 1, Down) else s.(event := Silent)
    case 1 =>
      if !down then s.(status := 2)
      else if t.short <= s.scans < t.long then Fire(s, 4, ShortStart)
      else s
    case 2 => Close(t, s)
    case 3 =>
      if edge then s.(clicks := Plus(s.clicks), status := 2, scans := Minus(s.scans))
      else if t.click <= s.scans then s.(status := 2)
      else s
    case 4 =>
      if !down then s.(status := 2)
      else if t.long <= s.scans < t.hold then Fire(s, 5, LongStart)
      else s
    case 5 =>
      if !down then s.(status := 2)
      else if t.hold <= s.scans then Fire(s, 6, LongHold)
      else s
    case 6 => if !down then s.(status := 2) else s
    case _ => s
  }

  class Button {
    const activeHigh: bool
    const times: Times
    var status: nat
    var scans: U16
    var clicks: U16
    var event: Event
    var calls: seq<Event>

    constructor (high: bool, t: Times)
      ensures activeHigh == high && times == t && Value() == FRESH
    {
      activeHigh, times := high, t;
      status, scans, clicks, event, calls := 0, 0, 0, Silent, [];
    }

    ghost function Value(): State
      reads this
    {
      State(status, scans, clicks, event, calls)
    }

    /** The callback, which is told the event. */
    method Call(e: Event)
      modifies this
      ensures Value() == old(Value()).(event := e, calls := old(calls) + [e])
    {
      event := e;
      calls := calls + [e];
    }

    /** The case of a key that is up. */
    method Finish()
      requires status == 2
      modifies this
      ensures Value() == Close(times, old(Value()))
    {
      if scans < times.click {
        clicks := (clicks + 1) % WORD;
        if clicks == 1 {
          status := 3;
        } else {
          clicks := 0;
          status := 0;
          Call(DoubleClick);
        }
      } else if times.click <= scans < times.short {
        clicks := 0;
        status := 0;
        Call(Click);
      } else if times.short <= scans < times.long {
        clicks := 0;
        status := 0;
        Call(ShortUp);
      } else if times.long <= scans < times.hold {
        clicks := 0;
        status := 0;
        Call(LongUp);
      } else if times.hold <= scans {
        clicks := 0;
        status := 0;
        Call(HoldUp);
      }
    }

    /** One pass of the loop in flex_button_process. */
    method Advance(down: bool, edge: bool)
      modifies this
      ensures Value() == Step(times, old(Value()), down, edge)
    {
      if status > 0 {
        scans := (scans + 1) % WORD;
      }
      match status
      case 0 =>
        if edge {
          scans := 0;
          clicks := 0;
          status := 1;
          Call(Down);
        } else {
          event := Silent;
        }
      case 1 =>
        if !down {
          status := 2;
        } else if times.short <= scans < times.long {
          status := 4;
          Call(ShortStart);
        }
      case 2 =>
        Finish();
      case 3 =>
        if edge {
          clicks := (clicks + 1) % WORD;
          status := 2;
          scans := (scans + WORD - 1) % WORD;
        } else if times.click <= scans {
          status := 2;
        }
      case 4 =>
        if !down {
          status := 2;
        } else if times.long <= scans < times.hold {
          status := 5;
          Call(LongStart);
        }
      case 5 =>
        if !down {
          status := 2;
        } else if times.hold <= scans {
          status := 6;
          Call(LongHold);
        }
      case 6 =>
        if !down {
          status := 2;
        }
      case _ =>
    }
  }

  ghost predicate NoneTwice(buttons: seq<Button>) {
    forall i, j :: 0 <= i < j < |buttons| ==> buttons[i] != buttons[j]
  }

  /** The positions of the keys that are pressed, among those that have a bit in the word. */
  function Pressed(high: seq<bool>, levels: seq<bool>): (p: set<nat>)
    requires |high| == |levels|
  {
    set i: nat | i < |levels| && i < 16 && levels[i] == high[i]
  }

  class Scanner {
    var buttons: seq<Button>
    var trg: set<nat>
    var cont: set<nat>
    var keydata: set<nat>
    var resting: set<nat>
    var count: nat

    constructor ()
      ensures Valid() && buttons == [] && cont == {}
    {
      buttons, trg, cont, keydata, resting, count := [], {}, {}, MASK, MASK, 0;
    }

    /** Every key that was registered has a clear bit in the resting word, as far as the word goes. */
    ghost predicate Valid()
      reads this
    {
      && NoneTwice(buttons) && count == |buttons| <= MAX_BUTTONS + 1
      && trg <= cont <= MASK && resting == set i: nat | i in MASK && |buttons| <= i
    }

    /** flex_button_register: the new key goes to the front; a seventeenth is still accepted. */
    method Register(b: Button) returns (r: int)
      requires Valid()
      modifies this, b
      ensures Valid() && trg == old(trg) && cont == old(cont)
      ensures (if old(count) > MAX_BUTTONS || b in old(buttons) then
                 r == -1 && buttons == old(buttons) && b.Value() == old(b.Value())
               else
                 r == count == old(count) + 1 && buttons == [b] + old(buttons) && b.Value() == FRESH.(calls := old(b.calls)))
    {
      if count > MAX_BUTTONS {
        return -1;
      }
      var curr := 0;
      while curr < |buttons|
        invariant curr <= |buttons| && b !in buttons[..curr]
      {
        if buttons[curr] == b {
          return -1;
        }
        curr := curr + 1;
      }
      b.status, b.event, b.scans, b.clicks := 0, Silent, 0, 0;
      buttons := [b] + buttons;
      resting := set i: nat | i in MASK && i > 0 && i - 1 in resting;
      count := count + 1;
      r := count;
    }

    /** flex_button_read, where levels are what the keys' read functions return, 0 or 1. */
    method Read(levels: seq<bool>)
      requires Valid() && |levels| == |buttons|
      modifies this
      ensures Valid() && buttons == old(buttons)
      ensures cont == Pressed(Polarity(buttons), levels) && trg == cont - old(cont)
    {
      keydata := resting;
      var i := 0;
      while i < |buttons|
        invariant i <= |buttons|
        invariant keydata == set j: nat | j < 16 && (j >= |buttons| || (j < i && levels[j] != buttons[j].activeHigh))
        modifies this`keydata
      {
        var up := if buttons[i].activeHigh then !levels[i] else levels[i];
        keydata := keydata + (if up && i < 16 then {i} else {});
        i := i + 1;
      }
      var readData := MASK - keydata;
      trg := readData - (readData * cont);
      cont := readData;
    }

    /** flex_button_process */
    method Process()
      requires Valid()
      modifies buttons
      ensures forall i :: 0 <= i < |buttons| ==>
                buttons[i].Value() == Step(buttons[i].times, old(buttons[i].Value()), i in cont, i in trg)
    {
      var i := 0;
      while i < |buttons|
        invariant i <= |buttons|
        invariant forall j :: 0 <= j < i ==>
                    buttons[j].Value() == Step(buttons[j].times, old(buttons[j].Value()), j in cont, j in trg)
        invariant forall j :: i <= j < |buttons| ==> buttons[j].Value() == old(buttons[j].Value())
      {
        assert forall j :: 0 <= j < |buttons| && j != i ==> buttons[j] != buttons[i];
        buttons[i].Advance(i in cont, i in trg);
        i := i + 1;
      }
    }

    /** flex_button_scan: every key takes one step on its level and on whether that is new. */
    method Scan(levels: seq<bool>)
      requires Valid() && |levels| == |buttons|
      modifies this, buttons
      ensures Valid() && buttons == old(buttons) && cont == Pressed(Polarity(buttons), levels)
      ensures forall i :: 0 <= i < |buttons| ==>
                buttons[i].Value() == Step(buttons[i].times, old(buttons[i].Value()), i in cont, i in cont - old(cont))
    {
      Read(levels);
      Process();
    }
  }

  function Polarity(buttons: seq<Button>): (p: seq<bool>)
    ensures |p| == |buttons| && forall i :: 0 <= i < |p| ==> p[i] == buttons[i].activeHigh
  {
    seq(|buttons|, i requires 0 <= i < |buttons| => buttons[i].activeHigh)
  }
}
