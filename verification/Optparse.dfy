/** optparse.c: short options are read from argv while operands are moved behind them, recursively and in place. */
module Optparse {
  import opened Prelude

  type Arg = string

  datatype ArgType = Unknown | NoArg | Required | OptionalArg

  /** What one call returns: -1, an option, or '?' for one that is unknown or lacks its argument. */
  datatype Result = End | Opt(c: char) | Invalid(c: char) | Missing(c: char)

  predicate IsDashDash(a: Arg) {
    a == "--"
  }

  predicate IsShortOpt(a: Arg) {
    |a| >= 2 && a[0] == '-' && a[1] != '-'
  }

  predicate IsOperand(a: Arg) {
    !IsDashDash(a) && !IsShortOpt(a)
  }

  /** optparse_argtype */
  function TypeOf(optstring: string, c: char): ArgType {
    if c == ':' || optstring == "" then Unknown
    else if optstring[0] != c then TypeOf(optstring[1..], c)
    else if |optstring| < 2 || optstring[1] != ':' then NoArg
    else if |optstring| < 3 || optstring[2] != ':' then Required
    else OptionalArg
  }

  // ----- one call as a function

  /** After a call: how many arguments it used up, the position in an unfinished group, and what it delivers. */
  datatype Reading = Reading(used: nat, subopt: nat, result: Result, optarg: Option<Arg>)

  /** Reading the option at position subopt of the group a; next is the argument behind it. */
  function Read(optstring: string, a: Arg, subopt: nat, next: Option<Arg>): (r: Reading)
    requires subopt + 1 < |a|
    ensures r.used <= 2 && (r.used == 2 ==> next.Some?)
    ensures r.used == 0 ==> r.subopt == subopt + 1 && r.subopt + 1 < |a|
    ensures !r.result.End? && (r.used > 0 && !r.result.Invalid? ==> r.subopt == 0)
  {
    var c := a[subopt + 1];
    var more := subopt + 2 < |a|;
    match TypeOf(optstring, c)
    case Unknown => Reading(1, subopt, Invalid(c), None)
    case NoArg => if more then Reading(0, subopt + 1, Opt(c), None) else Reading(1, 0, Opt(c), None)
    case Required =>
      if more then Reading(1, 0, Opt(c), Some(a[subopt + 2..]))
      else if next.Some? then Reading(2, 0, Opt(c), next)
      else Reading(1, 0, Missing(c), None)
    case OptionalArg => Reading(1, 0, Opt(c), if more then Some(a[subopt + 2..]) else None)
  }

  /** The first position from i on that holds no operand. */
  function Lead(args: seq<Arg>, i: nat): (k: nat)
    requires i <= |args|
    ensures i <= k <= |args| && (k < |args| ==> !IsOperand(args[k]))
    ensures forall j :: i <= j < k ==> IsOperand(args[j])
    decreases |args| - i
  {
    if i < |args| && IsOperand(args[i]) then Lead(args, i + 1) else i
  }

  /** Where a call stops to read: it passes operands only if it permutes. */
  function Stop(permute: bool, args: seq<Arg>, i: nat): (k: nat)
    requires i <= |args|
    ensures i <= k <= |args|
  {
    if permute then Lead(args, i) else i
  }

  function NextOf(args: seq<Arg>, k: nat): Option<Arg> {
    if k + 1 < |args| then Some(args[k + 1]) else None
  }

  /** A group that has begun is the next thing to read, and not at its end. */
  predicate Ready(args: seq<Arg>, k: nat, subopt: nat) {
    && (subopt > 0 ==> k < |args| && IsShortOpt(args[k]))
    && (k < |args| && IsShortOpt(args[k]) ==> subopt + 1 < |args[k]|)
  }

  /** What is read at position k. */
  function ReadAt(optstring: string, args: seq<Arg>, k: nat, subopt: nat): (r: Reading)
    requires k <= |args| && Ready(args, k, subopt)
    ensures k + r.used <= |args|
  {
    if k == |args| || IsOperand(args[k]) then Reading(0, subopt, End, None)
    else if IsDashDash(args[k]) then Reading(1, subopt, End, None)
    else Read(optstring, args[k], subopt, NextOf(args, k))
  }

  /** The arguments used up at position k have gone in front of the operands from position i on. */
  function Rotated(args: seq<Arg>, i: nat, k: nat, used: nat): (r: seq<Arg>)
    requires i <= k <= k + used <= |args|
    ensures |r| == |args|
  {
    args[..i] + args[k..k + used] + args[i..k] + args[k + used..]
  }

  /** The parser after a call, and what the call delivered. */
  datatype Call = Call(argv: seq<Arg>, optind: nat, subopt: nat, result: Result, optarg: Option<Arg>)

  /** One call of optparse. */
  function Called(optstring: string, permute: bool, argv: seq<Arg>, optind: nat, subopt: nat): Call
    requires optind <= |argv| && Ready(argv, Stop(permute, argv, optind), subopt)
  {
    var k := Stop(permute, argv, optind);
    var x := ReadAt(optstring, argv, k, subopt);
    Call(Rotated(argv, optind, k, x.used), optind + x.used, x.subopt, x.result, x.optarg)
  }

  /** Element i has moved behind those up to position j. */
  function Moved(a: seq<Arg>, i: nat, j: nat): seq<Arg>
    requires i < j <= |a|
  {
    a[..i] + a[i + 1..j] + [a[i]] + a[j..]
  }

  lemma MovedAt(a: seq<Arg>, i: nat, j: nat, k: nat)
    requires i < j <= |a| && k < |a|
    ensures Moved(a, i, j)[k] == if k < i || j <= k then a[k] else if k == j - 1 then a[i] else a[k + 1]
  {
  }

  // ----- the code

  class Parser {
    const argv: array<Arg>
    const permute: bool
    var optind: nat
    var subopt: nat
    var optarg: Option<Arg>

    /** optparse_init, where permute is set; argv ends where the C array has its null pointer. */
    constructor (a: array<Arg>, p: bool)
      requires a.Length > 0
      ensures argv == a && permute == p && optind == 1 && subopt == 0
    {
      argv, permute, optind, subopt, optarg := a, p, 1, 0, None;
    }

    /** optparse_permute: the operand at index goes behind what was read. */
    method Permute(index: nat)
      requires index < optind <= argv.Length
      modifies argv
      ensures argv[..] == Moved(old(argv[..]), index, optind)
    {
      ghost var a := argv[..];
      var nonoption := argv[index];
      var i := index;
      while i < optind - 1
        invariant index <= i < optind
        invariant forall k :: 0 <= k < index || i < k < argv.Length ==> argv[k] == a[k]
        invariant forall k :: index <= k < i ==> argv[k] == a[k + 1]
      {
        argv[i] := argv[i + 1];
        i := i + 1;
      }
      argv[optind - 1] := nonoption;
      forall k | 0 <= k < argv.Length
        ensures argv[k] == Moved(a, index, optind)[k]
      {
        MovedAt(a, index, optind, k);
      }
    }

    /** optparse, on the short option at optind. */
    method ReadOption(optstring: string) returns (r: Result)
      requires optind < argv.Length && IsShortOpt(argv[optind]) && subopt + 1 < |argv[optind]|
      modifies this
      ensures var x := Read(optstring, argv[old(optind)], old(subopt), NextOf(argv[..], old(optind)));
              optind == old(optind) + x.used && subopt == x.subopt && r == x.result && optarg == x.optarg
    {
      var option := argv[optind][subopt + 1..];
      var type_ := TypeOf(optstring, option[0]);
      optarg := None;
      match type_
      case Unknown =>
        optind := optind + 1;
        r := Invalid(option[0]);
      case NoArg =>
        if |option| > 1 {
          subopt := subopt + 1;
        } else {
          subopt := 0;
          optind := optind + 1;
        }
        r := Opt(option[0]);
      case Required =>
        subopt := 0;
        optind := optind + 1;
        if |option| > 1 {
          optarg := Some(option[1..]);
        } else if optind < argv.Length {
          optarg := Some(argv[optind]);
          optind := optind + 1;
        } else {
          return Missing(option[0]);
        }
        r := Opt(option[0]);
      case OptionalArg =>
        subopt := 0;
        optind := optind + 1;
        if |option| > 1 {
          optarg := Some(option[1..]);
        }
        r := Opt(option[0]);
    }

    ghost predicate Valid()
      reads this, argv
    {
      optind <= argv.Length && Ready(argv[..], Stop(permute, argv[..], optind), subopt)
    }

    /** optparse */
    method Next(optstring: string) returns (r: Result)
      requires Valid()
      modifies this, argv
      ensures Call(argv[..], optind, subopt, r, optarg) == Called(optstring, permute, old(argv[..]), old(optind), old(subopt))
      decreases argv.Length - optind, 1
    {
      CalledInFront(optstring, permute, argv[..], optind, subopt);
      optarg := None;
      if optind == argv.Length {
        return End;
      }
      if IsDashDash(argv[optind]) {
        optind := optind + 1;
        return End;
      }
      if !IsShortOpt(argv[optind]) {
        if !permute {
          return End;
        }
        r := PassOperand(optstring);
        return;
      }
      r := ReadOption(optstring);
    }

    /** optparse, with an operand in front: parse what is behind it, then move it behind what that has read. */
    method PassOperand(optstring: string) returns (r: Result)
      requires Valid() && permute && optind < argv.Length && IsOperand(argv[optind])
      modifies this, argv
      ensures Call(argv[..], optind, subopt, r, optarg) == Called(optstring, permute, old(argv[..]), old(optind), old(subopt))
      decreases argv.Length - optind, 0
    {
      OperandPassed(optstring, argv[..], optind, subopt);
      var index := optind;
      optind := optind + 1;
      r := Next(optstring);
      Permute(index);
      optind := optind - 1;
    }
  }

  /** With no operand to pass, a call moves nothing. */
  lemma CalledInFront(optstring: string, permute: bool, argv: seq<Arg>, optind: nat, subopt: nat)
    requires optind <= |argv| && Ready(argv, Stop(permute, argv, optind), subopt)
    ensures optind == |argv| || !permute || !IsOperand(argv[optind]) ==>
              && Stop(permute, argv, optind) == optind
              && var x := ReadAt(optstring, argv, optind, subopt);
              Called(optstring, permute, argv, optind, subopt) == Call(argv, optind + x.used, x.subopt, x.result, x.optarg)
  {
    if optind == |argv| || !permute || !IsOperand(argv[optind]) {
      NothingMoved(argv, optind, ReadAt(optstring, argv, optind, subopt).used);
    }
  }

  lemma NothingMoved(argv: seq<Arg>, i: nat, used: nat)
    requires i + used <= |argv|
    ensures Rotated(argv, i, i, used) == argv
  {
  }

  /** A call with an operand in front does what a call behind it does, and moves the operand behind what that one read. */
  lemma OperandPassed(optstring: string, argv: seq<Arg>, optind: nat, subopt: nat)
    requires optind < |argv| && IsOperand(argv[optind]) && Ready(argv, Lead(argv, optind), subopt)
    ensures Lead(argv, optind + 1) == Lead(argv, optind)
    ensures var c := Called(optstring, true, argv, optind + 1, subopt);
            && optind < c.optind <= |c.argv|
            && Called(optstring, true, argv, optind, subopt)
            == Call(Moved(c.argv, optind, c.optind), c.optind - 1, c.subopt, c.result, c.optarg)
  {
    var k := Lead(argv, optind);
    MoveBehind(argv, optind, k, ReadAt(optstring, argv, k, subopt).used);
  }

  lemma MoveBehind(a: seq<Arg>, i: nat, k: nat, used: nat)
    requires i < k && k + used <= |a|
    ensures Moved(Rotated(a, i + 1, k, used), i, i + 1 + used) == Rotated(a, i, k, used)
  {
    assert a[..i + 1] == a[..i] + [a[i]] && a[i..k] == [a[i]] + a[i + 1..k];
    MovePieces(a[..i], a[i], a[k..k + used], a[i + 1..k], a[k + used..]);
  }

  lemma MovePieces(before: seq<Arg>, x: Arg, taken: seq<Arg>, ops: seq<Arg>, behind: seq<Arg>)
    ensures Moved(before + [x] + taken + ops + behind, |before|, |before| + 1 + |taken|)
         == before + taken + ([x] + ops) + behind
  {
  }
}
