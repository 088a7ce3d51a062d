/** Calling optparse until it returns -1: argv ends up stably partitioned, and the options are those of argv in order. */
module OptparseLaws {
  import opened Prelude
  import opened Optparse

  /** How many arguments the rest of a group takes; None if it holds an unknown option. */
  function Width(optstring: string, a: Arg, subopt: nat, next: Option<Arg>): (w: Option<nat>)
    requires subopt + 1 < |a|
    ensures w.Some? ==> 1 <= w.value <= 2 && (w.value == 2 ==> next.Some?)
    decreases |a| - subopt
  {
    var x := Read(optstring, a, subopt, next);
    if x.result.Invalid? then None else if x.used > 0 then Some(x.used) else Width(optstring, a, x.subopt, next)
  }

  /** From position k on, every option that is read is in optstring. */
  predicate AllKnown(optstring: string, args: seq<Arg>, k: nat, subopt: nat)
    requires k <= |args| && Ready(args, k, subopt)
    decreases |args| - k
  {
    if k == |args| || IsDashDash(args[k]) then true
    else if IsOperand(args[k]) then AllKnown(optstring, args, k + 1, 0)
    else match Width(optstring, args[k], subopt, NextOf(args, k))
      case None => false
      case Some(w) => AllKnown(optstring, args, k + w, 0)
  }

  /** Options with their arguments and a "--", in order; and the operands, in order. */
  datatype Parts = Parts(options: seq<Arg>, operands: seq<Arg>)

  function Split(optstring: string, args: seq<Arg>, k: nat, subopt: nat): Parts
    requires k <= |args| && Ready(args, k, subopt)
    decreases |args| - k
  {
    if k == |args| then Parts([], [])
    else if IsDashDash(args[k]) then Parts([args[k]], args[k + 1..])
    else if IsOperand(args[k]) then
      var s := Split(optstring, args, k + 1, 0);
      Parts(s.options, [args[k]] + s.operands)
    else match Width(optstring, args[k], subopt, NextOf(args, k))
      case None => Parts([], args[k..])
      case Some(w) =>
        var s := Split(optstring, args, k + w, 0);
        Parts(args[k..k + w] + s.options, s.operands)
  }

  type Item = (Result, Option<Arg>)

  function Rank(args: seq<Arg>, k: nat, subopt: nat): nat {
    if k < |args| && |args[k]| > subopt then |args[k]| - subopt else 0
  }

  /** The options in the order of argv, with their arguments. */
  function Items(optstring: string, args: seq<Arg>, k: nat, subopt: nat): seq<Item>
    requires k <= |args| && Ready(args, k, subopt)
    decreases |args| - k, Rank(args, k, subopt)
  {
    if k == |args| || IsDashDash(args[k]) then []
    else if IsOperand(args[k]) then Items(optstring, args, k + 1, 0)
    else
      var x := Read(optstring, args[k], subopt, NextOf(args, k));
      [(x.result, x.optarg)] + Items(optstring, args, k + x.used, if x.used == 0 then x.subopt else 0)
  }

  // ----- what is ahead does not depend on what lies before

  ghost predicate SameFrom(a: seq<Arg>, b: seq<Arg>, k: nat) {
    |a| == |b| && forall i :: k <= i < |a| ==> a[i] == b[i]
  }

  lemma {:induction false} LeadAhead(a: seq<Arg>, b: seq<Arg>, k: nat)
    requires SameFrom(a, b, k) && k <= |a|
    ensures Lead(a, k) == Lead(b, k)
    decreases |a| - k
  {
    if k < |a| {
      LeadAhead(a, b, k + 1);
    }
  }

  lemma {:induction false} SplitAhead(optstring: string, a: seq<Arg>, b: seq<Arg>, k: nat, subopt: nat)
    requires SameFrom(a, b, k) && k <= |a| && Ready(a, k, subopt)
    ensures Ready(b, k, subopt) && Split(optstring, a, k, subopt) == Split(optstring, b, k, subopt)
    ensures AllKnown(optstring, a, k, subopt) == AllKnown(optstring, b, k, subopt)
    decreases |a| - k
  {
    hide Read;
    if k == |a| {
    } else if IsDashDash(a[k]) {
      assert a[k + 1..] == b[k + 1..];
    } else if IsOperand(a[k]) {
      SplitAhead(optstring, a, b, k + 1, 0);
    } else {
      assert NextOf(a, k) == NextOf(b, k) && a[k..] == b[k..];
      var w := Width(optstring, a[k], subopt, NextOf(a, k));
      if w.Some? {
        assert a[k..k + w.value] == b[k..k + w.value];
        SplitAhead(optstring, a, b, k + w.value, 0);
      }
    }
  }

  lemma {:induction false} ItemsAhead(optstring: string, a: seq<Arg>, b: seq<Arg>, k: nat, subopt: nat)
    requires SameFrom(a, b, k) && k <= |a| && Ready(a, k, subopt)
    ensures Ready(b, k, subopt) && Items(optstring, a, k, subopt) == Items(optstring, b, k, subopt)
    decreases |a| - k, Rank(a, k, subopt)
  {
    hide Read;
    if k == |a| || IsDashDash(a[k]) {
    } else if IsOperand(a[k]) {
      ItemsAhead(optstring, a, b, k + 1, 0);
    } else {
      assert NextOf(a, k) == NextOf(b, k);
      var x := Read(optstring, a[k], subopt, NextOf(a, k));
      ItemsAhead(optstring, a, b, k + x.used, if x.used == 0 then x.subopt else 0);
    }
  }

  // ----- operands in front

  lemma {:induction false} LeadThrough(a: seq<Arg>, i: nat, k: nat)
    requires i <= k <= |a| && forall j :: i <= j < k ==> IsOperand(a[j])
    ensures Lead(a, i) == Lead(a, k)
    decreases k - i
  {
    if i < k {
      LeadThrough(a, i + 1, k);
    }
  }

  lemma {:induction false} KnownBehind(optstring: string, args: seq<Arg>, k: nat)
    requires k <= |args| && Ready(args, k, 0) && AllKnown(optstring, args, k, 0)
    ensures Ready(args, Lead(args, k), 0) && AllKnown(optstring, args, Lead(args, k), 0)
    decreases |args| - k
  {
    if k < |args| && IsOperand(args[k]) {
      KnownBehind(optstring, args, k + 1);
    }
  }

  lemma OneMore(args: seq<Arg>, k: nat, n: nat, more: seq<Arg>)
    requires k < n <= |args|
    ensures [args[k]] + (args[k + 1..n] + more) == args[k..n] + more
  {
  }

  /** Operands up to the next option are operands of the split, and no options. */
  lemma {:induction false} SplitLead(optstring: string, args: seq<Arg>, k: nat)
    requires k <= |args| && Ready(args, k, 0) && Ready(args, Lead(args, k), 0)
    ensures var s, t := Split(optstring, args, k, 0), Split(optstring, args, Lead(args, k), 0);
            s == Parts(t.options, args[k..Lead(args, k)] + t.operands)
    ensures Items(optstring, args, k, 0) == Items(optstring, args, Lead(args, k), 0)
    decreases |args| - k
  {
    hide Width, AllKnown;
    var n, t := Lead(args, k), Split(optstring, args, Lead(args, k), 0);
    if k < |args| && IsOperand(args[k]) {
      SplitLead(optstring, args, k + 1);
      OneMore(args, k, n, t.operands);
    } else {
      assert args[k..n] + t.operands == t.operands;
    }
  }

  /** The position in a group behind a reading: inside it, or none. */
  function SubBehind(x: Reading): nat {
    if x.used == 0 then x.subopt else 0
  }

  /** Where the next reading will be. */
  function Behind(args: seq<Arg>, k: nat, x: Reading): nat
    requires k + x.used <= |args|
  {
    Lead(args, k + x.used)
  }

  lemma LeadHere(a: seq<Arg>, k: nat)
    requires k < |a| && IsShortOpt(a[k])
    ensures Lead(a, k) == k
  {
  }

  /** What one reading of a known option takes off the split, and what it delivers. */
  lemma SplitStep(optstring: string, args: seq<Arg>, k: nat, subopt: nat)
    requires k < |args| && IsShortOpt(args[k]) && Ready(args, k, subopt) && AllKnown(optstring, args, k, subopt)
    ensures var x := ReadAt(optstring, args, k, subopt);
            var n := Behind(args, k, x);
            && x.subopt == SubBehind(x) && !x.result.End? && Ready(args, n, x.subopt)
            && AllKnown(optstring, args, n, x.subopt)
            && var s, t := Split(optstring, args, k, subopt), Split(optstring, args, n, x.subopt);
            && s == Parts(args[k..k + x.used] + t.options, args[k + x.used..n] + t.operands)
            && Items(optstring, args, k, subopt) == [(x.result, x.optarg)] + Items(optstring, args, n, x.subopt)
  {
    hide Read, Lead, Split, AllKnown, Items;
    if ReadAt(optstring, args, k, subopt).used == 0 {
      GroupGoesOn(optstring, args, k, subopt);
    } else {
      GroupEnds(optstring, args, k, subopt);
      var next := k + ReadAt(optstring, args, k, subopt).used;
      KnownBehind(optstring, args, next);
      SplitLead(optstring, args, next);
    }
  }

  /** A reading inside a group takes nothing off the split. */
  lemma GroupGoesOn(optstring: string, args: seq<Arg>, k: nat, subopt: nat)
    requires k < |args| && IsShortOpt(args[k]) && Ready(args, k, subopt) && AllKnown(optstring, args, k, subopt)
    requires ReadAt(optstring, args, k, subopt).used == 0
    ensures var x := ReadAt(optstring, args, k, subopt);
            && x.subopt == SubBehind(x) && !x.result.End? && Behind(args, k, x) == k && Ready(args, k, x.subopt)
            && AllKnown(optstring, args, k, x.subopt)
            && var s, t := Split(optstring, args, k, subopt), Split(optstring, args, k, x.subopt);
            && s == t == Parts(args[k..k] + t.options, args[k..k] + t.operands)
            && Items(optstring, args, k, subopt) == [(x.result, x.optarg)] + Items(optstring, args, k, x.subopt)
  {
    hide Read, Lead;
    LeadHere(args, k);
    NothingTaken(args, k, Split(optstring, args, k, subopt).options);
    NothingTaken(args, k, Split(optstring, args, k, subopt).operands);
  }

  /** A reading that ends a group takes what it used off the split. */
  lemma GroupEnds(optstring: string, args: seq<Arg>, k: nat, subopt: nat)
    requires k < |args| && IsShortOpt(args[k]) && Ready(args, k, subopt) && AllKnown(optstring, args, k, subopt)
    requires ReadAt(optstring, args, k, subopt).used > 0
    ensures var x := ReadAt(optstring, args, k, subopt);
            && x.subopt == SubBehind(x) == 0 && !x.result.End? && Ready(args, k + x.used, 0)
            && AllKnown(optstring, args, k + x.used, 0)
            && var s, t := Split(optstring, args, k, subopt), Split(optstring, args, k + x.used, 0);
            && s == Parts(args[k..k + x.used] + t.options, t.operands)
            && Items(optstring, args, k, subopt) == [(x.result, x.optarg)] + Items(optstring, args, k + x.used, 0)
  {
    hide Read;
  }

  lemma NothingTaken(args: seq<Arg>, k: nat, more: seq<Arg>)
    requires k <= |args|
    ensures args[k..k] + more == more
  {
  }

  // ----- one call

  lemma RotatedAt(a: seq<Arg>, i: nat, k: nat, used: nat, n: nat)
    requires i <= k && k + used <= n <= |a|
    ensures var r := Rotated(a, i, k, used);
            && r[..i + used] == a[..i] + a[k..k + used]
            && r[i + used..n] == a[i..k] + a[k + used..n]
  {
    var r := Rotated(a, i, k, used);
    assert r == (a[..i] + a[k..k + used]) + (a[i..k] + a[k + used..n]) + a[n..];
  }

  /** The operands in front of a group that was read are still in front of what is behind it. */
  lemma RotatedLead(a: seq<Arg>, i: nat, k: nat, used: nat)
    requires i <= k && k + used <= |a| && forall j :: i <= j < k ==> IsOperand(a[j])
    ensures Lead(Rotated(a, i, k, used), i + used) == Lead(a, k + used) && SameFrom(Rotated(a, i, k, used), a, k + used)
  {
    var r := Rotated(a, i, k, used);
    OperandsStay(a, i, k, used);
    LeadThrough(r, i + used, k + used);
    LeadAhead(r, a, k + used);
  }

  /** After a call that read an option: the next one is where Behind says, and what is ahead is unchanged. */
  lemma CallStep(optstring: string, argv: seq<Arg>, optind: nat, subopt: nat)
    requires optind <= |argv| && Ready(argv, Lead(argv, optind), subopt)
    requires var k := Lead(argv, optind); k < |argv| && IsShortOpt(argv[k])
    ensures var k := Lead(argv, optind);
            var x, c := ReadAt(optstring, argv, k, subopt), Called(optstring, true, argv, optind, subopt);
            var n := Behind(argv, k, x);
            && c.optind <= |c.argv| && Lead(c.argv, c.optind) == n && SameFrom(c.argv, argv, k + x.used) && k + x.used <= n
  {
    hide *;
    var k := Lead(argv, optind);
    var used := ReadAt(optstring, argv, k, subopt).used;
    CalledRotates(optstring, argv, optind, subopt);
    BehindIsLead(argv, k, ReadAt(optstring, argv, k, subopt));
    RotatedLead(argv, optind, k, used);
  }

  lemma CalledRotates(optstring: string, argv: seq<Arg>, optind: nat, subopt: nat)
    requires optind <= |argv| && Ready(argv, Lead(argv, optind), subopt)
    ensures var k, c := Lead(argv, optind), Called(optstring, true, argv, optind, subopt);
            var used := ReadAt(optstring, argv, k, subopt).used;
            k + used <= |argv| && c.argv == Rotated(argv, optind, k, used) && c.optind == optind + used
  {
    hide ReadAt, Ready, Lead, Rotated, IsOperand;
  }

  lemma BehindIsLead(args: seq<Arg>, k: nat, x: Reading)
    requires k + x.used <= |args|
    ensures Behind(args, k, x) == Lead(args, k + x.used) && k + x.used <= Behind(args, k, x)
  {
  }

  lemma OperandsStay(a: seq<Arg>, i: nat, k: nat, used: nat)
    requires i <= k && k + used <= |a| && forall j :: i <= j < k ==> IsOperand(a[j])
    ensures forall j :: i + used <= j < k + used ==> IsOperand(Rotated(a, i, k, used)[j])
  {
    var r := Rotated(a, i, k, used);
    assert forall j :: i + used <= j < k + used ==> r[j] == a[j - used];
  }

  // ----- all calls

  /** argv and optind when -1 has been returned, and what was delivered before. */
  datatype Outcome = Outcome(argv: seq<Arg>, optind: nat, items: seq<Item>)

  /** Calling optparse until it returns -1. */
  ghost function ParseAll(optstring: string, argv: seq<Arg>, optind: nat, subopt: nat): Outcome
    requires optind <= |argv| && Ready(argv, Lead(argv, optind), subopt)
    requires AllKnown(optstring, argv, Lead(argv, optind), subopt)
    decreases |argv| - Lead(argv, optind), Rank(argv, Lead(argv, optind), subopt)
  {
    var c := Called(optstring, true, argv, optind, subopt);
    if c.result.End? then Outcome(c.argv, c.optind, [])
    else
      CallStep(optstring, argv, optind, subopt);
      AheadOfCall(optstring, argv, optind, subopt);
      var o := ParseAll(optstring, c.argv, c.optind, c.subopt);
      o.(items := [(c.result, c.optarg)] + o.items)
  }

  /** Options go behind what was parsed, operands behind those that were passed. */
  function Arranged(before: seq<Arg>, s: Parts, passed: seq<Arg>): seq<Arg> {
    before + s.options + passed + s.operands
  }

  /** argv at the end, from a point between two calls. */
  function Expected(optstring: string, argv: seq<Arg>, optind: nat, subopt: nat): seq<Arg>
    requires optind <= |argv| && Ready(argv, Lead(argv, optind), subopt)
  {
    var k := Lead(argv, optind);
    Arranged(argv[..optind], Split(optstring, argv, k, subopt), argv[optind..k])
  }

  /** What is taken off the split goes behind what was parsed, what is passed behind the operands. */
  lemma ArrangedStep(before: seq<Arg>, s: Parts, ops: seq<Arg>, taken: seq<Arg>, t: Parts, more: seq<Arg>, b: seq<Arg>, p: seq<Arg>)
    requires b == before + taken && p == ops + more && s == Parts(taken + t.options, more + t.operands)
    ensures Arranged(b, t, p) == Arranged(before, s, ops)
  {
  }

  /** The split and the options ahead are the same before and after the call. */
  lemma AheadOfCall(optstring: string, argv: seq<Arg>, optind: nat, subopt: nat)
    requires optind <= |argv| && Ready(argv, Lead(argv, optind), subopt)
    requires var k := Lead(argv, optind); k < |argv| && IsShortOpt(argv[k]) && AllKnown(optstring, argv, k, subopt)
    ensures var k, c := Lead(argv, optind), Called(optstring, true, argv, optind, subopt);
            var n := Behind(argv, k, ReadAt(optstring, argv, k, subopt));
            && c.optind <= n <= |c.argv| && Lead(c.argv, c.optind) == n && Ready(argv, n, c.subopt) && Ready(c.argv, n, c.subopt)
            && Split(optstring, c.argv, n, c.subopt) == Split(optstring, argv, n, c.subopt)
            && Items(optstring, c.argv, n, c.subopt) == Items(optstring, argv, n, c.subopt)
            && AllKnown(optstring, c.argv, n, c.subopt)
  {
    hide Split, AllKnown, Items, Read, Width, Rotated, Lead, Behind;
    var k, c := Lead(argv, optind), Called(optstring, true, argv, optind, subopt);
    var n := Behind(argv, k, ReadAt(optstring, argv, k, subopt));
    CallStep(optstring, argv, optind, subopt);
    SplitStep(optstring, argv, k, subopt);
    SplitAhead(optstring, argv, c.argv, n, c.subopt);
    ItemsAhead(optstring, argv, c.argv, n, c.subopt);
  }

  /** Moving what was used behind what was parsed leaves the expected argv as it is. */
  lemma ArrangedFrom(a: seq<Arg>, i: nat, k: nat, used: nat, n: nat, s: Parts, t: Parts)
    requires i <= k && k + used <= n <= |a| && s == Parts(a[k..k + used] + t.options, a[k + used..n] + t.operands)
    ensures var r := Rotated(a, i, k, used); Arranged(r[..i + used], t, r[i + used..n]) == Arranged(a[..i], s, a[i..k])
  {
    var r := Rotated(a, i, k, used);
    hide Rotated, Arranged;
    RotatedAt(a, i, k, used, n);
    ArrangedStep(a[..i], s, a[i..k], a[k..k + used], t, a[k + used..n], r[..i + used], r[i + used..n]);
  }

  /** A call that reads an option leaves the expected argv as it is. */
  lemma ExpectedStep(optstring: string, argv: seq<Arg>, optind: nat, subopt: nat)
    requires optind <= |argv| && Ready(argv, Lead(argv, optind), subopt)
    requires var k := Lead(argv, optind); k < |argv| && IsShortOpt(argv[k]) && AllKnown(optstring, argv, k, subopt)
    ensures var c := Called(optstring, true, argv, optind, subopt);
            && c.optind <= |c.argv| && Ready(c.argv, Lead(c.argv, c.optind), c.subopt)
            && Expected(optstring, c.argv, c.optind, c.subopt) == Expected(optstring, argv, optind, subopt)
  {
    hide Split, AllKnown, Items, Read, Rotated, Lead, Ready, Arranged;
    var k := Lead(argv, optind);
    var x := ReadAt(optstring, argv, k, subopt);
    AheadOfCall(optstring, argv, optind, subopt);
    SplitStep(optstring, argv, k, subopt);
    var n := Behind(argv, k, x);
    ArrangedFrom(argv, optind, k, x.used, n, Split(optstring, argv, k, subopt), Split(optstring, argv, n, x.subopt));
  }

  /** The call that returns -1 has arranged everything. */
  lemma LastCall(optstring: string, argv: seq<Arg>, optind: nat, subopt: nat)
    requires optind <= |argv| && Ready(argv, Lead(argv, optind), subopt)
    requires var k := Lead(argv, optind); k == |argv| || IsDashDash(argv[k])
    ensures var k, c := Lead(argv, optind), Called(optstring, true, argv, optind, subopt);
            && c.result.End? && c.argv == Expected(optstring, argv, optind, subopt)
            && c.optind == optind + |Split(optstring, argv, k, subopt).options|
  {
    var k := Lead(argv, optind);
    if k == |argv| {
      assert argv[k..] == [] && argv[..optind] + [] + argv[optind..] + [] == argv;
    } else {
      assert argv[k..k + 1] == [argv[k]];
    }
  }

  /**
   * The outcome, from any point between two calls: what was parsed before, the options and their arguments in order,
   * the operands passed so far and those still ahead in order; and exactly the options of argv were delivered.
   */
  lemma {:induction false} Partitions(optstring: string, argv: seq<Arg>, optind: nat, subopt: nat)
    requires optind <= |argv| && Ready(argv, Lead(argv, optind), subopt)
    requires AllKnown(optstring, argv, Lead(argv, optind), subopt)
    ensures var o, k := ParseAll(optstring, argv, optind, subopt), Lead(argv, optind);
            && o.argv == Expected(optstring, argv, optind, subopt)
            && o.optind == optind + |Split(optstring, argv, k, subopt).options|
            && o.items == Items(optstring, argv, k, subopt)
    decreases |argv| - Lead(argv, optind), Rank(argv, Lead(argv, optind), subopt)
  {
    var k, c := Lead(argv, optind), Called(optstring, true, argv, optind, subopt);
    if k == |argv| || IsDashDash(argv[k]) {
      LastCall(optstring, argv, optind, subopt);
    } else {
      CallStep(optstring, argv, optind, subopt);
      AheadOfCall(optstring, argv, optind, subopt);
      ExpectedStep(optstring, argv, optind, subopt);
      SplitStep(optstring, argv, k, subopt);
      Partitions(optstring, c.argv, c.optind, c.subopt);
    }
  }

  // ----- the partition

  /** s is a merge of a and b. */
  ghost predicate Interleaved(s: seq<Arg>, a: seq<Arg>, b: seq<Arg>) {
    if s == [] then a == [] && b == []
    else (a != [] && a[0] == s[0] && Interleaved(s[1..], a[1..], b)) || (b != [] && b[0] == s[0] && Interleaved(s[1..], a, b[1..]))
  }

  lemma {:induction false} AllRight(b: seq<Arg>)
    ensures Interleaved(b, [], b)
  {
    if b != [] {
      AllRight(b[1..]);
    }
  }

  lemma {:induction false} LeftFirst(w: seq<Arg>, s: seq<Arg>, a: seq<Arg>, b: seq<Arg>)
    requires Interleaved(s, a, b)
    ensures Interleaved(w + s, w + a, b)
  {
    if w == [] {
      assert w + s == s && w + a == a;
    } else {
      LeftFirst(w[1..], s, a, b);
      assert (w + s)[1..] == w[1..] + s && (w + a)[1..] == w[1..] + a;
    }
  }

  lemma RightFirst(x: Arg, s: seq<Arg>, a: seq<Arg>, b: seq<Arg>)
    requires Interleaved(s, a, b)
    ensures Interleaved([x] + s, a, [x] + b)
  {
    assert ([x] + s)[1..] == s && ([x] + b)[1..] == b;
  }

  /** The split keeps everything, and both parts keep their order. */
  lemma {:induction false} SplitIsStable(optstring: string, args: seq<Arg>, k: nat, subopt: nat)
    requires k <= |args| && Ready(args, k, subopt) && AllKnown(optstring, args, k, subopt)
    ensures var s := Split(optstring, args, k, subopt); Interleaved(args[k..], s.options, s.operands)
    decreases |args| - k
  {
    if k == |args| {
    } else if IsDashDash(args[k]) {
      hide Interleaved;
      AllRight(args[k + 1..]);
      LeftFirst([args[k]], args[k + 1..], [], args[k + 1..]);
      assert [args[k]] + args[k + 1..] == args[k..] && [args[k]] + [] == [args[k]];
    } else if IsOperand(args[k]) {
      hide Interleaved;
      SplitIsStable(optstring, args, k + 1, 0);
      var s := Split(optstring, args, k + 1, 0);
      RightFirst(args[k], args[k + 1..], s.options, s.operands);
      assert [args[k]] + args[k + 1..] == args[k..];
    } else {
      hide Interleaved;
      var w := Width(optstring, args[k], subopt, NextOf(args, k)).value;
      SplitIsStable(optstring, args, k + w, 0);
      var s := Split(optstring, args, k + w, 0);
      LeftFirst(args[k..k + w], args[k + w..], s.options, s.operands);
      assert args[k..k + w] + args[k + w..] == args[k..];
    }
  }

  /** A whole command line: argv[1..optind) are the options, argv[optind..] the operands, both in their original order. */
  lemma CommandLine(optstring: string, argv: seq<Arg>)
    requires argv != [] && Ready(argv, 1, 0) && AllKnown(optstring, argv, 1, 0)
    ensures Ready(argv, Lead(argv, 1), 0) && AllKnown(optstring, argv, Lead(argv, 1), 0)
    ensures var o, s := ParseAll(optstring, argv, 1, 0), Split(optstring, argv, 1, 0);
            && |o.argv| == |argv| && 1 <= o.optind <= |o.argv| && o.argv[0] == argv[0]
            && o.argv[1..o.optind] == s.options && o.argv[o.optind..] == s.operands
            && Interleaved(argv[1..], s.options, s.operands)
            && o.items == Items(optstring, argv, 1, 0)
  {
    KnownBehind(optstring, argv, 1);
    Partitions(optstring, argv, 1, 0);
    SplitLead(optstring, argv, 1);
    SplitIsStable(optstring, argv, 1, 0);
    var s, t := Split(optstring, argv, 1, 0), Split(optstring, argv, Lead(argv, 1), 0);
    InterleavedLength(argv[1..], s.options, s.operands);
    CutAt(argv[..1], s.options, argv[1..Lead(argv, 1)], t.operands);
  }

  lemma CutAt(first: seq<Arg>, o: seq<Arg>, p: seq<Arg>, q: seq<Arg>)
    requires |first| == 1
    ensures var a := first + o + p + q; a[0] == first[0] && a[1..1 + |o|] == o && a[1 + |o|..] == p + q
  {
  }

  lemma {:induction false} InterleavedLength(s: seq<Arg>, a: seq<Arg>, b: seq<Arg>)
    requires Interleaved(s, a, b)
    ensures |s| == |a| + |b|
  {
    if s != [] {
      if a != [] && a[0] == s[0] && Interleaved(s[1..], a[1..], b) {
        InterleavedLength(s[1..], a[1..], b);
      } else {
        InterleavedLength(s[1..], a, b[1..]);
      }
    }
  }
}
