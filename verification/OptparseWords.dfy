/** Command lines written down word by word, with what optstring says about each letter, and what optparse makes of them. */
module OptparseWords {
  import opened Prelude
  import opened Optparse
  import opened OptparseLaws

  // ----- optstring

  ghost predicate FirstAt(optstring: string, c: char, p: nat) {
    p < |optstring| && optstring[p] == c && forall q :: 0 <= q < p ==> optstring[q] != c
  }

  /** The number of colons behind position p, two at most. */
  function ColonsBehind(optstring: string, p: nat): nat {
    if p + 1 >= |optstring| || optstring[p + 1] != ':' then 0
    else if p + 2 >= |optstring| || optstring[p + 2] != ':' then 1
    else 2
  }

  /** c is an option: with no argument (0 colons), with one (1 colon), or with one or none (2 colons). */
  ghost predicate Takes(optstring: string, c: char, colons: nat) {
    c != ':' && exists p :: FirstAt(optstring, c, p) && ColonsBehind(optstring, p) == colons
  }

  lemma {:induction false} TypeAt(optstring: string, c: char, p: nat)
    requires c != ':' && FirstAt(optstring, c, p)
    ensures TypeOf(optstring, c)
         == match ColonsBehind(optstring, p) case 0 => NoArg case 1 => Required case _ => OptionalArg
    decreases p
  {
    if p > 0 {
      var rest := optstring[1..];
      assert forall q :: 0 <= q < |rest| ==> rest[q] == optstring[q + 1];
      TypeAt(rest, c, p - 1);
    }
  }

  /** What the colons behind a letter mean to optparse_argtype. */
  lemma TypeMeans(optstring: string, c: char, colons: nat)
    requires Takes(optstring, c, colons)
    ensures TypeOf(optstring, c) == match colons case 0 => NoArg case 1 => Required case _ => OptionalArg
  {
    var p :| FirstAt(optstring, c, p) && ColonsBehind(optstring, p) == colons;
    TypeAt(optstring, c, p);
  }

  lemma {:induction false} TypeNone(optstring: string, c: char)
    requires c !in optstring
    ensures TypeOf(optstring, c) == Unknown
  {
    if optstring != "" {
      assert optstring[0] in optstring && forall x :: x in optstring[1..] ==> x in optstring;
      TypeNone(optstring[1..], c);
    }
  }

  /** Every other letter, and the colon, is unknown. */
  lemma UnknownIff(optstring: string, c: char)
    ensures TypeOf(optstring, c) == Unknown <==> c == ':' || c !in optstring
  {
    if c != ':' {
      if c in optstring {
        var p := First(optstring, c);
        TypeAt(optstring, c, p);
      } else {
        TypeNone(optstring, c);
      }
    }
  }

  lemma {:induction false} First(s: string, c: char) returns (p: nat)
    requires c in s
    ensures FirstAt(s, c, p)
  {
    if s[0] == c {
      p := 0;
    } else {
      assert s == [s[0]] + s[1..];
      p := First(s[1..], c);
      p := p + 1;
    }
  }

  // ----- words

  /** Letters without arguments behind a dash, and perhaps a last one with an argument: in the same word or the next. */
  datatype Word =
    | Flags(cs: string)
    | Attached(cs: string, c: char, arg: string)
    | Apart(cs: string, c: char, arg: Arg)
    | Alone(cs: string, c: char) // the argument is optional, and there is none
    | Operand(a: Arg)

  /** What ends a command line: nothing, a "--" and operands behind it, or a letter that lacks its argument. */
  datatype Last = Nothing | Dashes(operands: seq<Arg>) | Lacking(cs: string, c: char)

  ghost predicate AllFlags(optstring: string, cs: string) {
    forall k :: 0 <= k < |cs| ==> Takes(optstring, cs[k], 0)
  }

  ghost predicate IsWord(optstring: string, w: Word) {
    match w
    case Flags(cs) => cs != "" && cs[0] != '-' && AllFlags(optstring, cs)
    case Attached(cs, c, arg) =>
      && (cs + [c])[0] != '-' && AllFlags(optstring, cs)
      && (Takes(optstring, c, 1) || Takes(optstring, c, 2)) && arg != ""
    case Apart(cs, c, _) => (cs + [c])[0] != '-' && AllFlags(optstring, cs) && Takes(optstring, c, 1)
    case Alone(cs, c) => (cs + [c])[0] != '-' && AllFlags(optstring, cs) && Takes(optstring, c, 2)
    case Operand(a) => |a| < 2 || a[0] != '-' || (a[1] == '-' && |a| > 2)
  }

  ghost predicate IsLast(optstring: string, e: Last) {
    e.Lacking? ==> (e.cs + [e.c])[0] != '-' && AllFlags(optstring, e.cs) && Takes(optstring, e.c, 1)
  }

  ghost predicate Words(optstring: string, ws: seq<Word>) {
    forall k :: 0 <= k < |ws| ==> IsWord(optstring, ws[k])
  }

  function Dashed(s: string): Arg {
    ['-'] + s
  }

  function WordArgs(w: Word): seq<Arg> {
    match w
    case Flags(cs) => [Dashed(cs)]
    case Attached(cs, c, arg) => [Dashed(cs + [c] + arg)]
    case Apart(cs, c, arg) => [Dashed(cs + [c]), arg]
    case Alone(cs, c) => [Dashed(cs + [c])]
    case Operand(a) => [a]
  }

  function LastArgs(e: Last): seq<Arg> {
    match e
    case Nothing => []
    case Dashes(operands) => ["--"] + operands
    case Lacking(cs, c) => [Dashed(cs + [c])]
  }

  /** The command line behind the name of the program. */
  function Args(ws: seq<Word>, e: Last): seq<Arg> {
    if ws == [] then LastArgs(e) else WordArgs(ws[0]) + Args(ws[1..], e)
  }

  // ----- what they mean

  function FlagItems(cs: string): seq<Item> {
    if cs == "" then [] else [(Opt(cs[0]), None)] + FlagItems(cs[1..])
  }

  function WordItems(w: Word): seq<Item> {
    match w
    case Flags(cs) => FlagItems(cs)
    case Attached(cs, c, arg) => FlagItems(cs) + [(Opt(c), Some(arg))]
    case Apart(cs, c, arg) => FlagItems(cs) + [(Opt(c), Some(arg))]
    case Alone(cs, c) => FlagItems(cs) + [(Opt(c), None)]
    case Operand(_) => []
  }

  /** The letters in their order, each with its argument. */
  function Delivered(ws: seq<Word>, e: Last): seq<Item> {
    if ws == [] then (if e.Lacking? then FlagItems(e.cs) + [(Missing(e.c), None)] else [])
    else WordItems(ws[0]) + Delivered(ws[1..], e)
  }

  /** The words that are no operands, and a "--". */
  function OptionArgs(ws: seq<Word>, e: Last): seq<Arg> {
    if ws == [] then (if e.Dashes? then ["--"] else LastArgs(e))
    else if ws[0].Operand? then OptionArgs(ws[1..], e)
    else WordArgs(ws[0]) + OptionArgs(ws[1..], e)
  }

  function OperandArgs(ws: seq<Word>, e: Last): seq<Arg> {
    if ws == [] then (if e.Dashes? then e.operands else [])
    else if ws[0].Operand? then [ws[0].a] + OperandArgs(ws[1..], e)
    else OperandArgs(ws[1..], e)
  }

  // ----- one group

  /** A group at position k whose letters up to n take no argument, and has one more letter. */
  ghost predicate FlagsUpTo(optstring: string, args: seq<Arg>, k: nat, n: nat) {
    k < |args| && n + 1 < |args[k]| && IsShortOpt(args[k]) && AllFlags(optstring, args[k][1..n + 1])
  }

  lemma FlagRead(optstring: string, args: seq<Arg>, k: nat, n: nat, s: nat)
    requires FlagsUpTo(optstring, args, k, n) && s < n
    ensures var a, next := args[k], NextOf(args, k);
            && Read(optstring, a, s, next) == Reading(0, s + 1, Opt(a[s + 1]), None)
            && Width(optstring, a, s, next) == Width(optstring, a, s + 1, next)
            && Items(optstring, args, k, s) == [(Opt(a[s + 1]), None)] + Items(optstring, args, k, s + 1)
  {
    hide TypeOf;
    assert args[k][1..n + 1][s] == args[k][s + 1];
    TypeMeans(optstring, args[k][s + 1], 0);
  }

  lemma FlagInFront(a: Arg, s: nat, n: nat, more: seq<Item>)
    requires s < n && n + 1 < |a|
    ensures [(Opt(a[s + 1]), None)] + (FlagItems(a[s + 2..n + 1]) + more) == FlagItems(a[s + 1..n + 1]) + more
  {
    assert a[s + 1..n + 1][1..] == a[s + 2..n + 1];
  }

  lemma NoFlags(a: Arg, n: nat, more: seq<Item>)
    requires n + 1 <= |a|
    ensures FlagItems(a[n + 1..n + 1]) + more == more
  {
  }

  lemma FlagsHere(optstring: string, args: seq<Arg>, k: nat, n: nat)
    requires FlagsUpTo(optstring, args, k, n)
    ensures k < |args| && n + 1 < |args[k]| && IsShortOpt(args[k])
  {
  }

  lemma {:induction false} FlagsRead(optstring: string, args: seq<Arg>, k: nat, n: nat, s: nat)
    requires FlagsUpTo(optstring, args, k, n) && s <= n
    ensures var a, next := args[k], NextOf(args, k);
            && Width(optstring, a, s, next) == Width(optstring, a, n, next)
            && Items(optstring, args, k, s) == FlagItems(a[s + 1..n + 1]) + Items(optstring, args, k, n)
    decreases n - s
  {
    hide FlagsUpTo, Read, Width, Items, FlagItems, NextOf;
    FlagsHere(optstring, args, k, n);
    if s < n {
      FlagRead(optstring, args, k, n, s);
      FlagsRead(optstring, args, k, n, s + 1);
      FlagInFront(args[k], s, n, Items(optstring, args, k, n));
    } else {
      NoFlags(args[k], n, Items(optstring, args, k, n));
    }
  }

  /** The last letter of a group ends it: what the whole group takes off the command line and delivers. */
  lemma GroupRead(optstring: string, args: seq<Arg>, k: nat, n: nat, x: Reading)
    requires FlagsUpTo(optstring, args, k, n) && x == Read(optstring, args[k], n, NextOf(args, k)) && x.used > 0
    requires !x.result.Invalid?
    ensures Ready(args, k, 0) && k + x.used <= |args| && x.subopt == 0
    ensures Width(optstring, args[k], 0, NextOf(args, k)) == Some(x.used)
    ensures Ready(args, k + x.used, 0)
    ensures Items(optstring, args, k, 0)
         == FlagItems(args[k][1..n + 1]) + [(x.result, x.optarg)] + Items(optstring, args, k + x.used, 0)
  {
    hide Read, Items, Width, FlagItems;
    FlagsHere(optstring, args, k, n);
    FlagsRead(optstring, args, k, n, 0);
    LastLetter(optstring, args, k, n, x);
    ItemsJoined(FlagItems(args[k][1..n + 1]), [(x.result, x.optarg)], Items(optstring, args, k + x.used, 0));
  }

  lemma LastLetter(optstring: string, args: seq<Arg>, k: nat, n: nat, x: Reading)
    requires k < |args| && n + 1 < |args[k]| && IsShortOpt(args[k])
    requires x == Read(optstring, args[k], n, NextOf(args, k)) && x.used > 0 && !x.result.Invalid?
    ensures k + x.used <= |args| && x.subopt == 0 && Width(optstring, args[k], n, NextOf(args, k)) == Some(x.used)
    ensures Items(optstring, args, k, n) == [(x.result, x.optarg)] + Items(optstring, args, k + x.used, 0)
  {
    hide Read;
    assert !IsDashDash(args[k]) && !IsOperand(args[k]);
  }

  lemma ItemsJoined(a: seq<Item>, b: seq<Item>, c: seq<Item>)
    ensures a + (b + c) == a + b + c
  {
  }

  /** The letter behind the flags cs, with what follows it in the word. */
  lemma LetterAt(optstring: string, args: seq<Arg>, k: nat, cs: string, c: char, more: string)
    requires k < |args| && args[k] == Dashed(cs + [c] + more) && (cs + [c])[0] != '-' && AllFlags(optstring, cs)
    ensures FlagsUpTo(optstring, args, k, |cs|) && args[k][|cs| + 1] == c && args[k][|cs| + 2..] == more
    ensures args[k][1..|cs| + 1] == cs
  {
    var a := args[k];
    assert a[1..] == cs + [c] + more;
    assert a[1] == (cs + [c])[0];
    assert a[1..|cs| + 1] == cs;
  }

  // ----- one word

  /** What a group at position k takes off the command line and delivers. */
  ghost predicate TakesOff(optstring: string, args: seq<Arg>, k: nat, used: nat, items: seq<Item>) {
    && k < |args| && 0 < used && k + used <= |args| && IsShortOpt(args[k])
    && Width(optstring, args[k], 0, NextOf(args, k)) == Some(used)
    && Items(optstring, args, k, 0) == items + Items(optstring, args, k + used, 0)
  }

  lemma {:induction false} FlagItemsLast(cs: string, c: char)
    ensures FlagItems(cs + [c]) == FlagItems(cs) + [(Opt(c), None)]
  {
    if cs == "" {
      assert cs + [c] == [c] && [c][1..] == "";
    } else {
      assert (cs + [c])[1..] == cs[1..] + [c];
      FlagItemsLast(cs[1..], c);
    }
  }

  lemma FlagsWord(optstring: string, args: seq<Arg>, k: nat, cs: string)
    requires IsWord(optstring, Flags(cs)) && k < |args| && args[k] == Dashed(cs)
    ensures TakesOff(optstring, args, k, 1, FlagItems(cs))
  {
    var n := |cs| - 1;
    assert cs == cs[..n] + [cs[n]] && Dashed(cs) == Dashed(cs[..n] + [cs[n]] + "");
    LetterAt(optstring, args, k, cs[..n], cs[n], "");
    TypeMeans(optstring, cs[n], 0);
    GroupRead(optstring, args, k, n, Reading(1, 0, Opt(cs[n]), None));
    FlagItemsLast(cs[..n], cs[n]);
  }

  lemma AttachedWord(optstring: string, args: seq<Arg>, k: nat, cs: string, c: char, arg: string)
    requires IsWord(optstring, Attached(cs, c, arg)) && k < |args| && args[k] == Dashed(cs + [c] + arg)
    ensures TakesOff(optstring, args, k, 1, WordItems(Attached(cs, c, arg)))
  {
    LetterAt(optstring, args, k, cs, c, arg);
    TypeMeans(optstring, c, if Takes(optstring, c, 1) then 1 else 2);
    GroupRead(optstring, args, k, |cs|, Reading(1, 0, Opt(c), Some(arg)));
  }

  lemma ApartWord(optstring: string, args: seq<Arg>, k: nat, cs: string, c: char, arg: Arg)
    requires IsWord(optstring, Apart(cs, c, arg)) && k + 1 < |args| && args[k] == Dashed(cs + [c]) && args[k + 1] == arg
    ensures TakesOff(optstring, args, k, 2, WordItems(Apart(cs, c, arg)))
  {
    assert cs + [c] + "" == cs + [c];
    LetterAt(optstring, args, k, cs, c, "");
    TypeMeans(optstring, c, 1);
    GroupRead(optstring, args, k, |cs|, Reading(2, 0, Opt(c), Some(arg)));
  }

  lemma AloneWord(optstring: string, args: seq<Arg>, k: nat, cs: string, c: char)
    requires IsWord(optstring, Alone(cs, c)) && k < |args| && args[k] == Dashed(cs + [c])
    ensures TakesOff(optstring, args, k, 1, WordItems(Alone(cs, c)))
  {
    assert cs + [c] + "" == cs + [c];
    LetterAt(optstring, args, k, cs, c, "");
    TypeMeans(optstring, c, 2);
    GroupRead(optstring, args, k, |cs|, Reading(1, 0, Opt(c), None));
  }

  lemma LackingWord(optstring: string, args: seq<Arg>, k: nat, cs: string, c: char)
    requires IsLast(optstring, Lacking(cs, c)) && k + 1 == |args| && args[k] == Dashed(cs + [c])
    ensures TakesOff(optstring, args, k, 1, FlagItems(cs) + [(Missing(c), None)])
  {
    assert cs + [c] + "" == cs + [c];
    LetterAt(optstring, args, k, cs, c, "");
    TypeMeans(optstring, c, 1);
    GroupRead(optstring, args, k, |cs|, Reading(1, 0, Missing(c), None));
  }

  /** Whatever group a word is. */
  lemma WordRead(optstring: string, args: seq<Arg>, k: nat, w: Word, more: seq<Arg>)
    requires IsWord(optstring, w) && !w.Operand? && k <= |args| && args[k..] == WordArgs(w) + more
    ensures TakesOff(optstring, args, k, |WordArgs(w)|, WordItems(w)) && args[k + |WordArgs(w)|..] == more
  {
    hide TakesOff, Takes, AllFlags;
    var n := |WordArgs(w)|;
    assert args[k] == args[k..][0] && args[k + n..] == args[k..][n..] == more;
    match w
    case Flags(cs) => FlagsWord(optstring, args, k, cs);
    case Attached(cs, c, arg) => AttachedWord(optstring, args, k, cs, c, arg);
    case Apart(cs, c, arg) =>
      assert args[k + 1] == args[k..][1];
      ApartWord(optstring, args, k, cs, c, arg);
    case Alone(cs, c) => AloneWord(optstring, args, k, cs, c);
  }

  // ----- whole command lines

  /** From position k on, optparse finds options and operands, and delivers items. */
  ghost predicate Parses(optstring: string, args: seq<Arg>, k: nat, s: Parts, items: seq<Item>) {
    && k <= |args| && Ready(args, k, 0) && AllKnown(optstring, args, k, 0)
    && Split(optstring, args, k, 0) == s && Items(optstring, args, k, 0) == items
  }

  lemma GroupParses(optstring: string, args: seq<Arg>, k: nat, used: nat, items: seq<Item>, s: Parts, more: seq<Item>)
    requires TakesOff(optstring, args, k, used, items) && Parses(optstring, args, k + used, s, more)
    ensures Parses(optstring, args, k, Parts(args[k..k + used] + s.options, s.operands), items + more)
  {
    hide Width, Items;
    assert !IsOperand(args[k]) && !IsDashDash(args[k]);
  }

  lemma OperandParses(optstring: string, args: seq<Arg>, k: nat, s: Parts, items: seq<Item>)
    requires k < |args| && IsWord(optstring, Operand(args[k])) && Parses(optstring, args, k + 1, s, items)
    ensures Parses(optstring, args, k, Parts(s.options, [args[k]] + s.operands), items)
  {
    hide Width;
    assert IsOperand(args[k]);
  }

  lemma LastParses(optstring: string, args: seq<Arg>, k: nat, e: Last)
    requires IsLast(optstring, e) && k <= |args| && args[k..] == LastArgs(e)
    ensures Parses(optstring, args, k, Parts(OptionArgs([], e), OperandArgs([], e)), Delivered([], e))
  {
    hide Width;
    match e
    case Nothing =>
    case Dashes(operands) => assert args[k] == args[k..][0] && args[k + 1..] == args[k..][1..] == operands;
    case Lacking(cs, c) =>
      assert args[k] == args[k..][0];
      LackingWord(optstring, args, k, cs, c);
      assert Parses(optstring, args, k + 1, Parts([], []), []);
      GroupParses(optstring, args, k, 1, FlagItems(cs) + [(Missing(c), None)], Parts([], []), []);
  }

  lemma SliceOff(args: seq<Arg>, k: nat, first: seq<Arg>, more: seq<Arg>)
    requires k <= |args| && args[k..] == first + more
    ensures k + |first| <= |args| && args[k..k + |first|] == first && args[k + |first|..] == more
  {
    assert args[k..][..|first|] == first && args[k..][|first|..] == more;
  }

  lemma TailWords(optstring: string, ws: seq<Word>)
    requires Words(optstring, ws) && ws != []
    ensures Words(optstring, ws[1..]) && IsWord(optstring, ws[0])
  {
    hide IsWord;
  }

  lemma {:induction false} WordsParse(optstring: string, args: seq<Arg>, k: nat, ws: seq<Word>, e: Last)
    requires Words(optstring, ws) && IsLast(optstring, e) && k <= |args| && args[k..] == Args(ws, e)
    ensures Parses(optstring, args, k, Parts(OptionArgs(ws, e), OperandArgs(ws, e)), Delivered(ws, e))
    decreases |ws|
  {
    hide IsWord, IsLast, Parses, TakesOff, Words, WordItems, LastArgs;
    if ws == [] {
      LastParses(optstring, args, k, e);
    } else {
      TailWords(optstring, ws);
      SliceOff(args, k, WordArgs(ws[0]), Args(ws[1..], e));
      WordsParse(optstring, args, k + |WordArgs(ws[0])|, ws[1..], e);
      OneMoreParses(optstring, args, k, ws, e);
    }
  }

  lemma OneMoreParses(optstring: string, args: seq<Arg>, k: nat, ws: seq<Word>, e: Last)
    requires ws != [] && IsWord(optstring, ws[0]) && k <= |args| && args[k..] == WordArgs(ws[0]) + Args(ws[1..], e)
    requires var n := k + |WordArgs(ws[0])|;
             Parses(optstring, args, n, Parts(OptionArgs(ws[1..], e), OperandArgs(ws[1..], e)), Delivered(ws[1..], e))
    ensures Parses(optstring, args, k, Parts(OptionArgs(ws, e), OperandArgs(ws, e)), Delivered(ws, e))
  {
    hide IsWord, Parses, TakesOff, Args, WordItems;
    SliceOff(args, k, WordArgs(ws[0]), Args(ws[1..], e));
    var more, s := Delivered(ws[1..], e), Parts(OptionArgs(ws[1..], e), OperandArgs(ws[1..], e));
    if ws[0].Operand? {
      OperandFirst(args, k, ws[0].a);
      OperandParses(optstring, args, k, s, more);
      NoItems(ws[0], more);
    } else {
      WordRead(optstring, args, k, ws[0], Args(ws[1..], e));
      GroupParses(optstring, args, k, |WordArgs(ws[0])|, WordItems(ws[0]), s, more);
    }
  }

  lemma OperandFirst(args: seq<Arg>, k: nat, a: Arg)
    requires k < |args| && args[k..k + 1] == [a]
    ensures args[k] == a
  {
    assert args[k..k + 1][0] == a;
  }

  lemma NoItems(w: Word, more: seq<Item>)
    requires w.Operand?
    ensures WordItems(w) + more == more
  {
  }

  /**
   * Calling optparse until it returns -1 delivers the letters of the command line in their order, each with its argument,
   * and leaves the words with options in front of the operands, both in their order.
   */
  lemma LineMeans(optstring: string, name: Arg, ws: seq<Word>, e: Last)
    requires Words(optstring, ws) && IsLast(optstring, e)
    ensures var argv := [name] + Args(ws, e);
            && Ready(argv, Lead(argv, 1), 0) && AllKnown(optstring, argv, Lead(argv, 1), 0)
            && var o := ParseAll(optstring, argv, 1, 0);
            && o.items == Delivered(ws, e) && o.argv == [name] + OptionArgs(ws, e) + OperandArgs(ws, e)
            && o.optind == 1 + |OptionArgs(ws, e)|
  {
    hide IsWord, IsLast, ParseAll, Split, Items, AllKnown, Ready, Args, Interleaved, OptionArgs, OperandArgs, Delivered;
    var argv := [name] + Args(ws, e);
    assert argv[1..] == Args(ws, e);
    WordsParse(optstring, argv, 1, ws, e);
    CommandLine(optstring, argv);
    var o := ParseAll(optstring, argv, 1, 0);
    Rejoin(o.argv, o.optind, name, OptionArgs(ws, e), OperandArgs(ws, e));
  }

  lemma Rejoin(a: seq<Arg>, n: nat, name: Arg, x: seq<Arg>, y: seq<Arg>)
    requires 1 <= n <= |a| && a[0] == name && a[1..n] == x && a[n..] == y
    ensures n == 1 + |x| && a == [name] + x + y
  {
  }
}
