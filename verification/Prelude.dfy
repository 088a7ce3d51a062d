/** Shared vocabulary: optional values, bytes, and facts about duplicate-free sequences. */
module Prelude {
  datatype Option<+T> = None | Some(value: T)

  type byte = b: int | 0 <= b < 256

  type Tid = nat

  function Min(a: int, b: int): int {
    if a < b then a else b
  }

  ghost predicate NoDup<T(!new)>(s: seq<T>) {
    forall i, j :: 0 <= i < j < |s| ==> s[i] != s[j]
  }

  ghost predicate Disjoint<T(!new)>(s: seq<T>, t: seq<T>) {
    forall i, j :: 0 <= i < |s| && 0 <= j < |t| ==> s[i] != t[j]
  }

  function Reverse<T>(s: seq<T>): (r: seq<T>)
    ensures |r| == |s|
  {
    if s == [] then [] else Reverse(s[1..]) + [s[0]]
  }

  lemma {:induction false} ReverseMembers<T>(s: seq<T>, x: T)
    ensures x in Reverse(s) <==> x in s
  {
    if s != [] {
      ReverseMembers(s[1..], x);
      assert s == [s[0]] + s[1..];
    }
  }

  lemma {:induction false} ReverseNoDup<T(!new)>(s: seq<T>)
    requires NoDup(s)
    ensures NoDup(Reverse(s))
  {
    if s != [] {
      ReverseNoDup(s[1..]);
      ReverseMembers(s[1..], s[0]);
    }
  }
}
