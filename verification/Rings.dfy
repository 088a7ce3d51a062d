/** Doubly linked rings: the list operations of rtservice.h, which memheap.c repeats on its own two rings. */
module Rings {
  import opened Prelude

  // A ring is given by the nodes on it in next order; nodes are addresses.

  function Succ(c: seq<int>, k: nat): int
    requires k < |c|
  {
    if k + 1 < |c| then c[k + 1] else c[0]
  }

  function Pred(c: seq<int>, k: nat): int
    requires k < |c|
  {
    if k > 0 then c[k - 1] else c[|c| - 1]
  }

  ghost predicate LinkAt(next: map<int, int>, prev: map<int, int>, c: seq<int>, k: nat)
    requires k < |c|
  {
    c[k] in next && next[c[k]] == Succ(c, k) && c[k] in prev && prev[c[k]] == Pred(c, k)
  }

  /** next and prev link the nodes of c, in that order and back to the start. */
  ghost predicate IsRing(next: map<int, int>, prev: map<int, int>, c: seq<int>) {
    c != [] && Distinct(c) && forall k :: 0 <= k < |c| ==> LinkAt(next, prev, c, k)
  }

  ghost predicate Differ(c: seq<int>, i: int, j: int) {
    0 <= i < j < |c| ==> c[i] != c[j]
  }

  /** NoDup, unfolded by name only. */
  ghost predicate Distinct(c: seq<int>) {
    forall i, j :: Differ(c, i, j)
  }

  lemma DistinctIff(c: seq<int>)
    ensures Distinct(c) <==> NoDup(c)
  {
    if Distinct(c) {
      forall i, j | 0 <= i < j < |c|
        ensures c[i] != c[j]
      {
        assert Differ(c, i, j);
      }
    }
  }

  function Inserted(c: seq<int>, k: nat, n: int): seq<int>
    requires k <= |c|
  {
    c[..k] + [n] + c[k..]
  }

  function Removed<T>(c: seq<T>, k: nat): seq<T>
    requires k < |c|
  {
    c[..k] + c[k + 1..]
  }

  lemma InsertedDistinct(c: seq<int>, k: nat, n: int)
    requires Distinct(c) && n !in c && k <= |c|
    ensures Distinct(Inserted(c, k, n))
  {
    DistinctIff(c);
    DistinctIff(Inserted(c, k, n));
  }

  lemma RemovedDistinct(c: seq<int>, k: nat)
    requires Distinct(c) && k < |c|
    ensures Distinct(Removed(c, k)) && forall x :: x in Removed(c, k) <==> x in c && x != c[k]
  {
    var r := Removed(c, k);
    DistinctIff(c);
    DistinctIff(r);
    forall x | x in c && x != c[k]
      ensures x in r
    {
      var i :| 0 <= i < |c| && c[i] == x;
      assert r[if i < k then i else i - 1] == x;
    }
  }

  /** n goes between node k - 1 and its successor. */
  lemma InsertLinkAt(next: map<int, int>, prev: map<int, int>, c: seq<int>, k: nat, n: int, j: nat)
    requires IsRing(next, prev, c) && n !in c && 0 < k <= |c| && j <= |c|
    ensures var s := Succ(c, k - 1);
            LinkAt(next[n := s][c[k - 1] := n], prev[s := n][n := c[k - 1]], Inserted(c, k, n), j)
  {
    DistinctIff(c);
    var r := Inserted(c, k, n);
    assert LinkAt(next, prev, c, k - 1);
    if j < k {
      assert r[j] == c[j] && LinkAt(next, prev, c, j);
    } else if j > k {
      assert r[j] == c[j - 1] && LinkAt(next, prev, c, j - 1);
    }
  }

  lemma InsertRing(next: map<int, int>, prev: map<int, int>, c: seq<int>, k: nat, n: int)
    requires IsRing(next, prev, c) && n !in c && 0 < k <= |c|
    ensures var s := Succ(c, k - 1);
            IsRing(next[n := s][c[k - 1] := n], prev[s := n][n := c[k - 1]], Inserted(c, k, n))
  {
    InsertedDistinct(c, k, n);
    var s, r := Succ(c, k - 1), Inserted(c, k, n);
    var next', prev' := next[n := s][c[k - 1] := n], prev[s := n][n := c[k - 1]];
    forall j | 0 <= j < |r|
      ensures LinkAt(next', prev', r, j)
    {
      InsertLinkAt(next, prev, c, k, n, j);
    }
  }

  lemma RemoveLinkAt(next: map<int, int>, prev: map<int, int>, c: seq<int>, k: nat, j: nat)
    requires IsRing(next, prev, c) && k < |c| && |c| > 1 && j < |c| - 1
    ensures LinkAt(next[Pred(c, k) := Succ(c, k)], prev[Succ(c, k) := Pred(c, k)], Removed(c, k), j)
  {
    DistinctIff(c);
    var r := Removed(c, k);
    var i := if j < k then j else j + 1;
    assert r[j] == c[i] && LinkAt(next, prev, c, i);
  }

  lemma RemoveRing(next: map<int, int>, prev: map<int, int>, c: seq<int>, k: nat)
    requires IsRing(next, prev, c) && k < |c| && |c| > 1
    ensures IsRing(next[Pred(c, k) := Succ(c, k)], prev[Succ(c, k) := Pred(c, k)], Removed(c, k))
  {
    RemovedDistinct(c, k);
    var r, next', prev' := Removed(c, k), next[Pred(c, k) := Succ(c, k)], prev[Succ(c, k) := Pred(c, k)];
    forall j | 0 <= j < |r|
      ensures LinkAt(next', prev', r, j)
    {
      RemoveLinkAt(next, prev, c, k, j);
    }
  }

  lemma RemoveUndoesInsert(c: seq<int>, k: nat, n: int)
    requires k <= |c|
    ensures Removed(Inserted(c, k, n), k) == c
  {
  }

  /** The next and prev fields of every node, and the ring that a head is on. */
  class Ring {
    var next: map<int, int>
    var prev: map<int, int>
    ghost var nodes: seq<int>

    ghost predicate Valid()
      reads this
    {
      IsRing(next, prev, nodes)
    }

    /** rt_list_init */
    constructor (l: int)
      ensures Valid() && nodes == [l]
    {
      next, prev, nodes := map[l := l], map[l := l], [l];
    }

    /** rt_list_insert_after */
    method InsertAfter(l: int, n: int, ghost k: nat)
      requires Valid() && k < |nodes| && nodes[k] == l && n !in nodes
      modifies this
      ensures Valid() && nodes == Inserted(old(nodes), k + 1, n)
      ensures next == old(next)[n := Succ(old(nodes), k)][l := n] && prev == old(prev)[Succ(old(nodes), k) := n][n := l]
    {
      InsertRing(next, prev, nodes, k + 1, n);
      assert LinkAt(next, prev, nodes, k);
      var s := next[l];
      prev := prev[s := n];
      next := next[n := s];
      next := next[l := n];
      prev := prev[n := l];
      nodes := Inserted(nodes, k + 1, n);
    }

    /** rt_list_insert_before, in front of a node or at the end of the list that l heads. */
    method InsertBefore(l: int, n: int, ghost k: nat)
      requires Valid() && k < |nodes| && nodes[k] == l && n !in nodes
      modifies this
      ensures Valid() && nodes == Inserted(old(nodes), if k == 0 then |old(nodes)| else k, n)
    {
      ghost var i := if k == 0 then |nodes| else k;
      InsertRing(next, prev, nodes, i, n);
      assert LinkAt(next, prev, nodes, k) && LinkAt(next, prev, nodes, i - 1);
      var p := prev[l];
      var s := next[p];
      next := next[p := n];
      prev := prev[n := p];
      prev := prev[l := n];
      next := next[n := l];
      assert next == old(next)[n := s][p := n] && prev == old(prev)[s := n][n := p];
      nodes := Inserted(nodes, i, n);
    }

    /** A node leaves its ring; its own links keep their values. */
    method Unlink(n: int, ghost k: nat)
      requires Valid() && k < |nodes| && nodes[k] == n && |nodes| > 1
      modifies this
      ensures Valid() && nodes == Removed(old(nodes), k)
      ensures next == old(next)[Pred(old(nodes), k) := Succ(old(nodes), k)]
      ensures prev == old(prev)[Succ(old(nodes), k) := Pred(old(nodes), k)]
    {
      RemoveRing(next, prev, nodes, k);
      assert LinkAt(next, prev, nodes, k);
      var s, p := next[n], prev[n];
      prev := prev[s := p];
      next := next[p := s];
      nodes := Removed(nodes, k);
    }

    /** rt_list_remove; a node that is alone on its ring stays as it is. */
    method Remove(n: int, ghost k: nat)
      requires Valid() && k < |nodes| && nodes[k] == n
      modifies this
      ensures Valid() && nodes == if |old(nodes)| > 1 then Removed(old(nodes), k) else old(nodes)
      ensures n in next && n in prev && next[n] == n && prev[n] == n
    {
      DistinctIff(nodes);
      assert LinkAt(next, prev, nodes, k);
      if next[n] != n {
        Unlink(n, k);
        RemovedDistinct(old(nodes), k);
        SelfLinks(next, prev, nodes, n);
      }
      next, prev := next[n := n], prev[n := n];
    }

    /** rt_list_isempty */
    method IsEmpty(l: int) returns (r: bool)
      requires Valid() && nodes[0] == l
      ensures r <==> |nodes| == 1
    {
      DistinctIff(nodes);
      assert LinkAt(next, prev, nodes, 0);
      r := next[l] == l;
    }

    /** rt_list_len */
    method Length(l: int) returns (len: nat)
      requires Valid() && nodes[0] == l
      ensures len == |nodes| - 1
    {
      DistinctIff(nodes);
      len := 0;
      var p := l;
      assert LinkAt(next, prev, nodes, 0);
      while next[p] != l
        invariant len < |nodes| && p == nodes[len] && p in next && next[p] == Succ(nodes, len)
        decreases |nodes| - len
      {
        p := next[p];
        len := len + 1;
        assert LinkAt(next, prev, nodes, len);
      }
    }
  }

  /** Links of a node that is not on the ring do not matter. */
  lemma SelfLinks(next: map<int, int>, prev: map<int, int>, c: seq<int>, n: int)
    requires IsRing(next, prev, c) && n !in c
    ensures IsRing(next[n := n], prev[n := n], c)
  {
    var next', prev' := next[n := n], prev[n := n];
    forall k | 0 <= k < |c|
      ensures LinkAt(next', prev', c, k)
    {
      assert LinkAt(next, prev, c, k);
    }
  }
}
