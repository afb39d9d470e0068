/**
 * Graphs as the C++ sources see them: nodes are the ids 0..n-1 and the
 * out-arcs of node x are listed in the order the adjacency array gives them.
 * Also the facts about duplicate-free id sequences that the array algorithms
 * need: a duplicate-free sequence of n ids below n lists every id.
 */
module Graph {
  /** `out[x]` lists the heads of x's out-arcs; every head is a node. */
  predicate IsAdjacency(out: seq<seq<int>>)
  {
    forall x, k :: 0 <= x < |out| && 0 <= k < |out[x]| ==> 0 <= out[x][k] < |out|
  }

  predicate Distinct(s: seq<int>)
  {
    forall i, j :: 0 <= i < j < |s| ==> s[i] != s[j]
  }

  predicate InRange(s: seq<int>, n: int)
  {
    forall i :: 0 <= i < |s| ==> 0 <= s[i] < n
  }

  /** `s` lists every id below `n` exactly once. */
  predicate IsPermutation(s: seq<int>, n: int)
  {
    |s| == n && Distinct(s) && InRange(s, n)
  }

  function Elems(s: seq<int>): set<int>
  {
    set i | 0 <= i < |s| :: s[i]
  }

  /** The ids below `n`. */
  function Ids(n: nat): (r: set<int>)
    ensures forall v :: v in r <==> 0 <= v < n
  {
    if n == 0 then {} else Ids(n - 1) + {n - 1}
  }

  lemma {:induction false} IdsCard(n: nat)
    ensures |Ids(n)| == n
  {
    if n > 0 {
      IdsCard(n - 1);
    }
  }

  lemma {:induction false} ElemsCard(s: seq<int>)
    requires Distinct(s)
    ensures |Elems(s)| == |s|
  {
    if s != [] {
      var front := s[..|s| - 1];
      ElemsCard(front);
      assert Elems(s) == Elems(front) + {s[|s| - 1]};
      assert s[|s| - 1] !in Elems(front);
    }
  }

  lemma SubsetCard(a: set<int>, b: set<int>)
    requires a <= b
    ensures |a| <= |b|
  {
    assert b == a + (b - a);
  }

  /** A duplicate-free sequence of ids below `n` that misses the id `y` has fewer than `n` entries. */
  lemma MissingBound(s: seq<int>, n: nat, y: int)
    requires Distinct(s) && InRange(s, n) && 0 <= y < n && y !in s
    ensures |s| < n
  {
    ElemsCard(s);
    IdsCard(n);
    assert Elems(s) <= Ids(n) - {y};
    SubsetCard(Elems(s), Ids(n) - {y});
  }

  /** A duplicate-free sequence of ids below `n` has at most `n` entries. */
  lemma CountBound(s: seq<int>, n: nat)
    requires Distinct(s) && InRange(s, n)
    ensures |s| <= n
  {
    ElemsCard(s);
    IdsCard(n);
    assert Elems(s) <= Ids(n);
    SubsetCard(Elems(s), Ids(n));
  }

  /** A permutation of the ids below `n` lists every one of them. */
  lemma PermutationCovers(s: seq<int>, n: nat, v: int)
    requires IsPermutation(s, n) && 0 <= v < n
    ensures v in s
  {
    if v !in s {
      MissingBound(s, n, v);
    }
  }

  /** The number of out-arcs not yet passed by the iterators `next`: the sum of `|out[v]| - next[v]` over `v < k`. */
  function Pending(out: seq<seq<int>>, next: seq<int>, k: nat): int
    requires k <= |out| && |next| == |out|
  {
    if k == 0 then 0 else Pending(out, next, k - 1) + |out[k - 1]| - next[k - 1]
  }

  lemma {:induction false} PendingNonNegative(out: seq<seq<int>>, next: seq<int>, k: nat)
    requires k <= |out| && |next| == |out|
    requires forall v :: 0 <= v < |out| ==> next[v] <= |out[v]|
    ensures Pending(out, next, k) >= 0
  {
    if k > 0 {
      PendingNonNegative(out, next, k - 1);
    }
  }

  /** Advancing one iterator leaves one arc fewer pending. */
  lemma {:induction false} PendingAdvance(out: seq<seq<int>>, next: seq<int>, v: nat, k: nat)
    requires k <= |out| && |next| == |out| && v < |out|
    ensures Pending(out, next[v := next[v] + 1], k) == if v < k then Pending(out, next, k) - 1 else Pending(out, next, k)
  {
    if k > 0 {
      PendingAdvance(out, next, v, k - 1);
    }
  }
}
