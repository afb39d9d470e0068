/**
 * The contraction orders of `cch_order` (src/min_fill_in.h): the partial-order
 * check, the optimal order of a path, the classification of trivial graphs,
 * the removal of loops and multi-arcs, the split of a graph into its
 * components with their slots in the order, the separator step of nested
 * dissection, the core nodes of the degree-two-chain reduction and the start
 * of the expanded-graph order.
 *
 * Node ids are the ids 0..n-1; an order lists, position by position, the
 * input id of the node contracted there.
 */
module MinFillIn {
  import opened Graph
  import opened IdFunc

  /** Components with more nodes than this are handed to their own task. */
  const TaskSpawnCutoff := 800

  // ---------------------------------------------------------------------
  // is_valid_partial_order
  // ---------------------------------------------------------------------

  /** How often `v` occurs in `s`. */
  function Occurrences(s: seq<int>, v: int): nat
  {
    if s == [] then 0 else Occurrences(s[..|s| - 1], v) + (if s[|s| - 1] == v then 1 else 0)
  }

  /** `compute_histogram`: bucket `v` counts the entries equal to `v`. */
  function Histogram(order: seq<int>, imageCount: nat): (h: seq<nat>)
    ensures |h| == imageCount
  {
    seq(imageCount, v requires 0 <= v < imageCount => Occurrences(order, v))
  }

  /** `max_over_id_func(compute_histogram(order)) <= 1`: no bucket holds two entries. */
  predicate IsValidPartialOrder(order: seq<int>, imageCount: nat)
  {
    forall v :: 0 <= v < imageCount ==> Histogram(order, imageCount)[v] <= 1
  }

  lemma {:induction false} OccurrencesPositive(s: seq<int>, i: int)
    requires 0 <= i < |s|
    ensures Occurrences(s, s[i]) >= 1
  {
    if i < |s| - 1 {
      OccurrencesPositive(s[..|s| - 1], i);
      assert s[..|s| - 1][i] == s[i];
    }
  }

  lemma {:induction false} OccurrencesTwice(s: seq<int>, i: int, j: int)
    requires 0 <= i < j < |s| && s[i] == s[j]
    ensures Occurrences(s, s[i]) >= 2
  {
    var front := s[..|s| - 1];
    if j < |s| - 1 {
      OccurrencesTwice(front, i, j);
      assert front[i] == s[i];
    } else {
      OccurrencesPositive(front, i);
      assert front[i] == s[i];
    }
  }

  lemma {:induction false} OccurrencesOfDistinct(s: seq<int>, v: int)
    requires Distinct(s)
    ensures Occurrences(s, v) <= 1
    ensures v !in s ==> Occurrences(s, v) == 0
  {
    if s != [] {
      var front := s[..|s| - 1];
      assert forall i :: 0 <= i < |front| ==> front[i] == s[i];
      OccurrencesOfDistinct(front, v);
      if s[|s| - 1] == v {
        assert v !in front;
      }
    }
  }

  /**
   * An order of ids below `imageCount` passes the check exactly when no id
   * occurs twice in it.
   */
  lemma ValidPartialOrderIffDistinct(order: seq<int>, imageCount: nat)
    requires InRange(order, imageCount)
    ensures IsValidPartialOrder(order, imageCount) <==> Distinct(order)
  {
    if Distinct(order) {
      forall v | 0 <= v < imageCount
        ensures Histogram(order, imageCount)[v] <= 1
      {
        OccurrencesOfDistinct(order, v);
      }
    }
    if !Distinct(order) {
      var i, j :| 0 <= i < j < |order| && order[i] == order[j];
      OccurrencesTwice(order, i, j);
      assert Histogram(order, imageCount)[order[i]] >= 2;
    }
  }

  // ---------------------------------------------------------------------
  // compute_path_graph_order
  // ---------------------------------------------------------------------

  function Pow2(e: nat): (p: int)
    ensures p >= 1
  {
    if e == 0 then 1 else 2 * Pow2(e - 1)
  }

  /** The exponent of the largest power of two that divides `m`. */
  function LowExp(m: int): nat
    requires m >= 1
  {
    if m % 2 == 1 then 0 else 1 + LowExp(m / 2)
  }

  /** The round in which node `x` of the path is taken: the exponent of the lowest power of two dividing `x + 1`. */
  function RoundOf(x: int): nat
    requires x >= 0
  {
    LowExp(x + 1)
  }

  /** The round of stride `2p` from `j` on: `j, j + 2p, j + 4p, ...` below `n`. */
  function Round(p: int, n: int, j: int): seq<int>
    requires p >= 1
    decreases n - j
  {
    if j >= n then [] else [j] + Round(p, n, j + 2 * p)
  }

  /** The rounds `i = 2^e, 2^(e+1), ...` up to `n`, each starting at `i - 1`. */
  function Rounds(e: nat, n: int): seq<int>
    decreases n + 1 - Pow2(e)
  {
    if Pow2(e) > n then [] else Round(Pow2(e), n, Pow2(e) - 1) + Rounds(e + 1, n)
  }

  /**
   * The positions of the path contracted in the optimal order: the rounds
   * take every other node of what remains, which lists every node once.
   */
  function PathOrder(n: nat): (r: seq<int>)
    ensures IsPermutation(r, n)
  {
    RoundsMembers(0, n);
    ElemsCard(Rounds(0, n));
    IdsCard(n);
    assert Elems(Rounds(0, n)) == Ids(n) by {
      forall x
        ensures x in Elems(Rounds(0, n)) <==> x in Ids(n)
      {
        if x in Rounds(0, n) {
          var i :| 0 <= i < |Rounds(0, n)| && Rounds(0, n)[i] == x;
        }
      }
    }
    assert forall i :: 0 <= i < |Rounds(0, n)| ==> Rounds(0, n)[i] in Rounds(0, n);
    Rounds(0, n)
  }

  lemma {:induction false} Pow2Monotone(a: nat, b: nat)
    requires a <= b
    ensures Pow2(a) <= Pow2(b)
    decreases b
  {
    if a < b {
      Pow2Monotone(a, b - 1);
    }
  }

  lemma {:induction false} LowExpOfPow2(e: nat)
    ensures LowExp(Pow2(e)) == e
  {
    if e > 0 {
      LowExpOfPow2(e - 1);
      assert Pow2(e) / 2 == Pow2(e - 1);
    }
  }

  lemma {:induction false} Pow2LowExpBound(m: int)
    requires m >= 1
    ensures Pow2(LowExp(m)) <= m
  {
    if m % 2 == 0 {
      Pow2LowExpBound(m / 2);
    }
  }

  /** Adding twice the lowest power keeps the lowest power. */
  lemma {:induction false} LowExpShift(m: int, e: nat)
    requires m >= 1 && LowExp(m) == e
    ensures LowExp(m + 2 * Pow2(e)) == e
  {
    if m % 2 == 0 {
      LowExpShift(m / 2, e - 1);
      assert (m + 2 * Pow2(e)) / 2 == m / 2 + 2 * Pow2(e - 1);
    }
  }

  /** No number strictly between `m` and `m + 2p` has the same lowest power `p` as `m`. */
  lemma {:induction false} LowExpGap(m: int, d: int, e: nat)
    requires m >= 1 && LowExp(m) == e && 0 < d < 2 * Pow2(e)
    ensures LowExp(m + d) != e
  {
    if e > 0 && d % 2 == 0 {
      LowExpGap(m / 2, d / 2, e - 1);
      assert (m + d) / 2 == m / 2 + d / 2;
    }
  }

  lemma {:induction false} DistinctConcat(a: seq<int>, b: seq<int>)
    requires Distinct(a) && Distinct(b)
    requires forall x :: x in a ==> x !in b
    ensures Distinct(a + b)
  {
    forall i, j | 0 <= i < j < |a + b|
      ensures (a + b)[i] != (a + b)[j]
    {
      if i < |a| && j >= |a| {
        assert (a + b)[i] in a && (a + b)[j] in b;
      }
    }
  }

  /** A round lists, without repetition, the `x` from `j` on whose `x + 1` has lowest power `2^e`. */
  lemma {:induction false} RoundMembers(e: nat, n: int, j: int)
    requires j >= 0 && RoundOf(j) == e
    ensures forall x :: x in Round(Pow2(e), n, j) <==> j <= x < n && RoundOf(x) == e
    ensures Distinct(Round(Pow2(e), n, j))
    decreases n - j
  {
    var p := Pow2(e);
    if j < n {
      var next := j + 2 * p;
      LowExpShift(j + 1, e);
      RoundMembers(e, n, next);
      forall x | j < x < next && x < n
        ensures RoundOf(x) != e
      {
        LowExpGap(j + 1, x - j, e);
      }
      assert forall x :: x in Round(p, n, next) ==> x > j;
      DistinctConcat([j], Round(p, n, next));
    }
  }

  /** The rounds from `2^e` on list, without repetition, the nodes whose `x + 1` has lowest power at least `2^e`. */
  lemma {:induction false} RoundsMembers(e: nat, n: int)
    requires n >= 0
    ensures forall x :: x in Rounds(e, n) <==> 0 <= x < n && RoundOf(x) >= e
    ensures Distinct(Rounds(e, n))
    decreases n + 1 - Pow2(e)
  {
    if Pow2(e) > n {
      forall x | 0 <= x < n && RoundOf(x) >= e
        ensures false
      {
        Pow2Monotone(e, RoundOf(x));
        Pow2LowExpBound(x + 1);
      }
    } else {
      RoundsMembers(e + 1, n);
      RoundsStep(e, e + 1, n);
    }
  }

  /** One step of `RoundsMembers`: the round of `2^e` followed by the later rounds. */
  lemma RoundsStep(e: nat, later: nat, n: int)
    requires 0 <= n && Pow2(e) <= n && later == e + 1
    requires forall x :: x in Rounds(later, n) <==> 0 <= x < n && RoundOf(x) >= later
    requires Distinct(Rounds(later, n))
    ensures forall x :: x in Rounds(e, n) <==> 0 <= x < n && RoundOf(x) >= e
    ensures Distinct(Rounds(e, n))
  {
    var p := Pow2(e);
    var first := Round(p, n, p - 1);
    var rest := Rounds(later, n);
    assert Rounds(e, n) == first + rest;
    LowExpOfPow2(e);
    RoundMembers(e, n, p - 1);
    forall x | 0 <= x < n && RoundOf(x) >= e
      ensures x in first + rest
    {
      if RoundOf(x) == e {
        Pow2LowExpBound(x + 1);
        assert x in first;
      } else {
        assert x in rest;
      }
    }
    DistinctConcat(first, rest);
  }

  /** `s` relabelled through `ids`: position `k` holds `ids[s[k]]`. */
  function Relabel(s: seq<int>, ids: seq<int>): (r: seq<int>)
    requires InRange(s, |ids|)
  {
    Chain(s, ids)
  }

  /** Taking the next node of round `i` moves one position along the path order. */
  lemma RoundAdvance(all: seq<int>, pos: int, i: int, n: int, j: int, later: nat)
    requires 0 <= pos <= |all| && i >= 1 && j < n
    requires all[pos..] == Round(i, n, j) + Rounds(later, n)
    ensures pos < |all| && all[pos] == j
    ensures all[pos + 1..] == Round(i, n, j + 2 * i) + Rounds(later, n)
  {
    var rest := Round(i, n, j + 2 * i);
    assert Round(i, n, j) == [j] + rest;
    SliceHead(all, pos, j, rest, Rounds(later, n));
  }

  /** A suffix that starts with `x` has `x` at its first position and the rest after it. */
  lemma SliceHead(all: seq<int>, pos: int, x: int, rest: seq<int>, later: seq<int>)
    requires 0 <= pos <= |all| && all[pos..] == [x] + rest + later
    ensures pos < |all| && all[pos] == x && all[pos + 1..] == rest + later
  {
    assert all[pos..][0] == x;
    assert all[pos + 1..] == all[pos..][1..];
  }

  /**
   * One round of `compute_path_graph_order`: the positions `i - 1, 3i - 1,
   * 5i - 1, ...` below `n` are written from `pos` on, as the path order lists them.
   */
  method FillRound(order: array<int>, inputNodeId: seq<int>, i: int, pos0: int, ghost all: seq<int>, ghost later: nat) returns (pos: int)
    requires order.Length == |all| == |inputNodeId| && InRange(all, |inputNodeId|)
    requires 1 <= i && 0 <= pos0 <= order.Length
    requires all[pos0..] == Round(i, order.Length, i - 1) + Rounds(later, order.Length)
    requires forall k :: 0 <= k < pos0 ==> order[k] == inputNodeId[all[k]]
    modifies order
    ensures pos0 <= pos <= order.Length && all[pos..] == Rounds(later, order.Length)
    ensures forall k :: 0 <= k < pos ==> order[k] == inputNodeId[all[k]]
  {
    var n := order.Length;
    pos := pos0;
    var j := i - 1;
    while j < n
      invariant 0 <= j && pos0 <= pos <= n
      invariant all[pos..] == Round(i, n, j) + Rounds(later, n)
      invariant forall k :: 0 <= k < pos ==> order[k] == inputNodeId[all[k]]
      decreases n - j
    {
      RoundAdvance(all, pos, i, n, j, later);
      order[pos] := inputNodeId[j];
      pos := pos + 1;
      j := j + i;
      j := j + i;
    }
  }

  /**
   * `compute_path_graph_order`: the path's nodes in the optimal order, mapped
   * to their input ids. Round `i = 1, 2, 4, ...` takes the positions
   * `i - 1, 3i - 1, 5i - 1, ...` below `n`.
   */
  method ComputePathGraphOrder(n: nat, inputNodeId: seq<int>) returns (order: array<int>)
    requires |inputNodeId| == n
    ensures fresh(order)
    ensures order[..] == Relabel(PathOrder(n), inputNodeId)
  {
    ghost var all := PathOrder(n);
    order := new int[n];
    var pos := 0;
    var i := 1;
    ghost var e: nat := 0;
    while i <= n
      invariant i == Pow2(e) && 0 <= pos <= n
      invariant all[pos..] == Rounds(e, n)
      invariant forall k :: 0 <= k < pos ==> order[k] == inputNodeId[all[k]]
      decreases n + 1 - i
    {
      pos := FillRound(order, inputNodeId, i, pos, all, e + 1);
      i := i * 2;
      e := e + 1;
    }
    assert order[..] == Relabel(all, inputNodeId);
  }

  /**
   * The path order passes the partial-order check when the input ids are
   * distinct ids below `imageCount`.
   */
  lemma PathOrderValid(n: nat, inputNodeId: seq<int>, imageCount: nat)
    requires |inputNodeId| == n && Distinct(inputNodeId) && InRange(inputNodeId, imageCount)
    ensures IsValidPartialOrder(Relabel(PathOrder(n), inputNodeId), imageCount)
  {
    var r := Relabel(PathOrder(n), inputNodeId);
    var all := PathOrder(n);
    assert Distinct(r) by {
      forall a, b | 0 <= a < b < |r|
        ensures r[a] != r[b]
      {
        assert all[a] != all[b];
      }
    }
    ValidPartialOrderIffDistinct(r, imageCount);
  }

  // ---------------------------------------------------------------------
  // compute_trivial_graph_order_if_graph_is_trivial
  // ---------------------------------------------------------------------

  datatype GraphKind = CliqueOrArcFree | Tree | NonTrivial

  /**
   * The classification of a connected graph by its counts. The clique test
   * multiplies in 64 bits, so for 32-bit counts it is the exact product.
   */
  function ClassifyGraph(nodeCount: int, arcCount: int): (k: GraphKind)
  {
    if nodeCount * (nodeCount - 1) == arcCount || arcCount == 0 then CliqueOrArcFree
    else if arcCount == 2 * (nodeCount - 1) then Tree
    else NonTrivial
  }

  /**
   * The classification, stated on the counts: a clique or an arc-free graph
   * comes first (so the two-node path, both a clique and a tree, is a clique),
   * a tree has `2(n-1)` arcs, anything else is non-trivial.
   */
  lemma ClassifyGraphCases(nodeCount: int, arcCount: int)
    ensures ClassifyGraph(nodeCount, arcCount) == CliqueOrArcFree <==> nodeCount * (nodeCount - 1) == arcCount || arcCount == 0
    ensures ClassifyGraph(nodeCount, arcCount) == Tree <==> nodeCount * (nodeCount - 1) != arcCount && arcCount != 0 && arcCount == 2 * (nodeCount - 1)
    ensures ClassifyGraph(2, 2) == CliqueOrArcFree && ClassifyGraph(1, 0) == CliqueOrArcFree
    ensures ClassifyGraph(4, 6) == Tree && ClassifyGraph(4, 8) == NonTrivial
  {
  }

  /**
   * The order of a connected graph: cliques and arc-free graphs keep the
   * input ids in node order, trees take the tree order and anything else the
   * delegated order. Each choice passes the partial-order check when its
   * ingredient does.
   */
  function TrivialGraphOrder(nodeCount: nat, arcCount: nat, inputNodeId: seq<int>, treeOrder: seq<int>, nonTrivialOrder: seq<int>, imageCount: nat): (order: seq<int>)
    requires |inputNodeId| == nodeCount
    ensures ClassifyGraph(nodeCount, arcCount) == CliqueOrArcFree && Distinct(inputNodeId) && InRange(inputNodeId, imageCount) ==> IsValidPartialOrder(order, imageCount)
    ensures ClassifyGraph(nodeCount, arcCount) == Tree && IsValidPartialOrder(treeOrder, imageCount) ==> IsValidPartialOrder(order, imageCount)
    ensures ClassifyGraph(nodeCount, arcCount) == NonTrivial && IsValidPartialOrder(nonTrivialOrder, imageCount) ==> IsValidPartialOrder(order, imageCount)
    ensures ClassifyGraph(nodeCount, arcCount) == CliqueOrArcFree ==> |order| == nodeCount
  {
    match ClassifyGraph(nodeCount, arcCount)
    case CliqueOrArcFree =>
      (if Distinct(inputNodeId) && InRange(inputNodeId, imageCount) then ValidPartialOrderIffDistinct(inputNodeId, imageCount); inputNodeId else inputNodeId)
    case Tree => treeOrder
    case NonTrivial => nonTrivialOrder
  }

  // ---------------------------------------------------------------------
  // make_graph_simple
  // ---------------------------------------------------------------------

  /** The arc arrays `tail`, `head` and `arc_weight`, arc `i` being `tail[i] -> head[i]`. */
  datatype Arcs = Arcs(tail: seq<int>, head: seq<int>, weight: seq<int>)
  {
    predicate WellFormed() { |tail| == |head| == |weight| }
  }

  predicate HasArc(g: Arcs, u: int, v: int)
    requires g.WellFormed()
  {
    exists i :: 0 <= i < |g.tail| && g.tail[i] == u && g.head[i] == v
  }

  /** `is_symmetric`: every arc has its reverse. */
  predicate Symmetric(g: Arcs)
    requires g.WellFormed()
  {
    forall i :: 0 <= i < |g.tail| ==> HasArc(g, g.head[i], g.tail[i])
  }

  /** `is_loop_free`. */
  predicate LoopFree(g: Arcs)
    requires g.WellFormed()
  {
    forall i :: 0 <= i < |g.tail| ==> g.tail[i] != g.head[i]
  }

  predicate SameArc(g: Arcs, i: int, j: int)
    requires g.WellFormed() && 0 <= i < |g.tail| && 0 <= j < |g.tail|
  {
    g.tail[i] == g.tail[j] && g.head[i] == g.head[j]
  }

  /** `!has_multi_arcs`: no arc occurs twice. */
  predicate NoMultiArcs(g: Arcs)
    requires g.WellFormed()
  {
    forall i, j :: 0 <= i < j < |g.tail| ==> !SameArc(g, i, j)
  }

  /** Arcs ordered first by tail, then by head. */
  predicate SortedByTailHead(g: Arcs)
    requires g.WellFormed()
  {
    forall i, j :: 0 <= i < j < |g.tail| ==> g.tail[i] < g.tail[j] || (g.tail[i] == g.tail[j] && g.head[i] <= g.head[j])
  }

  /** The arcs in the order `p`: arc `k` of the result is arc `p[k]` of `g`. */
  function PermuteArcs(g: Arcs, p: seq<int>): (r: Arcs)
    requires g.WellFormed() && InRange(p, |g.tail|)
    ensures r.WellFormed() && |r.tail| == |p|
  {
    Arcs(Chain(p, g.tail), Chain(p, g.head), Chain(p, g.weight))
  }

  /** The arcs whose flag is set, in their order (`keep_if` on every arc array). */
  function FilterArcs(g: Arcs, flag: seq<bool>): (r: Arcs)
    requires g.WellFormed() && |flag| == |g.tail|
    ensures r.WellFormed() && |r.tail| == CountTrue(flag)
  {
    Arcs(KeepIf(flag, g.tail), KeepIf(flag, g.head), KeepIf(flag, g.weight))
  }

  /** On sorted arcs: arc `i` is kept unless it repeats arc `i - 1` or is a loop. */
  function SimpleKeepFlag(g: Arcs): (flag: seq<bool>)
    requires g.WellFormed()
    ensures |flag| == |g.tail|
  {
    seq(|g.tail|, i requires 0 <= i < |g.tail| =>
      (i == 0 || !SameArc(g, i - 1, i)) && g.tail[i] != g.head[i])
  }

  /** The first arc of the run of equal arcs that ends at `i`. */
  function FirstOfRun(g: Arcs, i: int): (r: int)
    requires g.WellFormed() && 0 <= i < |g.tail|
    ensures 0 <= r <= i && SameArc(g, r, i)
    ensures r == 0 || !SameArc(g, r - 1, r)
  {
    if i > 0 && SameArc(g, i - 1, i) then FirstOfRun(g, i - 1) else i
  }

  /**
   * `make_graph_simple`: the arcs sorted by `p` (the permutation
   * `sort_arcs_first_by_tail_second_by_head` returns), then every loop and
   * every repeat of the previous arc dropped. The result has no loop and no
   * arc twice, and holds exactly the non-loop arcs of the input.
   */
  function MakeGraphSimple(g: Arcs, p: seq<int>): (r: Arcs)
    requires g.WellFormed() && IsPermutation(p, |g.tail|) && SortedByTailHead(PermuteArcs(g, p))
    ensures r.WellFormed()
    ensures LoopFree(r) && NoMultiArcs(r)
    ensures forall u, v :: HasArc(r, u, v) <==> HasArc(g, u, v) && u != v
  {
    var s := PermuteArcs(g, p);
    var r := FilterArcs(s, SimpleKeepFlag(s));
    SimpleArcsFacts(g, p, s, r);
    r
  }

  lemma SimpleArcsFacts(g: Arcs, p: seq<int>, s: Arcs, r: Arcs)
    requires g.WellFormed() && IsPermutation(p, |g.tail|) && s == PermuteArcs(g, p) && SortedByTailHead(s)
    requires r == FilterArcs(s, SimpleKeepFlag(s))
    ensures LoopFree(r) && NoMultiArcs(r)
    ensures forall u, v :: HasArc(r, u, v) <==> HasArc(g, u, v) && u != v
  {
    SimpleArcsDistinct(s, r);
    forall u, v | HasArc(g, u, v) && u != v
      ensures HasArc(r, u, v)
    {
      SimpleArcKept(g, p, s, r, u, v);
    }
    forall u, v | HasArc(r, u, v)
      ensures HasArc(g, u, v) && u != v
    {
      SimpleArcOrigin(g, p, s, r, u, v);
    }
  }

  lemma SimpleArcsDistinct(s: Arcs, r: Arcs)
    requires s.WellFormed() && SortedByTailHead(s)
    requires r == FilterArcs(s, SimpleKeepFlag(s))
    ensures LoopFree(r) && NoMultiArcs(r)
  {
    var flag := SimpleKeepFlag(s);
    var idx := KeptIndices(flag);
    forall k | 0 <= k < |r.tail|
      ensures r.tail[k] != r.head[k]
    {
      assert flag[idx[k]];
    }
    forall k, l | 0 <= k < l < |r.tail|
      ensures !SameArc(r, k, l)
    {
      SortedRunsKept(s, idx[k], idx[l]);
    }
  }

  lemma SimpleArcKept(g: Arcs, p: seq<int>, s: Arcs, r: Arcs, u: int, v: int)
    requires g.WellFormed() && IsPermutation(p, |g.tail|) && s == PermuteArcs(g, p)
    requires r == FilterArcs(s, SimpleKeepFlag(s))
    requires HasArc(g, u, v) && u != v
    ensures HasArc(r, u, v)
  {
    var flag := SimpleKeepFlag(s);
    var idx := KeptIndices(flag);
    var a :| 0 <= a < |g.tail| && g.tail[a] == u && g.head[a] == v;
    var i := IndexOf(p, a);
    var i0 := FirstOfRun(s, i);
    assert flag[i0];
    var k :| 0 <= k < |idx| && idx[k] == i0;
    assert r.tail[k] == u && r.head[k] == v;
  }

  lemma SimpleArcOrigin(g: Arcs, p: seq<int>, s: Arcs, r: Arcs, u: int, v: int)
    requires g.WellFormed() && IsPermutation(p, |g.tail|) && s == PermuteArcs(g, p)
    requires r == FilterArcs(s, SimpleKeepFlag(s))
    requires HasArc(r, u, v)
    ensures HasArc(g, u, v) && u != v
  {
    var flag := SimpleKeepFlag(s);
    var idx := KeptIndices(flag);
    var k :| 0 <= k < |r.tail| && r.tail[k] == u && r.head[k] == v;
    assert flag[idx[k]];
    assert g.tail[p[idx[k]]] == u && g.head[p[idx[k]]] == v;
  }

  /** On sorted arcs, an arc equal to an earlier one is not kept. */
  lemma SortedRunsKept(s: Arcs, i: int, j: int)
    requires s.WellFormed() && SortedByTailHead(s) && 0 <= i < j < |s.tail|
    ensures SameArc(s, i, j) ==> !SimpleKeepFlag(s)[j]
  {
    if SameArc(s, i, j) && i < j - 1 {
      assert s.tail[i] < s.tail[j - 1] || (s.tail[i] == s.tail[j - 1] && s.head[i] <= s.head[j - 1]);
    }
  }

  /** Removing loops and multi-arcs keeps a symmetric graph symmetric. */
  lemma MakeGraphSimpleSymmetric(g: Arcs, p: seq<int>)
    requires g.WellFormed() && IsPermutation(p, |g.tail|) && SortedByTailHead(PermuteArcs(g, p))
    requires Symmetric(g)
    ensures Symmetric(MakeGraphSimple(g, p))
  {
    var r := MakeGraphSimple(g, p);
    forall k | 0 <= k < |r.tail|
      ensures HasArc(r, r.head[k], r.tail[k])
    {
      var u, v := r.tail[k], r.head[k];
      assert HasArc(r, u, v);
      var a :| 0 <= a < |g.tail| && g.tail[a] == u && g.head[a] == v;
      assert HasArc(g, v, u);
    }
  }

  // ---------------------------------------------------------------------
  // reorder_nodes_in_preorder_and_compute_unconnected_graph_order_if_component_is_non_trivial
  // ---------------------------------------------------------------------

  /**
   * A component: its nodes `nodeBegin..nodeEnd-1`, its arcs
   * `arcBegin..arcEnd-1` and the first position of its slot in the order.
   */
  datatype SubProblem = SubProblem(nodeBegin: int, nodeEnd: int, arcBegin: int, arcEnd: int, subOrderBegin: int)
  {
    function NodeCount(): int { nodeEnd - nodeBegin }

    predicate SlotHolds(pos: int)
    {
      subOrderBegin <= pos < subOrderBegin + NodeCount()
    }
  }

  /** Node `x` has no arc to a smaller id, so in preorder numbering it is the first node of its component. */
  predicate StartsComponent(tail: seq<int>, head: seq<int>, x: int)
    requires |tail| == |head|
  {
    forall i :: 0 <= i < |tail| && tail[i] == x ==> x <= head[i]
  }

  /** `component_begin`: every node is set, then each node with an arc to a smaller id is cleared. */
  method MarkComponentBegins(n: nat, tail: seq<int>, head: seq<int>) returns (begin: array<bool>)
    requires |tail| == |head| && InRange(tail, n)
    ensures fresh(begin) && begin.Length == n
    ensures forall x :: 0 <= x < n ==> (begin[x] <==> StartsComponent(tail, head, x))
  {
    begin := new bool[n](_ => true);
    var i := 0;
    while i < |tail|
      invariant 0 <= i <= |tail|
      invariant forall x :: 0 <= x < n ==> (begin[x] <==> forall a :: 0 <= a < i && tail[a] == x ==> x <= head[a])
    {
      if head[i] < tail[i] {
        begin[tail[i]] := false;
      }
      i := i + 1;
    }
  }

  /** The components close up the nodes `0..nb-1`, one after the other, none empty. */
  ghost predicate Tiled(sps: seq<SubProblem>, nb: int)
  {
    && (|sps| == 0 ==> nb == 0)
    && (|sps| > 0 ==> sps[0].nodeBegin == 0 && sps[|sps| - 1].nodeEnd == nb)
    && (forall k :: 0 <= k < |sps| - 1 ==> sps[k].nodeEnd == sps[k + 1].nodeBegin)
    && (forall k :: 0 <= k < |sps| ==> 0 <= sps[k].nodeBegin < sps[k].nodeEnd <= nb)
  }

  /** The arc ranges close up the arcs `0..ab-1` the same way, and each holds exactly arcs out of its own nodes. */
  ghost predicate ArcsTiled(sps: seq<SubProblem>, ab: int, tail: seq<int>)
  {
    && (|sps| == 0 ==> ab == 0)
    && (|sps| > 0 ==> sps[0].arcBegin == 0 && sps[|sps| - 1].arcEnd == ab)
    && (forall k :: 0 <= k < |sps| - 1 ==> sps[k].arcEnd == sps[k + 1].arcBegin)
    && (forall k :: 0 <= k < |sps| ==> 0 <= sps[k].arcBegin <= sps[k].arcEnd <= ab <= |tail|)
    && (forall k, i :: 0 <= k < |sps| && sps[k].arcBegin <= i < sps[k].arcEnd ==> sps[k].nodeBegin <= tail[i] < sps[k].nodeEnd)
  }

  /** Each component starts at node 0 or at a flagged node, and no flagged node lies inside one. */
  ghost predicate SplitAtBegins(sps: seq<SubProblem>, begin: seq<bool>)
  {
    && (forall k :: 0 <= k < |sps| ==> 0 <= sps[k].nodeBegin < |begin| && (sps[k].nodeBegin == 0 || begin[sps[k].nodeBegin]))
    && (forall k, x :: 0 <= k < |sps| && sps[k].nodeBegin < x < sps[k].nodeEnd && 0 <= x < |begin| ==> !begin[x])
  }

  /**
   * The slots: components placed at the end fill `oe..n-1` from the back,
   * the others `0..ob-1` from the front; no two slots overlap and every
   * filled position lies in a slot.
   */
  ghost predicate Slotted(sps: seq<SubProblem>, placeAtEnd: seq<bool>, ob: int, oe: int, n: int)
  {
    && 0 <= ob <= oe <= n
    && (forall k :: 0 <= k < |sps| ==> 0 <= sps[k].nodeBegin < |placeAtEnd|)
    && (forall k :: 0 <= k < |sps| && placeAtEnd[sps[k].nodeBegin] ==> oe <= sps[k].subOrderBegin && sps[k].subOrderBegin + sps[k].NodeCount() <= n)
    && (forall k :: 0 <= k < |sps| && !placeAtEnd[sps[k].nodeBegin] ==> 0 <= sps[k].subOrderBegin && sps[k].subOrderBegin + sps[k].NodeCount() <= ob)
    && (forall k, l :: 0 <= k < l < |sps| ==> sps[k].subOrderBegin + sps[k].NodeCount() <= sps[l].subOrderBegin || sps[l].subOrderBegin + sps[l].NodeCount() <= sps[k].subOrderBegin)
    && (forall pos :: 0 <= pos < ob || oe <= pos < n ==> Covered(sps, pos))
  }

  /** Position `pos` of the order lies in some component's slot. */
  ghost predicate Covered(sps: seq<SubProblem>, pos: int)
  {
    exists k :: 0 <= k < |sps| && sps[k].SlotHolds(pos)
  }

  /** Everything the split maintains, with the nodes before `nb` and the arcs before `ab` handed out. */
  ghost predicate Split(n: int, tail: seq<int>, begin: seq<bool>, placeAtEnd: seq<bool>, sps: seq<SubProblem>, nb: int, ab: int, ob: int, oe: int)
  {
    && |begin| == n && |placeAtEnd| == n
    && Tiled(sps, nb) && ArcsTiled(sps, ab, tail) && SplitAtBegins(sps, begin)
    && Slotted(sps, placeAtEnd, ob, oe, n)
    && ob + (n - oe) == nb
  }

  /** `get_sub_order_begin`: a component placed at the end takes the last free positions, any other the first ones. */
  method TakeSlot(size: int, atEnd: bool, orderBegin: int, orderEnd: int) returns (slot: int, newBegin: int, newEnd: int)
    requires 0 <= size && orderBegin + size <= orderEnd
    ensures atEnd ==> slot == orderEnd - size && newBegin == orderBegin && newEnd == slot
    ensures !atEnd ==> slot == orderBegin && newBegin == orderBegin + size && newEnd == orderEnd
    ensures newBegin <= newEnd && newEnd - newBegin == orderEnd - orderBegin - size
  {
    slot := orderBegin;
    newBegin, newEnd := orderBegin, orderEnd;
    if atEnd {
      newEnd := newEnd - size;
      slot := newEnd;
    } else {
      newBegin := newBegin + size;
    }
  }

  /** The arcs from `ab` on whose tail lies below `nodeEnd`. */
  method ScanArcs(tail: seq<int>, ab: int, nodeEnd: int) returns (ae: int)
    requires 0 <= ab <= |tail|
    ensures ab <= ae <= |tail|
    ensures forall i :: ab <= i < ae ==> tail[i] < nodeEnd
    ensures ae == |tail| || tail[ae] >= nodeEnd
  {
    ae := ab;
    while ae < |tail| && tail[ae] < nodeEnd
      invariant ab <= ae <= |tail|
      invariant forall i :: ab <= i < ae ==> tail[i] < nodeEnd
    {
      ae := ae + 1;
    }
  }

  /** Arcs sorted by tail. */
  predicate TailsSorted(tail: seq<int>)
  {
    forall i, j :: 0 <= i < j < |tail| ==> tail[i] <= tail[j]
  }

  /** Closes the component `nb..nodeEnd-1` with the arcs `ab..ae-1` and gives it its slot. */
  method CloseComponent(n: int, tail: seq<int>, begin: seq<bool>, placeAtEnd: seq<bool>, sps: seq<SubProblem>, nb: int, ab: int, ob: int, oe: int, nodeEnd: int, ae: int)
    returns (sps': seq<SubProblem>, ob': int, oe': int)
    requires Split(n, tail, begin, placeAtEnd, sps, nb, ab, ob, oe)
    requires nb < nodeEnd <= n && (nb == 0 || begin[nb]) && (forall x :: nb < x < nodeEnd ==> !begin[x])
    requires ab <= ae <= |tail| && TailsSorted(tail)
    requires ab == |tail| || tail[ab] >= nb
    requires forall i :: ab <= i < ae ==> tail[i] < nodeEnd
    ensures Split(n, tail, begin, placeAtEnd, sps', nodeEnd, ae, ob', oe')
    ensures |sps'| == |sps| + 1 && sps'[..|sps|] == sps
  {
    var slot;
    slot, ob', oe' := TakeSlot(nodeEnd - nb, placeAtEnd[nb], ob, oe);
    var sp := SubProblem(nb, nodeEnd, ab, ae, slot);
    sps' := sps + [sp];
    TiledStep(sps, nb, sp);
    ArcsTiledStep(sps, ab, tail, sp);
    SplitAtBeginsStep(sps, begin, sp);
    SlottedStep(sps, placeAtEnd, ob, oe, n, sp, ob', oe');
  }

  lemma TiledStep(sps: seq<SubProblem>, nb: int, sp: SubProblem)
    requires Tiled(sps, nb) && sp.nodeBegin == nb < sp.nodeEnd
    ensures Tiled(sps + [sp], sp.nodeEnd)
  {
  }

  lemma ArcsTiledStep(sps: seq<SubProblem>, ab: int, tail: seq<int>, sp: SubProblem)
    requires ArcsTiled(sps, ab, tail) && sp.arcBegin == ab <= sp.arcEnd <= |tail| && TailsSorted(tail)
    requires ab == |tail| || tail[ab] >= sp.nodeBegin
    requires forall i :: ab <= i < sp.arcEnd ==> tail[i] < sp.nodeEnd
    ensures ArcsTiled(sps + [sp], sp.arcEnd, tail)
  {
    forall i | ab <= i < sp.arcEnd
      ensures sp.nodeBegin <= tail[i]
    {
      if i > ab {
        assert tail[ab] <= tail[i];
      }
    }
    var sps' := sps + [sp];
    forall k, i | 0 <= k < |sps'| && sps'[k].arcBegin <= i < sps'[k].arcEnd
      ensures sps'[k].nodeBegin <= tail[i] < sps'[k].nodeEnd
    {
      if k < |sps| {
        assert sps'[k] == sps[k];
      }
    }
  }

  lemma SplitAtBeginsStep(sps: seq<SubProblem>, begin: seq<bool>, sp: SubProblem)
    requires SplitAtBegins(sps, begin)
    requires 0 <= sp.nodeBegin < |begin| && (sp.nodeBegin == 0 || begin[sp.nodeBegin])
    requires forall x :: sp.nodeBegin < x < sp.nodeEnd && 0 <= x < |begin| ==> !begin[x]
    ensures SplitAtBegins(sps + [sp], begin)
  {
  }

  lemma SlottedStep(sps: seq<SubProblem>, placeAtEnd: seq<bool>, ob: int, oe: int, n: int, sp: SubProblem, ob': int, oe': int)
    requires Slotted(sps, placeAtEnd, ob, oe, n)
    requires 0 <= sp.nodeBegin < |placeAtEnd| && 0 <= sp.NodeCount()
    requires placeAtEnd[sp.nodeBegin] ==> sp.subOrderBegin == oe - sp.NodeCount() && ob' == ob && oe' == sp.subOrderBegin
    requires !placeAtEnd[sp.nodeBegin] ==> sp.subOrderBegin == ob && ob' == ob + sp.NodeCount() && oe' == oe
    requires ob' <= oe'
    ensures Slotted(sps + [sp], placeAtEnd, ob', oe', n)
  {
    var sps' := sps + [sp];
    forall pos | 0 <= pos < ob' || oe' <= pos < n
      ensures Covered(sps', pos)
    {
      if 0 <= pos < ob || oe <= pos < n {
        assert Covered(sps, pos);
        var k :| 0 <= k < |sps| && sps[k].SlotHolds(pos);
        assert sps'[k] == sps[k];
      } else {
        assert sps'[|sps|].SlotHolds(pos);
      }
    }
  }

  /** What the scan of the split keeps: the open component starts at `nb` and holds no flagged node before `nodeEnd`. */
  ghost predicate SplitScan(n: int, tail: seq<int>, begin: seq<bool>, nb: int, ab: int, nodeEnd: int)
  {
    && 0 <= nb < nodeEnd <= n == |begin|
    && (nb == 0 || begin[nb])
    && (forall x :: nb < x < nodeEnd ==> !begin[x])
    && 0 <= ab <= |tail| && (ab == |tail| || tail[ab] >= nb)
  }

  /** One step of the scan: a flagged node `nodeEnd` closes the open component and opens the next. */
  method SplitAt(n: int, tail: seq<int>, begin: seq<bool>, placeAtEnd: seq<bool>, sps: seq<SubProblem>, nb: int, ab: int, ob: int, oe: int, nodeEnd: int)
    returns (sps': seq<SubProblem>, nb': int, ab': int, ob': int, oe': int)
    requires nodeEnd < n && TailsSorted(tail)
    requires Split(n, tail, begin, placeAtEnd, sps, nb, ab, ob, oe) && SplitScan(n, tail, begin, nb, ab, nodeEnd)
    ensures Split(n, tail, begin, placeAtEnd, sps', nb', ab', ob', oe') && SplitScan(n, tail, begin, nb', ab', nodeEnd + 1)
  {
    sps', nb', ab', ob', oe' := sps, nb, ab, ob, oe;
    if begin[nodeEnd] {
      var ae := ScanArcs(tail, ab, nodeEnd);
      sps', ob', oe' := CloseComponent(n, tail, begin, placeAtEnd, sps, nb, ab, ob, oe, nodeEnd, ae);
      nb', ab' := nodeEnd, ae;
    }
  }

  /**
   * The split of the preordered graph into its components: a new component
   * starts at every node that has no arc to a smaller id. The components
   * tile the nodes and, as the arcs are sorted by tail, the arcs; every
   * position of the order lies in exactly one component's slot, those placed
   * at the end after all the others.
   */
  method SplitComponents(n: int, tail: seq<int>, head: seq<int>, begin: seq<bool>, placeAtEnd: seq<bool>)
    returns (sps: seq<SubProblem>, orderBegin: int, orderEnd: int)
    requires 1 <= n && |tail| == |head| && InRange(tail, n) && TailsSorted(tail)
    requires |begin| == n && |placeAtEnd| == n
    ensures Split(n, tail, begin, placeAtEnd, sps, n, |tail|, orderBegin, orderEnd)
    ensures orderBegin == orderEnd
  {
    sps, orderBegin, orderEnd := [], 0, n;
    var nb, ab := 0, 0;
    var nodeEnd := 1;
    while nodeEnd < n
      invariant nb < nodeEnd <= n && |begin| == n
      invariant Split(n, tail, begin, placeAtEnd, sps, nb, ab, orderBegin, orderEnd)
      invariant SplitScan(n, tail, begin, nb, ab, nodeEnd)
    {
      sps, nb, ab, orderBegin, orderEnd := SplitAt(n, tail, begin, placeAtEnd, sps, nb, ab, orderBegin, orderEnd, nodeEnd);
      nodeEnd := nodeEnd + 1;
    }
    sps, orderBegin, orderEnd := CloseComponent(n, tail, begin, placeAtEnd, sps, nb, ab, orderBegin, orderEnd, n, |tail|);
  }

  /** Every position of the order lies in a slot, and no two slots overlap. */
  ghost predicate SlotsTile(sps: seq<SubProblem>, n: int)
  {
    && (forall k :: 0 <= k < |sps| ==> 0 <= sps[k].subOrderBegin <= sps[k].subOrderBegin + sps[k].NodeCount() <= n)
    && (forall pos :: 0 <= pos < n ==> Covered(sps, pos))
    && (forall k, l :: 0 <= k < l < |sps| ==>
         sps[k].subOrderBegin + sps[k].NodeCount() <= sps[l].subOrderBegin || sps[l].subOrderBegin + sps[l].NodeCount() <= sps[k].subOrderBegin)
  }

  /** The slots of components placed at the end follow all the others. */
  ghost predicate EndSlotsLast(sps: seq<SubProblem>, placeAtEnd: seq<bool>)
    requires forall k :: 0 <= k < |sps| ==> 0 <= sps[k].nodeBegin < |placeAtEnd|
  {
    forall k, l :: 0 <= k < |sps| && 0 <= l < |sps| && !placeAtEnd[sps[k].nodeBegin] && placeAtEnd[sps[l].nodeBegin] ==>
      sps[k].subOrderBegin + sps[k].NodeCount() <= sps[l].subOrderBegin
  }

  /**
   * Once the split is done every position of the order lies in exactly one
   * slot, and the slots of components placed at the end follow all the others.
   */
  lemma SlotsPartitionOrder(sps: seq<SubProblem>, placeAtEnd: seq<bool>, ob: int, n: int)
    requires Slotted(sps, placeAtEnd, ob, ob, n) && Tiled(sps, n)
    ensures SlotsTile(sps, n) && EndSlotsLast(sps, placeAtEnd)
  {
  }

  /** A lone big component is not worth a task of its own when there are fewer than this many small ones. */
  const SmallComponentLimit := 200000

  /**
   * The indices of the components given a task of their own (`big`) and of
   * those processed in one loop (`small`), each in split order; a single big
   * component joins the small ones when there are fewer than 200000 of them.
   */
  function Schedule(sps: seq<SubProblem>): (r: (seq<int>, seq<int>))
    ensures forall k :: 0 <= k < |sps| ==> k in r.0 + r.1
    ensures InRange(r.0 + r.1, |sps|)
  {
    var isBig := seq(|sps|, k requires 0 <= k < |sps| => sps[k].NodeCount() > TaskSpawnCutoff);
    var isSmall := seq(|sps|, k requires 0 <= k < |sps| => sps[k].NodeCount() <= TaskSpawnCutoff);
    var big, small := KeptIndices(isBig), KeptIndices(isSmall);
    assert forall k :: 0 <= k < |sps| ==> k in big + small by {
      forall k | 0 <= k < |sps|
        ensures k in big + small
      {
        if isBig[k] {
          assert k in big;
        } else {
          assert k in small;
        }
      }
    }
    if |big| == 1 && |small| < SmallComponentLimit then ([], small + big) else (big, small)
  }

  /** Slot `k` holds the order computed for component `k`. */
  ghost predicate SlotsFilled(order: seq<int>, sps: seq<SubProblem>, subOrders: seq<seq<int>>, done: set<int>)
    requires |subOrders| == |sps|
  {
    forall k, i :: k in done && 0 <= k < |sps| && 0 <= i < |subOrders[k]| && 0 <= sps[k].subOrderBegin + i < |order| ==>
      order[sps[k].subOrderBegin + i] == subOrders[k][i]
  }

  /** Copies the order of component `k` into its slot (the body of `on_new_component`). */
  method FillSlot(order: array<int>, sps: seq<SubProblem>, subOrders: seq<seq<int>>, n: int, ghost done: set<int>, k: int)
    requires order.Length == n && SlotsTile(sps, n) && |subOrders| == |sps| && 0 <= k < |sps|
    requires forall j :: 0 <= j < |sps| ==> |subOrders[j]| == sps[j].NodeCount()
    requires SlotsFilled(order[..], sps, subOrders, done)
    modifies order
    ensures SlotsFilled(order[..], sps, subOrders, done + {k})
  {
    var i := 0;
    var size := sps[k].NodeCount();
    while i < size
      invariant 0 <= i <= size
      invariant SlotsFilled(order[..], sps, subOrders, done - {k})
      invariant forall j :: 0 <= j < i ==> order[sps[k].subOrderBegin + j] == subOrders[k][j]
    {
      SlotsApart(sps, n, k, i);
      order[sps[k].subOrderBegin + i] := subOrders[k][i];
      i := i + 1;
    }
  }

  /** A position of slot `k` lies in no other slot. */
  lemma SlotsApart(sps: seq<SubProblem>, n: int, k: int, i: int)
    requires SlotsTile(sps, n) && 0 <= k < |sps| && 0 <= i < sps[k].NodeCount()
    ensures 0 <= sps[k].subOrderBegin + i < n
    ensures forall l :: 0 <= l < |sps| && l != k ==> !sps[l].SlotHolds(sps[k].subOrderBegin + i)
  {
  }

  /**
   * The orders of the components copied into their slots: big components
   * first, then the small ones. Each slot ends up holding its component's
   * order, whatever the processing order.
   */
  method AssembleOrder(n: int, sps: seq<SubProblem>, subOrders: seq<seq<int>>) returns (order: array<int>)
    requires 0 <= n && SlotsTile(sps, n) && |subOrders| == |sps|
    requires forall k :: 0 <= k < |sps| ==> |subOrders[k]| == sps[k].NodeCount()
    ensures fresh(order) && order.Length == n
    ensures forall k, i :: 0 <= k < |sps| && 0 <= i < sps[k].NodeCount() ==> order[sps[k].subOrderBegin + i] == subOrders[k][i]
  {
    order := new int[n];
    var schedule := Schedule(sps);
    var tasks := schedule.0 + schedule.1;
    var t := 0;
    ghost var done: set<int> := {};
    while t < |tasks|
      invariant 0 <= t <= |tasks|
      invariant SlotsFilled(order[..], sps, subOrders, done)
      invariant forall j :: 0 <= j < t ==> tasks[j] in done
    {
      FillSlot(order, sps, subOrders, n, done, tasks[t]);
      done := done + {tasks[t]};
      t := t + 1;
    }
    assert forall k :: 0 <= k < |sps| ==> k in done by {
      forall k | 0 <= k < |sps|
        ensures k in done
      {
        assert k in tasks;
        var j :| 0 <= j < |tasks| && tasks[j] == k;
      }
    }
    AllSlotsFilled(order[..], sps, subOrders, n, done);
  }

  /** Once every component is done, every slot holds its component's order. */
  lemma AllSlotsFilled(order: seq<int>, sps: seq<SubProblem>, subOrders: seq<seq<int>>, n: int, done: set<int>)
    requires |order| == n && SlotsTile(sps, n) && |subOrders| == |sps|
    requires forall k :: 0 <= k < |sps| ==> |subOrders[k]| == sps[k].NodeCount()
    requires SlotsFilled(order, sps, subOrders, done) && forall k :: 0 <= k < |sps| ==> k in done
    ensures forall k, i :: 0 <= k < |sps| && 0 <= i < sps[k].NodeCount() ==>
      0 <= sps[k].subOrderBegin + i < n && order[sps[k].subOrderBegin + i] == subOrders[k][i]
  {
    forall k, i | 0 <= k < |sps| && 0 <= i < sps[k].NodeCount()
      ensures 0 <= sps[k].subOrderBegin + i < n && order[sps[k].subOrderBegin + i] == subOrders[k][i]
    {
      SlotsApart(sps, n, k, i);
    }
  }

  /** The component-start flags of the preordered graph. */
  ghost function BeginFlags(n: nat, tail: seq<int>, head: seq<int>): (r: seq<bool>)
    requires |tail| == |head|
    ensures |r| == n
  {
    seq(n, x requires 0 <= x < n => StartsComponent(tail, head, x))
  }

  /**
   * The order of a graph that may have several components, from the point
   * where its nodes are numbered in preorder and its arcs sorted by tail. A
   * graph of one component is handed to the delegate whole. Otherwise the
   * components are split off at their first nodes, and each one's order is
   * copied into its slot. Those slots tile the order, and the slots of
   * components placed at the end follow all the others.
   */
  method ComputeUnconnectedGraphOrder(n: int, tail: seq<int>, head: seq<int>, numComponents: int, placeAtEnd: seq<bool>,
                                      wholeOrder: seq<int>, subOrder: SubProblem -> seq<int>)
    returns (order: seq<int>, sps: seq<SubProblem>)
    requires 1 <= n && |tail| == |head| && InRange(tail, n) && TailsSorted(tail) && |placeAtEnd| == n
    requires forall sp: SubProblem :: 0 <= sp.NodeCount() ==> |subOrder(sp)| == sp.NodeCount()
    ensures numComponents == 1 ==> order == wholeOrder && sps == []
    ensures numComponents != 1 ==> |order| == n && Tiled(sps, n) && ArcsTiled(sps, |tail|, tail) && SplitAtBegins(sps, BeginFlags(n, tail, head))
    ensures numComponents != 1 ==> SlotsTile(sps, n) && EndSlotsLast(sps, placeAtEnd) && SlotsHold(order, sps, subOrder)
  {
    if numComponents == 1 {
      return wholeOrder, [];
    }
    var beginArray := MarkComponentBegins(n, tail, head);
    var begin := beginArray[..];
    assert begin == BeginFlags(n, tail, head);
    var ob, oe;
    sps, ob, oe := SplitComponents(n, tail, head, begin, placeAtEnd);
    SlotsPartitionOrder(sps, placeAtEnd, ob, n);
    order := AssembleComponentOrders(n, sps, subOrder);
  }

  /** Slot `k` of `order` holds the order the delegate computes for component `k`. */
  ghost predicate SlotsHold(order: seq<int>, sps: seq<SubProblem>, subOrder: SubProblem -> seq<int>)
  {
    forall k, i :: 0 <= k < |sps| && 0 <= i < sps[k].NodeCount() ==>
      0 <= sps[k].subOrderBegin + i < |order| && i < |subOrder(sps[k])| && order[sps[k].subOrderBegin + i] == subOrder(sps[k])[i]
  }

  /**
   * `assert(is_valid_partial_order(order))` at the end of
   * `compute_graph_order`: when the delegate's orders of the components hold
   * ids below `imageCount`, no id twice across all of them, the assembled
   * order passes the check.
   */
  lemma UnconnectedOrderValid(order: seq<int>, sps: seq<SubProblem>, subOrder: SubProblem -> seq<int>, n: int, imageCount: nat)
    requires |order| == n && SlotsTile(sps, n) && SlotsHold(order, sps, subOrder)
    requires forall sp: SubProblem :: 0 <= sp.NodeCount() ==> |subOrder(sp)| == sp.NodeCount()
    requires forall k, i :: 0 <= k < |sps| && 0 <= i < |subOrder(sps[k])| ==> 0 <= subOrder(sps[k])[i] < imageCount
    requires forall k, i, l, j ::
               0 <= k < |sps| && 0 <= i < |subOrder(sps[k])| && 0 <= l < |sps| && 0 <= j < |subOrder(sps[l])| && (k != l || i != j) ==>
               subOrder(sps[k])[i] != subOrder(sps[l])[j]
    ensures IsValidPartialOrder(order, imageCount)
  {
    forall p | 0 <= p < n
      ensures 0 <= order[p] < imageCount
    {
      assert Covered(sps, p);
      var k :| 0 <= k < |sps| && sps[k].SlotHolds(p);
      assert order[p] == subOrder(sps[k])[p - sps[k].subOrderBegin];
    }
    forall p, q | 0 <= p < q < n
      ensures order[p] != order[q]
    {
      assert Covered(sps, p) && Covered(sps, q);
      var k :| 0 <= k < |sps| && sps[k].SlotHolds(p);
      var l :| 0 <= l < |sps| && sps[l].SlotHolds(q);
      var i, j := p - sps[k].subOrderBegin, q - sps[l].subOrderBegin;
      assert order[p] == subOrder(sps[k])[i] && order[q] == subOrder(sps[l])[j];
    }
    ValidPartialOrderIffDistinct(order, imageCount);
  }

  /** `on_new_component` over every component: each one's order, computed by the delegate, copied into its slot. */
  method AssembleComponentOrders(n: int, sps: seq<SubProblem>, subOrder: SubProblem -> seq<int>) returns (order: seq<int>)
    requires 0 <= n && SlotsTile(sps, n)
    requires forall sp: SubProblem :: 0 <= sp.NodeCount() ==> |subOrder(sp)| == sp.NodeCount()
    ensures |order| == n && SlotsHold(order, sps, subOrder)
  {
    var subOrders := seq(|sps|, k requires 0 <= k < |sps| => subOrder(sps[k]));
    var orderArray := AssembleOrder(n, sps, subOrders);
    order := orderArray[..];
  }

  // ---------------------------------------------------------------------
  // compute_nested_dissection_graph_order: the separator step
  // ---------------------------------------------------------------------

  /** `in_separator`: the flags of the separator's nodes. */
  method MarkSeparator(n: nat, separator: seq<int>) returns (inSeparator: array<bool>)
    requires InRange(separator, n)
    ensures fresh(inSeparator) && inSeparator.Length == n
    ensures forall x :: 0 <= x < n ==> (inSeparator[x] <==> x in separator)
  {
    inSeparator := new bool[n](_ => false);
    var j := 0;
    while j < |separator|
      invariant 0 <= j <= |separator|
      invariant forall x :: 0 <= x < n ==> (inSeparator[x] <==> x in separator[..j])
    {
      inSeparator[separator[j]] := true;
      assert separator[..j + 1] == separator[..j] + [separator[j]];
      j := j + 1;
    }
    assert separator[..j] == separator;
  }

  /** An arc is kept when both its ends lie in the separator or both outside; none is kept when the separator has every node. */
  function SeparatorKeepFlag(g: Arcs, inSeparator: seq<bool>, separatorSize: int): (flag: seq<bool>)
    requires g.WellFormed() && InRange(g.tail, |inSeparator|) && InRange(g.head, |inSeparator|)
    ensures |flag| == |g.tail|
  {
    if separatorSize == |inSeparator| then seq(|g.tail|, a => false)
    else seq(|g.tail|, a requires 0 <= a < |g.tail| => inSeparator[g.tail[a]] == inSeparator[g.head[a]])
  }

  /**
   * The separator step of nested dissection: the graph handed on keeps
   * exactly the arcs within the separator and the arcs within the rest (none
   * when the separator has `|separator| == n` entries), so no arc crosses
   * and a symmetric graph stays symmetric. The separator's flags are what
   * places its components at the end of the order.
   */
  method SeparatorStep(n: nat, g: Arcs, separator: seq<int>) returns (r: Arcs, inSeparator: seq<bool>)
    requires g.WellFormed() && InRange(g.tail, n) && InRange(g.head, n) && InRange(separator, n)
    ensures r.WellFormed() && |inSeparator| == n
    ensures forall x :: 0 <= x < n ==> (inSeparator[x] <==> x in separator)
    ensures forall u, v :: HasArc(r, u, v) <==> HasArc(g, u, v) && |separator| != n && (u in separator <==> v in separator)
    ensures |separator| == n ==> |r.tail| == 0
    ensures Symmetric(g) ==> Symmetric(r)
  {
    var flags := MarkSeparator(n, separator);
    inSeparator := flags[..];
    var keep := SeparatorKeepFlag(g, inSeparator, |separator|);
    r := FilterArcs(g, keep);
    SeparatorArcs(g, keep, r, n, separator, inSeparator);
    if |separator| == n {
      KeepIfExtremes(keep, g.tail);
    }
  }

  lemma SeparatorArcs(g: Arcs, keep: seq<bool>, r: Arcs, n: nat, separator: seq<int>, inSeparator: seq<bool>)
    requires g.WellFormed() && InRange(g.tail, n) && InRange(g.head, n) && |inSeparator| == n
    requires forall x :: 0 <= x < n ==> (inSeparator[x] <==> x in separator)
    requires keep == SeparatorKeepFlag(g, inSeparator, |separator|) && r == FilterArcs(g, keep)
    ensures forall u, v :: HasArc(r, u, v) <==> HasArc(g, u, v) && |separator| != n && (u in separator <==> v in separator)
    ensures Symmetric(g) ==> Symmetric(r)
  {
    forall u, v
      ensures HasArc(r, u, v) <==> HasArc(g, u, v) && |separator| != n && (u in separator <==> v in separator)
    {
      SeparatorArc(g, keep, r, n, separator, inSeparator, u, v);
    }
    if Symmetric(g) {
      forall k | 0 <= k < |r.tail|
        ensures HasArc(r, r.head[k], r.tail[k])
      {
        assert HasArc(r, r.tail[k], r.head[k]);
        assert HasArc(g, r.head[k], r.tail[k]);
      }
    }
  }

  /** One pair of nodes: the separator step keeps its arc exactly when both ends lie on the same side. */
  lemma SeparatorArc(g: Arcs, keep: seq<bool>, r: Arcs, n: nat, separator: seq<int>, inSeparator: seq<bool>, u: int, v: int)
    requires g.WellFormed() && InRange(g.tail, n) && InRange(g.head, n) && |inSeparator| == n
    requires forall x :: 0 <= x < n ==> (inSeparator[x] <==> x in separator)
    requires keep == SeparatorKeepFlag(g, inSeparator, |separator|) && r == FilterArcs(g, keep)
    ensures HasArc(r, u, v) <==> HasArc(g, u, v) && |separator| != n && (u in separator <==> v in separator)
  {
    FilterArcsHas(g, keep, u, v);
    if HasArc(g, u, v) && |separator| != n && (u in separator <==> v in separator) {
      var a :| 0 <= a < |g.tail| && g.tail[a] == u && g.head[a] == v;
      assert keep[a];
    }
  }

  /** The filtered arcs are the flagged arcs. */
  lemma FilterArcsHas(g: Arcs, keep: seq<bool>, u: int, v: int)
    requires g.WellFormed() && |keep| == |g.tail|
    ensures HasArc(FilterArcs(g, keep), u, v) <==> exists a :: 0 <= a < |g.tail| && keep[a] && g.tail[a] == u && g.head[a] == v
  {
    var r := FilterArcs(g, keep);
    var idx := KeptIndices(keep);
    assert r.tail == Chain(idx, g.tail) && r.head == Chain(idx, g.head);
    if HasArc(r, u, v) {
      var k :| 0 <= k < |r.tail| && r.tail[k] == u && r.head[k] == v;
      assert keep[idx[k]] && g.tail[idx[k]] == u && g.head[idx[k]] == v;
    }
    if exists a :: 0 <= a < |g.tail| && keep[a] && g.tail[a] == u && g.head[a] == v {
      var a :| 0 <= a < |g.tail| && keep[a] && g.tail[a] == u && g.head[a] == v;
      var k :| 0 <= k < |idx| && idx[k] == a;
      assert r.tail[k] == u && r.head[k] == v;
    }
  }

  // ---------------------------------------------------------------------
  // compute_graph_order_with_degree_two_chain_at_the_begin: the core
  // ---------------------------------------------------------------------

  /** `node_in_core`: a node is in the core when it has more than two arcs. */
  function CoreFlags(n: nat, tail: seq<int>): (core: seq<bool>)
    ensures |core| == n
    ensures forall x :: 0 <= x < n ==> (core[x] <==> exists i, j, k :: 0 <= i < j < k < |tail| && tail[i] == x && tail[j] == x && tail[k] == x)
  {
    var core := seq(n, x requires 0 <= x < n => Occurrences(tail, x) > 2);
    forall x | 0 <= x < n
      ensures core[x] <==> exists i, j, k :: 0 <= i < j < k < |tail| && tail[i] == x && tail[j] == x && tail[k] == x
    {
      ThreeOccurrences(tail, x);
    }
    core
  }

  lemma ThreeOccurrences(s: seq<int>, x: int)
    ensures Occurrences(s, x) > 2 <==> exists i, j, k :: 0 <= i < j < k < |s| && s[i] == x && s[j] == x && s[k] == x
  {
    if exists i, j, k :: 0 <= i < j < k < |s| && s[i] == x && s[j] == x && s[k] == x {
      var i, j, k :| 0 <= i < j < k < |s| && s[i] == x && s[j] == x && s[k] == x;
      ThreeWitnessed(s, x, i, j, k);
    }
    if Occurrences(s, x) > 2 {
      ThreeFound(s, x);
    }
  }

  /** Three positions holding `x` make at least three occurrences. */
  lemma {:induction false} ThreeWitnessed(s: seq<int>, x: int, i: int, j: int, k: int)
    requires 0 <= i < j < k < |s| && s[i] == x && s[j] == x && s[k] == x
    ensures Occurrences(s, x) > 2
  {
    var front := s[..|s| - 1];
    if k < |s| - 1 {
      assert front[i] == x && front[j] == x && front[k] == x;
      ThreeWitnessed(front, x, i, j, k);
    } else {
      assert front[i] == x && front[j] == x;
      TwoOccurrences(front, x);
    }
  }

  /** At least three occurrences sit at three distinct positions. */
  lemma {:induction false} ThreeFound(s: seq<int>, x: int)
    requires Occurrences(s, x) > 2
    ensures exists i, j, k :: 0 <= i < j < k < |s| && s[i] == x && s[j] == x && s[k] == x
  {
    var front := s[..|s| - 1];
    if s[|s| - 1] == x && Occurrences(front, x) == 2 {
      TwoOccurrences(front, x);
      var i, j :| 0 <= i < j < |front| && front[i] == x && front[j] == x;
      assert s[i] == x && s[j] == x && s[|s| - 1] == x;
    } else {
      ThreeFound(front, x);
      var i, j, k :| 0 <= i < j < k < |front| && front[i] == x && front[j] == x && front[k] == x;
      assert s[i] == x && s[j] == x && s[k] == x;
    }
  }

  lemma {:induction false} TwoOccurrences(s: seq<int>, x: int)
    ensures Occurrences(s, x) > 1 <==> exists i, j :: 0 <= i < j < |s| && s[i] == x && s[j] == x
  {
    if s != [] {
      var front := s[..|s| - 1];
      TwoOccurrences(front, x);
      if exists i, j :: 0 <= i < j < |s| && s[i] == x && s[j] == x {
        var i, j :| 0 <= i < j < |s| && s[i] == x && s[j] == x;
        if j < |s| - 1 {
          assert front[i] == x && front[j] == x;
        } else {
          OccurrencesPositive(front, i);
          assert front[i] == x;
        }
      }
      if Occurrences(s, x) > 1 {
        if s[|s| - 1] == x && Occurrences(front, x) == 1 {
          OneOccurrence(front, x);
          var i :| 0 <= i < |front| && front[i] == x;
          assert s[i] == x && s[|s| - 1] == x;
        } else {
          var i, j :| 0 <= i < j < |front| && front[i] == x && front[j] == x;
          assert s[i] == x && s[j] == x;
        }
      }
    }
  }

  lemma {:induction false} OneOccurrence(s: seq<int>, x: int)
    requires Occurrences(s, x) >= 1
    ensures exists i :: 0 <= i < |s| && s[i] == x
  {
    var front := s[..|s| - 1];
    if s[|s| - 1] != x {
      OneOccurrence(front, x);
      var i :| 0 <= i < |front| && front[i] == x;
      assert s[i] == x;
    }
  }

  // ---------------------------------------------------------------------
  // compute_nested_dissection_expanded_graph_order: the cut arcs first
  // ---------------------------------------------------------------------

  /**
   * The start of the expanded-graph order: an arc-free graph gets the empty
   * order; otherwise the cut arcs' input ids fill the first `|cut|`
   * positions, in cut order, and exactly the cut arcs lose their keep flag.
   */
  method StartExpandedGraphOrder(arcCount: nat, inputArcId: seq<int>, cut: seq<int>) returns (order: array<int>, orderBegin: int, keep: array<bool>)
    requires |inputArcId| == arcCount && InRange(cut, arcCount) && Distinct(cut)
    ensures fresh(order) && fresh(keep)
    ensures arcCount == 0 ==> order.Length == 0 && orderBegin == 0
    ensures arcCount > 0 ==> order.Length == arcCount && orderBegin == |cut| <= arcCount && keep.Length == arcCount
    ensures arcCount > 0 ==> forall j :: 0 <= j < |cut| ==> order[j] == inputArcId[cut[j]]
    ensures arcCount > 0 ==> forall a :: 0 <= a < arcCount ==> (keep[a] <==> a !in cut)
  {
    if arcCount == 0 {
      order := new int[0];
      keep := new bool[0];
      return order, 0, keep;
    }
    CountBound(cut, arcCount);
    order := new int[arcCount];
    keep := new bool[arcCount](_ => true);
    orderBegin := 0;
    while orderBegin < |cut|
      invariant 0 <= orderBegin <= |cut|
      invariant forall j :: 0 <= j < orderBegin ==> order[j] == inputArcId[cut[j]]
      invariant forall a :: 0 <= a < arcCount ==> (keep[a] <==> a !in cut[..orderBegin])
    {
      var x := cut[orderBegin];
      order[orderBegin] := inputArcId[x];
      keep[x] := false;
      assert cut[..orderBegin + 1] == cut[..orderBegin] + [x];
      orderBegin := orderBegin + 1;
    }
    assert cut[..orderBegin] == cut;
  }
}
