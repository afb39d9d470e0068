/**
 * The statistics the console's `examine_chordal_supergraph` command prints
 * about the chordal supergraph obtained by eliminating the nodes in
 * increasing id order. `compute_chordal_supergraph`, which produces that
 * supergraph, is not part of this model. Its output is taken here as the
 * sequence of upward arcs `(x, y)` with `x < y`, in the order it reports
 * them to the command's callback.
 */
module ChordalSupergraph {

  /** `std::numeric_limits<int>::max()`, the parent of a root of the elimination tree. */
  const IntMax := 0x7fff_ffff

  function Max(a: int, b: int): int { if a < b then b else a }

  function Min(a: int, b: int): int { if a < b then a else b }

  /** Every reported arc goes upward between two nodes below `n`. */
  predicate UpwardArcs(calls: seq<(int, int)>, n: int)
  {
    forall i :: 0 <= i < |calls| ==> 0 <= calls[i].0 < calls[i].1 < n
  }

  /** The arcs of one tail are reported one after the other. */
  predicate GroupedByTail(calls: seq<(int, int)>)
  {
    forall i, j, k :: 0 <= i < j < k < |calls| && calls[i].0 == calls[k].0 ==> calls[j].0 == calls[i].0
  }

  /** The number of upward arcs of `x`: its upward degree in the supergraph. */
  function UpDegree(calls: seq<(int, int)>, x: int): nat
  {
    if calls == [] then 0
    else UpDegree(calls[..|calls| - 1], x) + (if calls[|calls| - 1].0 == x then 1 else 0)
  }

  /** The smallest upward neighbour of `x`, its parent in the elimination tree; `IntMax` for a root. */
  function Parent(calls: seq<(int, int)>, x: int): (r: int)
    ensures r <= IntMax
  {
    if calls == [] then IntMax
    else Min(Parent(calls[..|calls| - 1], x), if calls[|calls| - 1].0 == x then calls[|calls| - 1].1 else IntMax)
  }

  /** A node's parent is a node above it, and it is a root exactly when it has no upward arc. */
  lemma {:induction false} ParentAbove(calls: seq<(int, int)>, n: int, x: int)
    requires UpwardArcs(calls, n) && n <= IntMax
    ensures Parent(calls, x) == IntMax <==> UpDegree(calls, x) == 0
    ensures Parent(calls, x) != IntMax ==> x < Parent(calls, x) < n
  {
    if calls != [] {
      ParentAbove(calls[..|calls| - 1], n, x);
    }
  }

  /** The callback's running state: the tail of the current group, that group's size so far, and the largest group folded. */
  datatype UpDegFold = UpDegFold(currentTail: int, currentUpDeg: int, maxUpDeg: int)

  /** The callback's fold: a group is folded into the maximum when the next group starts. */
  function FoldUpDeg(calls: seq<(int, int)>): UpDegFold
  {
    if calls == [] then UpDegFold(-1, 0, 0)
    else
      var st := FoldUpDeg(calls[..|calls| - 1]);
      var x := calls[|calls| - 1].0;
      if st.currentTail != x then UpDegFold(x, 1, Max(st.maxUpDeg, st.currentUpDeg))
      else UpDegFold(x, st.currentUpDeg + 1, st.maxUpDeg)
  }

  /** `upper tree width bound` as the command prints it: the group reported last is never folded. */
  function UpperTreeWidthBoundAsWritten(calls: seq<(int, int)>): int
  {
    FoldUpDeg(calls).maxUpDeg
  }

  /** The bound with the last group folded after the callbacks as well. */
  function UpperTreeWidthBound(calls: seq<(int, int)>): int
  {
    Max(FoldUpDeg(calls).maxUpDeg, FoldUpDeg(calls).currentUpDeg)
  }

  /** Some reported tail has upward degree `d`. */
  predicate DegreeOccurs(calls: seq<(int, int)>, d: int)
  {
    exists i :: 0 <= i < |calls| && UpDegree(calls, calls[i].0) == d
  }

  /** Some reported tail other than `t` has upward degree `d`. */
  predicate DegreeOccursBesides(calls: seq<(int, int)>, d: int, t: int)
  {
    exists i :: 0 <= i < |calls| && calls[i].0 != t && UpDegree(calls, calls[i].0) == d
  }

  /** A tail that has not been reported has upward degree zero. */
  lemma {:induction false} UpDegreeAbsent(calls: seq<(int, int)>, x: int)
    requires forall j :: 0 <= j < |calls| ==> calls[j].0 != x
    ensures UpDegree(calls, x) == 0
  {
    if calls != [] {
      UpDegreeAbsent(calls[..|calls| - 1], x);
    }
  }

  /**
   * What the fold holds for arcs grouped by tail: the current group is the
   * last tail's whole upward degree, every other tail's degree is at most the
   * folded maximum, and that maximum is zero or the degree of a tail whose
   * group is finished.
   */
  lemma {:induction false} FoldInvariant(calls: seq<(int, int)>)
    requires calls != [] && GroupedByTail(calls)
    ensures var st := FoldUpDeg(calls);
      && st.currentTail == calls[|calls| - 1].0
      && st.currentUpDeg == UpDegree(calls, st.currentTail)
      && (forall x :: x != st.currentTail ==> UpDegree(calls, x) <= st.maxUpDeg)
      && (st.maxUpDeg == 0 || DegreeOccursBesides(calls, st.maxUpDeg, st.currentTail))
  {
    var front := calls[..|calls| - 1];
    var x := calls[|calls| - 1].0;
    var st := FoldUpDeg(calls);
    if front == [] {
      assert FoldUpDeg(front) == UpDegFold(-1, 0, 0);
      assert st.maxUpDeg == 0;
      forall z | z != x
        ensures UpDegree(calls, z) <= st.maxUpDeg
      {
        assert UpDegree(calls, z) == UpDegree(front, z) + 0;
      }
    } else {
      assert GroupedByTail(front);
      FoldInvariant(front);
      var prev := FoldUpDeg(front);
      var t := front[|front| - 1].0;
      if t != x {
        assert forall j :: 0 <= j < |front| ==> front[j].0 != x;
        UpDegreeAbsent(front, x);
        assert UpDegree(calls, t) == prev.currentUpDeg;
        if prev.currentUpDeg >= prev.maxUpDeg && prev.currentUpDeg != 0 {
          assert calls[|front| - 1].0 == t;
          assert UpDegree(calls, calls[|front| - 1].0) == st.maxUpDeg;
        } else if prev.maxUpDeg != 0 {
          var i :| 0 <= i < |front| && front[i].0 != t && UpDegree(front, front[i].0) == prev.maxUpDeg;
          assert calls[i] == front[i];
          assert UpDegree(calls, calls[i].0) == st.maxUpDeg;
        }
      } else if prev.maxUpDeg != 0 {
        var i :| 0 <= i < |front| && front[i].0 != t && UpDegree(front, front[i].0) == prev.maxUpDeg;
        assert calls[i] == front[i];
        assert UpDegree(calls, calls[i].0) == st.maxUpDeg;
      }
    }
  }

  /**
   * With the last group folded, the bound is the largest upward degree of
   * any node: no node exceeds it, and some reported tail attains it.
   */
  lemma UpperTreeWidthBoundIsMaxDegree(calls: seq<(int, int)>)
    requires GroupedByTail(calls)
    ensures forall x :: UpDegree(calls, x) <= UpperTreeWidthBound(calls)
    ensures calls == [] ==> UpperTreeWidthBound(calls) == 0
    ensures calls != [] ==> DegreeOccurs(calls, UpperTreeWidthBound(calls))
  {
    if calls != [] {
      FoldInvariant(calls);
      var st := FoldUpDeg(calls);
      if st.currentUpDeg < st.maxUpDeg {
        assert st.maxUpDeg != 0;
        var i :| 0 <= i < |calls| && calls[i].0 != st.currentTail && UpDegree(calls, calls[i].0) == st.maxUpDeg;
      } else {
        assert UpDegree(calls, calls[|calls| - 1].0) == st.currentUpDeg;
      }
    }
  }

  /**
   * As written, the bound misses the last group: on the graph with two nodes
   * and one edge, the single upward arc `(0, 1)` gives node 0 upward degree 1,
   * but the printed bound is 0.
   */
  lemma UpperTreeWidthBoundAsWrittenMissesLastGroup()
    ensures UpperTreeWidthBoundAsWritten([(0, 1)]) == 0
    ensures UpDegree([(0, 1)], 0) == 1
    ensures UpperTreeWidthBound([(0, 1)]) == 1
  {
    assert [(0, 1)][..0] == [];
  }

  /**
   * The callback of `examine_chordal_supergraph`, replayed over the reported
   * arcs: the upward degrees, the elimination-tree parents, the arc count, and
   * the largest upward degree, with the last group folded after the loop.
   */
  method ReplayUpwardArcs(n: nat, calls: seq<(int, int)>)
    returns (outDeg: seq<int>, parent: seq<int>, arcCount: int, maxUpDeg: int)
    requires UpwardArcs(calls, n)
    ensures |outDeg| == n && |parent| == n
    ensures forall x :: 0 <= x < n ==> outDeg[x] == UpDegree(calls, x) && parent[x] == Parent(calls, x)
    ensures arcCount == |calls|
    ensures maxUpDeg == UpperTreeWidthBound(calls)
  {
    outDeg := seq(n, _ => 0);
    parent := seq(n, _ => IntMax);
    var currentTail := -1;
    var currentUpDeg := 0;
    maxUpDeg := 0;
    arcCount := 0;
    var i := 0;
    while i < |calls|
      invariant 0 <= i <= |calls| && |outDeg| == n && |parent| == n
      invariant forall z :: 0 <= z < n ==> outDeg[z] == UpDegree(calls[..i], z)
      invariant forall z :: 0 <= z < n ==> parent[z] == Parent(calls[..i], z)
      invariant UpDegFold(currentTail, currentUpDeg, maxUpDeg) == FoldUpDeg(calls[..i])
      invariant arcCount == i
    {
      var x := calls[i].0;
      var y := calls[i].1;
      assert calls[..i + 1][..i] == calls[..i];
      forall z | 0 <= z < n
        ensures UpDegree(calls[..i + 1], z) == UpDegree(calls[..i], z) + (if z == x then 1 else 0)
        ensures Parent(calls[..i + 1], z) == Min(Parent(calls[..i], z), if z == x then y else IntMax)
      {
        assert calls[..i + 1][i] == calls[i];
      }
      outDeg := outDeg[x := outDeg[x] + 1];
      if currentTail != x {
        currentTail := x;
        maxUpDeg := Max(maxUpDeg, currentUpDeg);
        currentUpDeg := 0;
      }
      arcCount := arcCount + 1;
      currentUpDeg := currentUpDeg + 1;
      parent := parent[x := Min(parent[x], y)];
      i := i + 1;
    }
    assert calls[..|calls|] == calls;
    maxUpDeg := Max(maxUpDeg, currentUpDeg);
  }

  /** Every parent is a node above its child, or the root marker. */
  predicate ParentsAbove(parent: seq<int>)
  {
    forall x :: 0 <= x < |parent| ==> parent[x] == IntMax || x < parent[x] < |parent|
  }

  /** Upward arcs in the search space of `x`: those of `x` and of all its elimination-tree ancestors. */
  function SearchSpace(outDeg: seq<int>, parent: seq<int>, x: int): int
    requires |outDeg| == |parent| && ParentsAbove(parent) && 0 <= x < |parent|
    decreases |parent| - x
  {
    outDeg[x] + (if parent[x] == IntMax then 0 else SearchSpace(outDeg, parent, parent[x]))
  }

  /** The descending loop that adds each parent's count to its child's. */
  method SearchSpaceSizes(outDeg: seq<int>, parent: seq<int>) returns (a: seq<int>)
    requires |outDeg| == |parent| && ParentsAbove(parent)
    ensures |a| == |parent|
    ensures forall x :: 0 <= x < |a| ==> a[x] == SearchSpace(outDeg, parent, x)
  {
    a := outDeg;
    var x := |parent| - 1;
    while x >= 0
      invariant -1 <= x < |parent| && |a| == |parent|
      invariant forall z :: x < z < |a| ==> a[z] == SearchSpace(outDeg, parent, z)
      invariant forall z :: 0 <= z <= x ==> a[z] == outDeg[z]
    {
      if parent[x] != IntMax {
        a := a[x := a[x] + a[parent[x]]];
      }
      x := x - 1;
    }
  }

  function Sum(s: seq<int>): int
  {
    if s == [] then 0 else s[0] + Sum(s[1..])
  }

  lemma {:induction false} SumSnoc(s: seq<int>, v: int)
    ensures Sum(s + [v]) == Sum(s) + v
  {
    if s != [] {
      assert (s + [v])[1..] == s[1..] + [v];
      SumSnoc(s[1..], v);
    } else {
      assert (s + [v])[1..] == [];
    }
  }

  /** Two sequences that differ at one position differ in sum by the difference there. */
  lemma {:induction false} SumPointChange(a: seq<int>, b: seq<int>, k: nat)
    requires |a| == |b| && k < |a|
    requires forall i :: 0 <= i < |a| && i != k ==> a[i] == b[i]
    ensures Sum(b) == Sum(a) - a[k] + b[k]
  {
    if k == 0 {
      assert a[1..] == b[1..];
    } else {
      SumPointChange(a[1..], b[1..], k - 1);
    }
  }

  /** A sum of non-negative entries is at least the sum of any suffix. */
  lemma {:induction false} SuffixSumBound(s: seq<int>, x: nat, y: nat)
    requires x <= y <= |s|
    requires forall i :: 0 <= i < |s| ==> s[i] >= 0
    ensures Sum(s[y..]) <= Sum(s[x..])
    decreases y - x
  {
    if x < y {
      SuffixSumBound(s, x + 1, y);
      assert s[x..][1..] == s[x + 1..];
    }
  }

  /** The largest and the total of the per-node values, as the command's `max_to` and sum loop gives them. */
  method MaxAndSum(s: seq<int>) returns (mx: int, total: int)
    ensures mx >= 0 && forall i :: 0 <= i < |s| ==> s[i] <= mx
    ensures mx == 0 || exists i :: 0 <= i < |s| && s[i] == mx
    ensures total == Sum(s)
  {
    mx := 0;
    total := 0;
    var i := 0;
    while i < |s|
      invariant 0 <= i <= |s|
      invariant mx >= 0 && forall j :: 0 <= j < i ==> s[j] <= mx
      invariant mx == 0 || exists j :: 0 <= j < i && s[j] == mx
      invariant total == Sum(s[..i])
    {
      SumSnoc(s[..i], s[i]);
      assert s[..i + 1] == s[..i] + [s[i]];
      mx := Max(mx, s[i]);
      total := total + s[i];
      i := i + 1;
    }
    assert s[..|s|] == s;
  }

  /** The upward degrees of the nodes below `n`. */
  function Degrees(calls: seq<(int, int)>, n: nat): (d: seq<int>)
    ensures |d| == n
  {
    seq(n, x => UpDegree(calls, x))
  }

  /** Every reported arc is counted once by its tail's upward degree. */
  lemma {:induction false} DegreesSum(calls: seq<(int, int)>, n: nat)
    requires UpwardArcs(calls, n)
    ensures Sum(Degrees(calls, n)) == |calls|
  {
    if calls == [] {
      ZeroSum(n);
      assert Degrees(calls, n) == seq(n, _ => 0);
    } else {
      var front := calls[..|calls| - 1];
      assert UpwardArcs(front, n);
      DegreesSum(front, n);
      SumPointChange(Degrees(front, n), Degrees(calls, n), calls[|calls| - 1].0);
    }
  }

  lemma {:induction false} ZeroSum(n: nat)
    ensures Sum(seq(n, _ => 0)) == 0
  {
    if n > 0 {
      assert seq(n, _ => 0)[1..] == seq(n - 1, _ => 0);
      ZeroSum(n - 1);
    }
  }

  /** The search space of a node never holds more arcs than the supergraph has. */
  lemma SearchSpaceBound(calls: seq<(int, int)>, n: nat, x: int)
    requires UpwardArcs(calls, n) && n <= IntMax && 0 <= x < n
    requires ParentsAbove(seq(n, z => Parent(calls, z)))
    ensures SearchSpace(Degrees(calls, n), seq(n, z => Parent(calls, z)), x) <= |calls|
  {
    var d := Degrees(calls, n);
    SearchSpaceSuffix(d, seq(n, z => Parent(calls, z)), x);
    SuffixSumBound(d, 0, x);
    assert d[0..] == d;
    DegreesSum(calls, n);
  }

  /** The ancestors of `x` are above it, so its search space is within the arcs of the nodes from `x` on. */
  lemma {:induction false} SearchSpaceSuffix(outDeg: seq<int>, parent: seq<int>, x: int)
    requires |outDeg| == |parent| && ParentsAbove(parent) && 0 <= x < |parent|
    requires forall i :: 0 <= i < |outDeg| ==> outDeg[i] >= 0
    ensures SearchSpace(outDeg, parent, x) <= Sum(outDeg[x..])
    decreases |parent| - x
  {
    assert outDeg[x..][1..] == outDeg[x + 1..];
    assert outDeg[x..][0] == outDeg[x];
    assert outDeg[|outDeg|..] == [];
    SuffixSumBound(outDeg, x + 1, |outDeg|);
    if parent[x] != IntMax {
      SearchSpaceSuffix(outDeg, parent, parent[x]);
      SuffixSumBound(outDeg, x + 1, parent[x]);
    }
  }

  /** The pairs among `d` upward neighbours; each pair closes a triangle of the chordal supergraph. */
  function Choose2(d: int): int
  {
    d * (d - 1) / 2
  }

  function Triangles(outDeg: seq<int>): int
  {
    Sum(seq(|outDeg|, x requires 0 <= x < |outDeg| => Choose2(outDeg[x])))
  }

  /** The command's loop summing `out_deg(x)*(out_deg(x)-1)/2`. */
  method CountTriangles(outDeg: seq<int>) returns (count: int)
    ensures count == Triangles(outDeg)
  {
    count := 0;
    var x := 0;
    ghost var terms := seq(|outDeg|, x requires 0 <= x < |outDeg| => Choose2(outDeg[x]));
    while x < |outDeg|
      invariant 0 <= x <= |outDeg|
      invariant count == Sum(terms[..x])
    {
      SumSnoc(terms[..x], terms[x]);
      assert terms[..x + 1] == terms[..x] + [terms[x]];
      count := count + (outDeg[x] * (outDeg[x] - 1)) / 2;
      x := x + 1;
    }
    assert terms[..|outDeg|] == terms;
  }

  /** Pairs of reported arcs with the same tail. */
  function SameTailPairs(calls: seq<(int, int)>): nat
  {
    if calls == [] then 0
    else SameTailPairs(calls[..|calls| - 1]) + UpDegree(calls[..|calls| - 1], calls[|calls| - 1].0)
  }

  lemma Choose2Step(d: int)
    ensures Choose2(d + 1) == Choose2(d) + d
  {
    assert (d + 1) * d == d * (d - 1) + 2 * d;
  }

  /**
   * The printed triangle count is the number of pairs of upward arcs that
   * share their tail: every such pair spans a triangle of the supergraph.
   */
  lemma {:induction false} TrianglesCountSameTailPairs(calls: seq<(int, int)>, n: nat)
    requires UpwardArcs(calls, n)
    ensures Triangles(Degrees(calls, n)) == SameTailPairs(calls)
  {
    var terms := seq(n, x requires 0 <= x < n => Choose2(Degrees(calls, n)[x]));
    if calls == [] {
      assert terms == seq(n, _ => 0);
      ZeroSum(n);
    } else {
      var front := calls[..|calls| - 1];
      var t := calls[|calls| - 1].0;
      assert UpwardArcs(front, n);
      TrianglesCountSameTailPairs(front, n);
      var before := seq(n, x requires 0 <= x < n => Choose2(Degrees(front, n)[x]));
      Choose2Step(UpDegree(front, t));
      SumPointChange(before, terms, t);
    }
  }
}
