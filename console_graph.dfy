/**
 * The graph the console program keeps in global arrays, and the commands
 * that permute, filter, recolour and examine it. The global arrays are the
 * fields of `GraphState`. `check_graph_consitency` is `Consistent()`: every
 * per-arc array has one entry per arc, every per-node array one entry per
 * node, the arc ends are nodes, and every colour is below its colour count.
 */
module ConsoleGraph {
  import opened Wrappers
  import opened Graph
  import opened IdFunc
  import Text
  import CS = ChordalSupergraph

  /** A node's geographic position; the commands modelled here only carry it along. */
  datatype GeoPos = GeoPos(lat: real, lon: real)

  function Max(a: int, b: int): int { if a < b then b else a }

  /** `identity_permutation(n)` with the entries `x` and `y` exchanged. */
  function Transposition(n: nat, x: int, y: int): (t: seq<int>)
    requires 0 <= x < n && 0 <= y < n
    ensures IsPermutation(t, n)
    ensures t[x] == y && t[y] == x
    ensures forall i :: 0 <= i < n && i != x && i != y ==> t[i] == i
  {
    seq(n, i => if i == x then y else if i == y then x else i)
  }

  /** A transposition undoes itself. */
  lemma TranspositionSelfInverse(n: nat, x: int, y: int)
    requires 0 <= x < n && 0 <= y < n
    ensures InversePermutation(Transposition(n, x, y)) == Transposition(n, x, y)
  {
    var t := Transposition(n, x, y);
    var q := InversePermutation(t);
    forall v | 0 <= v < n
      ensures q[v] == t[v]
    {
      assert t[q[v]] == v && t[t[v]] == v;
    }
  }

  /** Inverting a permutation twice gives it back. */
  lemma InverseInvolution(p: seq<int>)
    requires IsPermutation(p, |p|)
    ensures InversePermutation(InversePermutation(p)) == p
  {
    var q := InversePermutation(p);
    var r := InversePermutation(q);
    forall v | 0 <= v < |p|
      ensures r[v] == p[v]
    {
      assert q[r[v]] == v && q[p[v]] == v;
    }
  }

  /**
   * Relabelling the nodes by `p` moves node `p[k]` to id `k`: the arc ends
   * go through the inverse of `p`, the node attributes through `p`, so every
   * arc end keeps the attributes it had, and relabelling by the inverse
   * afterwards restores both.
   */
  lemma RelabelKeepsArcEnds<A>(p: seq<int>, ends: seq<int>, attr: seq<A>)
    requires IsPermutation(p, |attr|) && InRange(ends, |attr|)
    ensures var q := InversePermutation(p);
      && InRange(Chain(ends, q), |attr|)
      && (forall i :: 0 <= i < |ends| ==> Chain(p, attr)[Chain(ends, q)[i]] == attr[ends[i]])
      && Chain(Chain(ends, q), InversePermutation(q)) == ends
      && Chain(q, Chain(p, attr)) == attr
  {
    var q := InversePermutation(p);
    InverseInvolution(p);
    assert Chain(Chain(ends, q), p) == ends;
  }

  /** The per-node `colors` with colour `c` replaced by `r`. */
  function Recolor(colors: seq<int>, c: int, r: int): (s: seq<int>)
    ensures |s| == |colors|
  {
    seq(|colors|, i requires 0 <= i < |colors| => if colors[i] == c then r else colors[i])
  }

  /**
   * Replacing a colour by a non-negative `r` keeps every colour below the
   * count raised to `r + 1`; when `c != r` no entry keeps colour `c`.
   */
  lemma RecolorInRange(colors: seq<int>, count: int, c: int, r: int)
    requires InRange(colors, count) && r >= 0
    ensures InRange(Recolor(colors, c, r), Max(count, r + 1))
    ensures c != r ==> c !in Recolor(colors, c, r)
  {
  }

  /** The guard of `color_node_replace` and `color_arc_replace` as written: it rejects `c` when this holds. */
  predicate RejectsColorAsWritten(c: int, count: int)
  {
    c < 0 || c > count
  }

  /** The guard the error message describes: valid colours are in `[0, count)`. */
  predicate RejectsColor(c: int, count: int)
  {
    c < 0 || c >= count
  }

  /**
   * As written, the guard lets the colour `count` through although the
   * message says valid colours are below it; on a consistent colouring the
   * command then recolours nothing instead of reporting the invalid colour.
   */
  lemma ColorGuardAdmitsCount(colors: seq<int>, count: int, r: int)
    requires InRange(colors, count)
    ensures count >= 0 ==> !RejectsColorAsWritten(count, count) && RejectsColor(count, count)
    ensures Recolor(colors, count, r) == colors
  {
  }

  /** The colour count `color_arc_replace` sets, as written: computed from the node colour count. */
  function ArcColorCountAsWritten(nodeColorCount: int, r: int): int
  {
    Max(nodeColorCount, r + 1)
  }

  /**
   * As written, `color_arc_replace 0 0` with three arc colours, one arc of
   * colour 2, and a single node colour sets the arc colour count to 1 and
   * leaves the arc at colour 2, outside the range.
   */
  lemma ArcColorCountAsWrittenBreaksConsistency()
    ensures InRange([2], 3)
    ensures !InRange(Recolor([2], 0, 0), ArcColorCountAsWritten(1, 0))
    ensures InRange(Recolor([2], 0, 0), Max(3, 0 + 1))
  {
    assert Recolor([2], 0, 0) == [2];
    assert ArcColorCountAsWritten(1, 0) == 1;
    assert !(0 <= [2][0] < 1);
  }

  /** The node colours after `set_node_color_count n`: colours from `n` on become 0. */
  function ResetColors(colors: seq<int>, n: int): (s: seq<int>)
    ensures |s| == |colors|
  {
    seq(|colors|, i requires 0 <= i < |colors| => if colors[i] >= n then 0 else colors[i])
  }

  /** After the reset every colour is below `n`, and colours already below `n` are kept. */
  lemma ResetColorsInRange(colors: seq<int>, n: int)
    requires n > 0 && forall i :: 0 <= i < |colors| ==> colors[i] >= 0
    ensures InRange(ResetColors(colors, n), n)
    ensures forall i :: 0 <= i < |colors| && colors[i] < n ==> ResetColors(colors, n)[i] == colors[i]
  {
  }

  /** Number of entries equal to `v`. */
  function ColorCount(colors: seq<int>, v: int): nat
  {
    if colors == [] then 0 else ColorCount(colors[..|colors| - 1], v) + (if colors[|colors| - 1] == v then 1 else 0)
  }

  /** With two colours every node is on the side of colour 0 or of colour 1. */
  lemma {:induction false} ColorCountSplit(colors: seq<int>)
    requires InRange(colors, 2)
    ensures ColorCount(colors, 0) + ColorCount(colors, 1) == |colors|
  {
    if colors != [] {
      ColorCountSplit(colors[..|colors| - 1]);
    }
  }

  /** Arc `i` joins the two sides: its ends are not both of colour 0 and not both of colour 1. */
  predicate CutArc(tail: seq<int>, head: seq<int>, color: seq<int>, i: int)
    requires 0 <= i < |tail| == |head| && InRange(tail, |color|) && InRange(head, |color|)
  {
    !(color[tail[i]] == 0 && color[head[i]] == 0) && !(color[tail[i]] == 1 && color[head[i]] == 1)
  }

  /** The number of cut arcs among the first `m`. */
  function CutArcs(tail: seq<int>, head: seq<int>, color: seq<int>, m: int): nat
    requires 0 <= m <= |tail| == |head| && InRange(tail, |color|) && InRange(head, |color|)
  {
    if m == 0 then 0 else CutArcs(tail, head, color, m - 1) + (if CutArc(tail, head, color, m - 1) then 1 else 0)
  }

  /** With two colours an arc is cut exactly when its ends have different colours. */
  lemma CutArcDifferentColors(tail: seq<int>, head: seq<int>, color: seq<int>, i: int)
    requires 0 <= i < |tail| == |head| && InRange(tail, |color|) && InRange(head, |color|) && InRange(color, 2)
    ensures CutArc(tail, head, color, i) <==> color[tail[i]] != color[head[i]]
  {
  }

  /** What `examine_node_color_cut` prints, less the union-find component counts and the floating-point ratios. */
  datatype CutReport = CutReport(leftSize: int, rightSize: int, nodeCount: int, edgeCount: int,
                                 cutSize: int, epsilonZero: bool)

  /** What `examine_chordal_supergraph` prints, less the elimination-tree heights and the averages. */
  datatype SupergraphReport = SupergraphReport(upwardArcCount: int, upperTreeWidthBound: int,
                                               maxArcsInSearchSpace: int, arcsInSearchSpaceSum: int,
                                               triangleCount: int)

  /** Every arc has its reverse arc. */
  predicate IsSymmetric(tail: seq<int>, head: seq<int>)
    requires |tail| == |head|
  {
    forall i :: 0 <= i < |tail| ==> exists j :: 0 <= j < |tail| && tail[j] == head[i] && head[j] == tail[i]
  }

  /** The elimination-tree parents of the nodes below `n`. */
  function Parents(calls: seq<(int, int)>, n: nat): (p: seq<int>)
    requires CS.UpwardArcs(calls, n) && n <= CS.IntMax
    ensures |p| == n && CS.ParentsAbove(p)
  {
    var p := seq(n, x => CS.Parent(calls, x));
    assert CS.ParentsAbove(p) by {
      forall x | 0 <= x < n
        ensures p[x] == CS.IntMax || x < p[x] < n
      {
        CS.ParentAbove(calls, n, x);
      }
    }
    p
  }

  /** The number of upward arcs in each node's search space. */
  function SearchSpaces(calls: seq<(int, int)>, n: nat): (s: seq<int>)
    requires CS.UpwardArcs(calls, n) && n <= CS.IntMax
    ensures |s| == n
  {
    seq(n, x requires 0 <= x < n => CS.SearchSpace(CS.Degrees(calls, n), Parents(calls, n), x))
  }

  class GraphState {
    var tail: seq<int>
    var head: seq<int>
    var nodeCount: nat
    var nodeWeight: seq<int>
    var arcWeight: seq<int>
    var nodeColor: seq<int>
    var nodeColorCount: int
    var arcColor: seq<int>
    var arcColorCount: int
    var nodeGeoPos: seq<GeoPos>
    var nodeOriginalPosition: seq<int>
    var arcOriginalPosition: seq<int>

    /** `check_graph_consitency`. */
    predicate Consistent()
      reads this
    {
      && |head| == |tail| && |arcWeight| == |tail| && |arcColor| == |tail| && |arcOriginalPosition| == |tail|
      && |nodeWeight| == nodeCount && |nodeColor| == nodeCount && |nodeGeoPos| == nodeCount
      && |nodeOriginalPosition| == nodeCount
      && InRange(tail, nodeCount) && InRange(head, nodeCount)
      && InRange(nodeColor, nodeColorCount) && InRange(arcColor, arcColorCount)
    }

    /** The program's start: no nodes, no arcs. */
    constructor ()
      ensures Consistent() && nodeCount == 0 && tail == [] && head == []
    {
      tail, head, nodeCount := [], [], 0;
      nodeWeight, arcWeight := [], [];
      nodeColor, nodeColorCount, arcColor, arcColorCount := [], 0, [], 0;
      nodeGeoPos, nodeOriginalPosition, arcOriginalPosition := [], [], [];
    }

    /** `permutate_nodes(p)`: the node with id `p[k]` gets id `k`. */
    method PermutateNodes(p: seq<int>)
      requires Consistent() && IsPermutation(p, nodeCount)
      modifies this
      ensures Consistent()
      ensures tail == Chain(old(tail), InversePermutation(p)) && head == Chain(old(head), InversePermutation(p))
      ensures nodeColor == Chain(p, old(nodeColor)) && nodeGeoPos == Chain(p, old(nodeGeoPos))
      ensures nodeWeight == Chain(p, old(nodeWeight)) && nodeOriginalPosition == Chain(p, old(nodeOriginalPosition))
      ensures nodeCount == old(nodeCount) && nodeColorCount == old(nodeColorCount) && arcColorCount == old(arcColorCount)
      ensures arcWeight == old(arcWeight) && arcColor == old(arcColor) && arcOriginalPosition == old(arcOriginalPosition)
    {
      var inv := InversePermutation(p);
      head := Chain(head, inv);
      tail := Chain(tail, inv);
      nodeColor := Chain(p, nodeColor);
      nodeGeoPos := Chain(p, nodeGeoPos);
      nodeWeight := Chain(p, nodeWeight);
      nodeOriginalPosition := Chain(p, nodeOriginalPosition);
    }

    /** `keep_arcs_if(flag)`: the arcs whose flag is set stay, in their order, with all their attributes. */
    method KeepArcsIf(flag: seq<bool>)
      requires Consistent() && |flag| == |tail|
      modifies this
      ensures Consistent()
      ensures |tail| == CountTrue(flag)
      ensures tail == KeepIf(flag, old(tail)) && head == KeepIf(flag, old(head))
      ensures arcWeight == KeepIf(flag, old(arcWeight)) && arcColor == KeepIf(flag, old(arcColor))
      ensures arcOriginalPosition == KeepIf(flag, old(arcOriginalPosition))
      ensures nodeCount == old(nodeCount) && nodeColorCount == old(nodeColorCount) && arcColorCount == old(arcColorCount)
      ensures nodeColor == old(nodeColor) && nodeGeoPos == old(nodeGeoPos)
      ensures nodeWeight == old(nodeWeight) && nodeOriginalPosition == old(nodeOriginalPosition)
    {
      tail := KeepIf(flag, tail);
      head := KeepIf(flag, head);
      arcWeight := KeepIf(flag, arcWeight);
      arcColor := KeepIf(flag, arcColor);
      arcOriginalPosition := KeepIf(flag, arcOriginalPosition);
    }

    /** `permutate_arcs(p)`: the arc with id `p[k]` gets id `k`, with all its attributes. */
    method PermutateArcs(p: seq<int>)
      requires Consistent() && IsPermutation(p, |tail|)
      modifies this
      ensures Consistent()
      ensures tail == Chain(p, old(tail)) && head == Chain(p, old(head))
      ensures arcWeight == Chain(p, old(arcWeight)) && arcColor == Chain(p, old(arcColor))
      ensures arcOriginalPosition == Chain(p, old(arcOriginalPosition))
      ensures nodeCount == old(nodeCount) && nodeColorCount == old(nodeColorCount) && arcColorCount == old(arcColorCount)
      ensures nodeColor == old(nodeColor) && nodeGeoPos == old(nodeGeoPos)
      ensures nodeWeight == old(nodeWeight) && nodeOriginalPosition == old(nodeOriginalPosition)
    {
      tail := Chain(p, tail);
      head := Chain(p, head);
      arcWeight := Chain(p, arcWeight);
      arcColor := Chain(p, arcColor);
      arcOriginalPosition := Chain(p, arcOriginalPosition);
    }

    /** `swap_nodes x y`: the two nodes exchange their ids; invalid ids are reported and change nothing. */
    method SwapNodes(x: int, y: int) returns (r: Result<(), string>)
      requires Consistent()
      modifies this
      ensures Consistent()
      ensures !(0 <= x < old(nodeCount)) ==> r == Err("First node ID is invalid")
      ensures 0 <= x < old(nodeCount) && !(0 <= y < old(nodeCount)) ==> r == Err("Second node ID is invalid")
      ensures r.Err? || x == y ==> unchanged(this)
      ensures r.Ok? <==> 0 <= x < old(nodeCount) && 0 <= y < old(nodeCount)
      ensures r.Ok? && x != y ==>
        var t := Transposition(old(nodeCount), x, y);
        && tail == Chain(old(tail), t) && head == Chain(old(head), t)
        && nodeColor == Chain(t, old(nodeColor)) && nodeWeight == Chain(t, old(nodeWeight))
        && nodeGeoPos == Chain(t, old(nodeGeoPos)) && nodeOriginalPosition == Chain(t, old(nodeOriginalPosition))
        && nodeColor[x] == old(nodeColor)[y] && nodeColor[y] == old(nodeColor)[x]
        && arcWeight == old(arcWeight) && arcColor == old(arcColor) && arcOriginalPosition == old(arcOriginalPosition)
    {
      if !(0 <= x < nodeCount) {
        return Err("First node ID is invalid");
      }
      if !(0 <= y < nodeCount) {
        return Err("Second node ID is invalid");
      }
      if x != y {
        var t := Transposition(nodeCount, x, y);
        TranspositionSelfInverse(nodeCount, x, y);
        PermutateNodes(t);
      }
      r := Ok(());
    }

    /** `set_node_color_count n`. */
    method SetNodeColorCount(n: int) returns (r: Result<(), string>)
      requires Consistent()
      modifies this
      ensures Consistent()
      ensures n <= 0 <==> r.Err?
      ensures r.Err? ==> r.error == "Color count must be a positive integer" && unchanged(this)
      ensures r.Ok? ==> nodeColorCount == n && nodeColor == ResetColors(old(nodeColor), n)
      ensures r.Ok? ==> tail == old(tail) && head == old(head) && nodeCount == old(nodeCount)
      ensures r.Ok? ==> arcColor == old(arcColor) && arcColorCount == old(arcColorCount)
      ensures nodeWeight == old(nodeWeight) && arcWeight == old(arcWeight) && nodeGeoPos == old(nodeGeoPos)
      ensures nodeOriginalPosition == old(nodeOriginalPosition) && arcOriginalPosition == old(arcOriginalPosition)
    {
      if n <= 0 {
        return Err("Color count must be a positive integer");
      }
      var i := 0;
      ghost var colors := nodeColor;
      while i < |nodeColor|
        invariant 0 <= i <= |nodeColor| == |colors|
        invariant forall j :: 0 <= j < i ==> nodeColor[j] == ResetColors(colors, n)[j]
        invariant forall j :: i <= j < |nodeColor| ==> nodeColor[j] == colors[j]
        invariant tail == old(tail) && head == old(head) && nodeCount == old(nodeCount)
        invariant arcColor == old(arcColor) && arcColorCount == old(arcColorCount)
        invariant nodeWeight == old(nodeWeight) && arcWeight == old(arcWeight) && nodeGeoPos == old(nodeGeoPos)
        invariant nodeOriginalPosition == old(nodeOriginalPosition) && arcOriginalPosition == old(arcOriginalPosition)
      {
        if nodeColor[i] >= n {
          nodeColor := nodeColor[i := 0];
        }
        i := i + 1;
      }
      ResetColorsInRange(colors, n);
      nodeColorCount := n;
      r := Ok(());
    }

    /** The loop `for(auto&x:colors) if(x == c) x = r;` shared by the two replace commands. */
    static method ReplaceColor(colors: seq<int>, c: int, r: int) returns (s: seq<int>)
      ensures s == Recolor(colors, c, r)
    {
      s := colors;
      var i := 0;
      while i < |s|
        invariant 0 <= i <= |s| == |colors|
        invariant forall j :: 0 <= j < i ==> s[j] == Recolor(colors, c, r)[j]
        invariant forall j :: i <= j < |s| ==> s[j] == colors[j]
      {
        if s[i] == c {
          s := s[i := r];
        }
        i := i + 1;
      }
    }

    /** `color_node_replace c r`, with the colour guard the error message states. */
    method ColorNodeReplace(c: int, r: int) returns (res: Result<(), string>)
      requires Consistent()
      modifies this
      ensures Consistent()
      ensures RejectsColor(c, old(nodeColorCount)) ==> res == Err("Valid colors are in the range [0,"
        + Text.IntToString(old(nodeColorCount)) + "). The color " + Text.IntToString(c) + " is therefore invalid")
      ensures !RejectsColor(c, old(nodeColorCount)) && r < 0 ==> res == Err("Colors must be non-negative integers")
      ensures res.Err? ==> unchanged(this)
      ensures res.Ok? <==> !RejectsColor(c, old(nodeColorCount)) && r >= 0
      ensures res.Ok? ==> nodeColor == Recolor(old(nodeColor), c, r) && nodeColorCount == Max(old(nodeColorCount), r + 1)
      ensures res.Ok? ==> c != r ==> c !in nodeColor
      ensures tail == old(tail) && head == old(head) && nodeCount == old(nodeCount)
      ensures arcColor == old(arcColor) && arcColorCount == old(arcColorCount)
      ensures nodeWeight == old(nodeWeight) && arcWeight == old(arcWeight) && nodeGeoPos == old(nodeGeoPos)
      ensures nodeOriginalPosition == old(nodeOriginalPosition) && arcOriginalPosition == old(arcOriginalPosition)
    {
      if RejectsColor(c, nodeColorCount) {
        return Err("Valid colors are in the range [0," + Text.IntToString(nodeColorCount) + "). The color "
          + Text.IntToString(c) + " is therefore invalid");
      }
      if r < 0 {
        return Err("Colors must be non-negative integers");
      }
      RecolorInRange(nodeColor, nodeColorCount, c, r);
      nodeColorCount := Max(nodeColorCount, r + 1);
      nodeColor := ReplaceColor(nodeColor, c, r);
      res := Ok(());
    }

    /** `color_arc_replace c r`, with the colour guard the error message states and the arc colour count raised. */
    method ColorArcReplace(c: int, r: int) returns (res: Result<(), string>)
      requires Consistent()
      modifies this
      ensures Consistent()
      ensures RejectsColor(c, old(arcColorCount)) ==> res == Err("Valid colors are in the range [0,"
        + Text.IntToString(old(arcColorCount)) + "). The color " + Text.IntToString(c) + " is therefore invalid")
      ensures !RejectsColor(c, old(arcColorCount)) && r < 0 ==> res == Err("Colors must be non-negative integers")
      ensures res.Err? ==> unchanged(this)
      ensures res.Ok? <==> !RejectsColor(c, old(arcColorCount)) && r >= 0
      ensures res.Ok? ==> arcColor == Recolor(old(arcColor), c, r) && arcColorCount == Max(old(arcColorCount), r + 1)
      ensures res.Ok? ==> c != r ==> c !in arcColor
      ensures tail == old(tail) && head == old(head) && nodeCount == old(nodeCount)
      ensures nodeColor == old(nodeColor) && nodeColorCount == old(nodeColorCount)
      ensures nodeWeight == old(nodeWeight) && arcWeight == old(arcWeight) && nodeGeoPos == old(nodeGeoPos)
      ensures nodeOriginalPosition == old(nodeOriginalPosition) && arcOriginalPosition == old(arcOriginalPosition)
    {
      if RejectsColor(c, arcColorCount) {
        return Err("Valid colors are in the range [0," + Text.IntToString(arcColorCount) + "). The color "
          + Text.IntToString(c) + " is therefore invalid");
      }
      if r < 0 {
        return Err("Colors must be non-negative integers");
      }
      RecolorInRange(arcColor, arcColorCount, c, r);
      arcColorCount := Max(arcColorCount, r + 1);
      arcColor := ReplaceColor(arcColor, c, r);
      res := Ok(());
    }

    /**
     * `examine_node_color_cut`: the sides are the nodes of colour 0 and the
     * rest; an arc is cut unless both its ends are of colour 0 or both of
     * colour 1; every edge is stored as two arcs, so the counts are halved.
     */
    method ExamineNodeColorCut() returns (res: Result<CutReport, string>)
      requires Consistent()
      ensures nodeColorCount != 2 <==> res == Err("nodes may only be colored using two cuts")
      ensures res.Ok? ==>
        && res.value.leftSize == ColorCount(nodeColor, 0)
        && res.value.rightSize == ColorCount(nodeColor, 1)
        && res.value.leftSize + res.value.rightSize == nodeCount == res.value.nodeCount
        && res.value.edgeCount == |tail| / 2
        && res.value.cutSize == CutArcs(tail, head, nodeColor, |tail|) / 2
        && (res.value.epsilonZero <==> -1 <= res.value.leftSize - res.value.rightSize <= 1)
    {
      if nodeColorCount != 2 {
        return Err("nodes may only be colored using two cuts");
      }
      var cutSize := 0;
      var i := 0;
      while i < |tail|
        invariant 0 <= i <= |tail|
        invariant cutSize == CutArcs(tail, head, nodeColor, i)
      {
        var t, h := tail[i], head[i];
        if nodeColor[t] == 0 && nodeColor[h] == 0 {
        } else if nodeColor[t] == 1 && nodeColor[h] == 1 {
        } else {
          cutSize := cutSize + 1;
        }
        i := i + 1;
      }
      var leftSize, rightSize := 0, 0;
      var x := 0;
      while x < nodeCount
        invariant 0 <= x <= nodeCount
        invariant leftSize == ColorCount(nodeColor[..x], 0) && rightSize == x - leftSize
      {
        assert nodeColor[..x + 1][..x] == nodeColor[..x];
        if nodeColor[x] == 0 {
          leftSize := leftSize + 1;
        } else {
          rightSize := rightSize + 1;
        }
        x := x + 1;
      }
      assert nodeColor[..nodeCount] == nodeColor;
      ColorCountSplit(nodeColor);
      var diff := leftSize - rightSize;
      res := Ok(CutReport(leftSize, rightSize, nodeCount, |tail| / 2, cutSize / 2, -1 <= diff <= 1));
    }

    /**
     * `examine_chordal_supergraph`, given the upward arcs the supergraph
     * construction reports. The tree-width bound folds the last group of
     * arcs too.
     */
    method ExamineChordalSupergraph(calls: seq<(int, int)>) returns (res: Result<SupergraphReport, string>)
      requires Consistent() && CS.UpwardArcs(calls, nodeCount) && nodeCount <= CS.IntMax
      ensures !IsSymmetric(tail, head) ==> res == Err("Graph must be symmetric")
      ensures IsSymmetric(tail, head) && nodeCount <= 1 ==> res == Err("Graph must have at least 2 nodes")
      ensures res.Ok? <==> IsSymmetric(tail, head) && nodeCount >= 2
      ensures res.Ok? ==>
        var spaces := SearchSpaces(calls, nodeCount);
        && res.value.upwardArcCount == |calls|
        && res.value.upperTreeWidthBound == CS.UpperTreeWidthBound(calls)
        && res.value.arcsInSearchSpaceSum == CS.Sum(spaces)
        && (forall v :: 0 <= v < nodeCount ==> spaces[v] <= res.value.maxArcsInSearchSpace)
        && (res.value.maxArcsInSearchSpace == 0 || res.value.maxArcsInSearchSpace in spaces)
        && res.value.triangleCount == CS.Triangles(CS.Degrees(calls, nodeCount))
    {
      if !IsSymmetric(tail, head) {
        return Err("Graph must be symmetric");
      }
      if nodeCount <= 1 {
        return Err("Graph must have at least 2 nodes");
      }
      var outDeg, parent, arcCount, maxUpDeg := CS.ReplayUpwardArcs(nodeCount, calls);
      assert outDeg == CS.Degrees(calls, nodeCount);
      assert parent == Parents(calls, nodeCount);
      var spaces := CS.SearchSpaceSizes(outDeg, parent);
      assert spaces == SearchSpaces(calls, nodeCount);
      var maxSpace, spaceSum := CS.MaxAndSum(spaces);
      var triangles := CS.CountTriangles(outDeg);
      res := Ok(SupergraphReport(arcCount, maxUpDeg, maxSpace, spaceSum, triangles));
    }
  }
}
