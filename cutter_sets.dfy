/**
 * The flow and node-set classes of src/flow_cutter_accelerated.h.
 *
 * `UnitFlow` stores the flow of every arc plus one in two bits, so 0, 1 and
 * 2 stand for the flows -1, 0 and 1; an arc and its back arc carry opposite
 * flows. Its saturated arcs (flow 1) are exactly the saturated flags of the
 * flow networks of the other max-flow models.
 *
 * `BasicNodeSet` is a flag per node, the number of flagged nodes, the extra
 * nodes that a growth starts from, and the index of the extra node that the
 * last growth stopped at. `AssimilatedNodeSet` adds the cut front (arcs out
 * of the set), `ReachableNodeSet` a predecessor arc per node.
 */
module CutterSets {
  import opened Graph
  import opened FlowNetwork

  // ------------------------------------------------------------------
  // UnitFlow

  /** One entry of `TinyIntIDFunc<2>`: two bits. */
  newtype Tiny = x: int | 0 <= x < 4

  /** Every arc stores 0, 1 or 2, and an arc and its back arc store values adding up to 2 (opposite flows). */
  ghost predicate FlowOk(N: Network, s: seq<Tiny>)
  {
    && N.Valid() && |s| == N.ArcCount()
    && forall a :: 0 <= a < |s| ==> s[a] <= 2 && s[N.back[a]] == 2 - s[a]
  }

  /** The saturated arcs of a stored flow: those with flow 1. */
  function SatOf(s: seq<Tiny>): (r: seq<bool>)
    ensures |r| == |s| && forall a :: 0 <= a < |s| ==> (r[a] <==> s[a] == 2)
  {
    seq(|s|, a requires 0 <= a < |s| => s[a] == 2)
  }

  /** `increase(a)` on the stored values. */
  function Raise(N: Network, s: seq<Tiny>, a: int): seq<Tiny>
    requires N.Valid() && |s| == N.ArcCount() && 0 <= a < |s| && s[a] <= 1
  {
    var f := s[a] + 1;
    s[a := f][N.back[a] := 2 - f]
  }

  /** `decrease(a)` on the stored values. */
  function Lower(N: Network, s: seq<Tiny>, a: int): seq<Tiny>
    requires N.Valid() && |s| == N.ArcCount() && 0 <= a < |s| && 1 <= s[a] <= 2
  {
    var f := s[a] - 1;
    s[a := f][N.back[a] := 2 - f]
  }

  /**
   * The flow `s[a] - 1` of a valid stored flow is -1, 0 or 1, the negated
   * flow of the back arc; it is 1 exactly on saturated arcs and -1 exactly
   * on arcs whose back arc is saturated, so no arc is saturated together
   * with its back arc.
   */
  lemma FlowSign(N: Network, s: seq<Tiny>, a: int)
    requires FlowOk(N, s) && 0 <= a < |s|
    ensures -1 <= s[a] as int - 1 <= 1 && s[N.back[a]] as int - 1 == -(s[a] as int - 1)
    ensures (s[a] as int - 1 == 1 <==> SatOf(s)[a]) && (s[a] as int - 1 == -1 <==> SatOf(s)[N.back[a]])
    ensures NoAntiparallel(N, SatOf(s))
  {
  }

  /**
   * Increasing the flow of an arc with flow 0 or -1 keeps the stored flow
   * valid and acts on the saturated flags as a unit pushed over the arc: it
   * saturates the arc or cancels its saturated back arc.
   */
  lemma RaisePush(N: Network, s: seq<Tiny>, a: int)
    requires FlowOk(N, s) && 0 <= a < |s| && s[a] <= 1
    ensures FlowOk(N, Raise(N, s, a)) && Raise(N, s, a)[a] == s[a] + 1
    ensures SatOf(Raise(N, s, a)) == PushUnit(N, SatOf(s), a)
  {
    var r := Raise(N, s, a);
    var b := N.back[a];
    forall e | 0 <= e < |r| ensures r[e] <= 2 && r[N.back[e]] == 2 - r[e] {
      if e != a && e != b {
        assert N.back[e] != a && N.back[e] != b;
      }
    }
    assert SatOf(r) == PushUnit(N, SatOf(s), a);
  }

  /** Decreasing the flow of an arc is increasing the flow of its back arc. */
  lemma LowerIsRaiseBack(N: Network, s: seq<Tiny>, a: int)
    requires FlowOk(N, s) && 0 <= a < |s| && 1 <= s[a]
    ensures s[N.back[a]] <= 1 && Lower(N, s, a) == Raise(N, s, N.back[a])
  {
  }

  /** The cleared flow, 1 stored everywhere, is valid and saturates no arc. */
  lemma ClearedFlow(N: Network, s: seq<Tiny>)
    requires N.Valid() && |s| == N.ArcCount() && forall a :: 0 <= a < |s| ==> s[a] == 1
    ensures FlowOk(N, s) && forall a :: 0 <= a < |s| ==> !SatOf(s)[a]
  {
  }

  /** `UnitFlow`: the two-bit flow values of every arc. */
  class UnitFlow {
    const flow: array<Tiny>

    /** `UnitFlow(preimage_count)`: one entry per arc. */
    constructor (arcCount: nat)
      ensures fresh(flow) && flow.Length == arcCount
    {
      flow := new Tiny[arcCount](_ => 0);
    }

    /** `clear()`: flow 0 on every arc. */
    method Clear()
      modifies flow
      ensures forall a :: 0 <= a < flow.Length ==> flow[a] == 1
    {
      forall a | 0 <= a < flow.Length {
        flow[a] := 1;
      }
    }

    /** `increase(graph, a)`: the flow of `a` must be -1 or 0 and that of its back arc opposite. */
    method Increase(N: Network, a: int)
      requires N.Valid() && flow.Length == N.ArcCount() && 0 <= a < N.ArcCount()
      requires flow[a] <= 1 && flow[N.back[a]] == 2 - flow[a]
      modifies flow
      ensures flow[..] == Raise(N, old(flow[..]), a)
    {
      var f := flow[a];
      f := f + 1;
      flow[a] := f;
      flow[N.back[a]] := 2 - f;
    }

    /** `decrease(graph, a)`: the flow of `a` must be 0 or 1 and that of its back arc opposite. */
    method Decrease(N: Network, a: int)
      requires N.Valid() && flow.Length == N.ArcCount() && 0 <= a < N.ArcCount()
      requires 1 <= flow[a] <= 2 && flow[N.back[a]] == 2 - flow[a]
      modifies flow
      ensures flow[..] == Lower(N, old(flow[..]), a)
    {
      var f := flow[a];
      f := f - 1;
      flow[a] := f;
      flow[N.back[a]] := 2 - f;
    }

    /** `operator()(a)`: the flow of `a`, one less than what is stored. */
    function Value(a: int): (r: int)
      requires 0 <= a < flow.Length
      reads flow
      ensures -1 <= r <= 2 && r + 1 == flow[a] as int
    {
      flow[a] as int - 1
    }
  }

  // ------------------------------------------------------------------
  // Node sets

  /** The number of set flags. */
  function Count(s: seq<bool>): (r: nat)
    ensures r <= |s|
  {
    if s == [] then 0 else Count(s[..|s| - 1]) + B(s[|s| - 1])
  }

  /** Setting one flag to `v` changes the count by the difference. */
  lemma {:induction false} CountFlip(s: seq<bool>, x: int, v: bool)
    requires 0 <= x < |s|
    ensures Count(s[x := v]) == Count(s) - B(s[x]) + B(v)
    decreases |s|
  {
    var m := |s| - 1;
    if x == m {
      assert s[x := v][..m] == s[..m];
    } else {
      assert s[x := v][..m] == s[..m][x := v];
      CountFlip(s[..m], x, v);
    }
  }

  /** No flag set: count 0. */
  lemma {:induction false} CountNone(s: seq<bool>)
    requires forall x :: 0 <= x < |s| ==> !s[x]
    ensures Count(s) == 0
  {
    if s != [] {
      CountNone(s[..|s| - 1]);
    }
  }

  /** The nodes `seen` by a search are distinct nodes outside the set `flags`. */
  ghost predicate Fresh(seen: seq<int>, flags: seq<bool>)
  {
    Distinct(seen) && InRange(seen, |flags|) && forall k :: 0 <= k < |seen| ==> !flags[seen[k]]
  }

  /** The flags with `seen` added. */
  function Mark(flags: seq<bool>, seen: seq<int>): (r: seq<bool>)
    ensures |r| == |flags| && forall u :: 0 <= u < |flags| ==> (r[u] <==> flags[u] || u in seen)
  {
    seq(|flags|, u requires 0 <= u < |flags| => flags[u] || u in seen)
  }

  /** Adding fresh nodes one by one: the last one is added to the others. */
  lemma MarkLast(flags: seq<bool>, seen: seq<int>)
    requires Fresh(seen, flags) && seen != []
    ensures var m := |seen| - 1;
      Fresh(seen[..m], flags) && !Mark(flags, seen[..m])[seen[m]]
      && Mark(flags, seen) == Mark(flags, seen[..m])[seen[m] := true]
  {
    var m := |seen| - 1;
    assert seen == seen[..m] + [seen[m]];
  }

  /** Adding fresh nodes raises the count by their number. */
  lemma {:induction false} MarkCount(flags: seq<bool>, seen: seq<int>)
    requires Fresh(seen, flags)
    ensures Count(Mark(flags, seen)) == Count(flags) + |seen|
    decreases |seen|
  {
    if seen == [] {
      assert Mark(flags, seen) == flags;
    } else {
      var m := |seen| - 1;
      MarkLast(flags, seen);
      MarkCount(flags, seen[..m]);
      CountFlip(Mark(flags, seen[..m]), seen[m], true);
    }
  }

  /** What a search from an extra node does: the nodes it sees, and whether the growth goes on (`on_new_node` never said stop). */
  datatype Run = Run(seen: seq<int>, goOn: bool)

  /** The end of a growth: the flags, and the index of the extra node whose search stopped it, or -1. */
  datatype Sweep = Sweep(flags: seq<bool>, stop: int)

  /** The indices `lo..hi-1`. */
  function Range(lo: int, hi: int): (r: seq<int>)
    requires lo <= hi
    ensures |r| == hi - lo && forall k :: 0 <= k < |r| ==> r[k] == lo + k
  {
    seq(hi - lo, k => lo + k)
  }

  /** The extra-node indices a growth tries, in order: from `start` to the end, then from 0 up to `start`. */
  function GrowOrder(start: int, k: int): (r: seq<int>)
    requires 0 <= start < k
  {
    Range(start, k) + Range(0, start)
  }

  /** A growth tries every extra node exactly once, starting with `start`. */
  lemma GrowOrderCovers(start: int, k: int)
    requires 0 <= start < k
    ensures IsPermutation(GrowOrder(start, k), k) && GrowOrder(start, k)[0] == start
    ensures forall i :: 0 <= i < k ==> i in GrowOrder(start, k)
  {
    var r := GrowOrder(start, k);
    forall i | 0 <= i < k ensures i in r {
      if i >= start {
        assert r[i - start] == i;
      } else {
        assert r[k - start + i] == i;
      }
    }
  }

  /**
   * The searches from the extra nodes `roots[idx[0]]`, `roots[idx[1]]`, ...
   * in turn, each seeing new nodes, until one says stop.
   */
  function SweepFrom(flags: seq<bool>, roots: seq<int>, idx: seq<int>, search: (seq<bool>, int) -> Run): Sweep
    requires forall k :: 0 <= k < |idx| ==> 0 <= idx[k] < |roots|
    decreases |idx|
  {
    if idx == [] then Sweep(flags, -1)
    else
      var run := search(flags, roots[idx[0]]);
      var f := Mark(flags, run.seen);
      if !run.goOn then Sweep(f, idx[0]) else SweepFrom(f, roots, idx[1..], search)
  }

  /**
   * A growth only adds nodes, and it stops at an index it tried: the first
   * whose search said stop, every earlier one having gone on.
   */
  lemma {:induction false} SweepStops(flags: seq<bool>, roots: seq<int>, idx: seq<int>, search: (seq<bool>, int) -> Run)
    requires forall k :: 0 <= k < |idx| ==> 0 <= idx[k] < |roots|
    ensures var sw := SweepFrom(flags, roots, idx, search);
      && |sw.flags| == |flags| && (forall u :: 0 <= u < |flags| && flags[u] ==> sw.flags[u])
      && (sw.stop == -1 || sw.stop in idx)
    decreases |idx|
  {
    if idx != [] {
      var run := search(flags, roots[idx[0]]);
      if run.goOn {
        SweepStops(Mark(flags, run.seen), roots, idx[1..], search);
      }
    }
  }

  /** Sweeping `idx + [i]` is sweeping `idx`, then, if it did not stop, searching from `roots[i]`. */
  lemma {:induction false} SweepSnoc(flags: seq<bool>, roots: seq<int>, idx: seq<int>, i: int, search: (seq<bool>, int) -> Run)
    requires forall k :: 0 <= k < |idx| ==> 0 <= idx[k] < |roots|
    requires 0 <= i < |roots|
    ensures var sw := SweepFrom(flags, roots, idx, search);
      var run := search(sw.flags, roots[i]);
      SweepFrom(flags, roots, idx + [i], search) ==
        if sw.stop != -1 then sw else if run.goOn then Sweep(Mark(sw.flags, run.seen), -1) else Sweep(Mark(sw.flags, run.seen), i)
    decreases |idx|
  {
    if idx == [] {
      assert [i][1..] == [];
    } else {
      var run := search(flags, roots[idx[0]]);
      assert (idx + [i])[1..] == idx[1..] + [i];
      if run.goOn {
        SweepSnoc(Mark(flags, run.seen), roots, idx[1..], i, search);
      }
    }
  }

  /** Every search the growth calls sees only fresh nodes. */
  ghost predicate SeesFresh(search: (seq<bool>, int) -> Run, n: int)
  {
    forall f: seq<bool>, x: int :: |f| == n ==> Fresh(search(f, x).seen, f)
  }

  lemma FreshRun(search: (seq<bool>, int) -> Run, f: seq<bool>, x: int)
    requires SeesFresh(search, |f|)
    ensures Fresh(search(f, x).seen, f)
  {
  }

  /** `BasicNodeSet`. */
  class BasicNodeSet {
    var lastGrowIndex: int
    var nodeCountInside: int
    const insideFlag: array<bool>
    var extraNodes: seq<int>

    /** `node_count_inside_` is the number of flagged nodes. */
    ghost predicate Valid()
      reads this, insideFlag
    {
      0 <= lastGrowIndex && nodeCountInside == Count(insideFlag[..])
    }

    /** `BasicNodeSet(graph)`: empty, no extra nodes. */
    constructor (nodeCount: nat)
      ensures Valid() && fresh(insideFlag) && insideFlag.Length == nodeCount
      ensures forall x :: 0 <= x < nodeCount ==> !insideFlag[x]
      ensures lastGrowIndex == 0 && nodeCountInside == 0 && extraNodes == []
    {
      lastGrowIndex := 0;
      nodeCountInside := 0;
      insideFlag := new bool[nodeCount](_ => false);
      extraNodes := [];
      new;
      CountNone(insideFlag[..]);
    }

    /** `clear()`: no node inside, no extra nodes; the grow index is kept. */
    method Clear()
      requires Valid()
      modifies this`nodeCountInside, this`extraNodes, insideFlag
      ensures Valid() && nodeCountInside == 0 && extraNodes == []
      ensures forall x :: 0 <= x < insideFlag.Length ==> !insideFlag[x]
    {
      nodeCountInside := 0;
      forall x | 0 <= x < insideFlag.Length {
        insideFlag[x] := false;
      }
      extraNodes := [];
      CountNone(insideFlag[..]);
    }

    /** `can_grow()`. */
    predicate CanGrow()
      reads this
    {
      extraNodes != []
    }

    /** `is_inside(x)`. */
    predicate IsInside(x: int)
      requires 0 <= x < insideFlag.Length
      reads insideFlag
    {
      insideFlag[x]
    }

    /** `add_node(graph, x)`: `x` must be outside; it is flagged and counted. */
    method AddNode(x: int)
      requires Valid() && 0 <= x < insideFlag.Length && !insideFlag[x]
      modifies this`nodeCountInside, insideFlag
      ensures Valid() && insideFlag[..] == old(insideFlag[..])[x := true] && nodeCountInside == old(nodeCountInside) + 1
    {
      CountFlip(insideFlag[..], x, true);
      insideFlag[x] := true;
      nodeCountInside := nodeCountInside + 1;
    }

    /** `remove_node(x)`: `x` must be inside; it is unflagged and uncounted. */
    method RemoveNode(x: int)
      requires Valid() && 0 <= x < insideFlag.Length && insideFlag[x]
      modifies this`nodeCountInside, insideFlag
      ensures Valid() && insideFlag[..] == old(insideFlag[..])[x := false] && nodeCountInside == old(nodeCountInside) - 1
    {
      CountFlip(insideFlag[..], x, false);
      insideFlag[x] := false;
      nodeCountInside := nodeCountInside - 1;
    }

    /** `add_extra_node(graph, x)`: only the extra-node list changes, not the flags. */
    method AddExtraNode(x: int)
      modifies this`extraNodes
      ensures extraNodes == old(extraNodes) + [x]
    {
      extraNodes := extraNodes + [x];
    }

    /** `clear_extra_nodes()`. */
    method ClearExtraNodes()
      modifies this`extraNodes
      ensures extraNodes == []
    {
      extraNodes := [];
    }

    /** `copy_nodes_without_extra_nodes(other)`: the flags and count of `other`; extra nodes and grow index stay. */
    method CopyNodesWithoutExtraNodes(other: BasicNodeSet)
      requires Valid() && other.Valid() && other.insideFlag.Length == insideFlag.Length && other.insideFlag != insideFlag
      modifies this`nodeCountInside, insideFlag
      ensures Valid() && insideFlag[..] == other.insideFlag[..] && nodeCountInside == other.nodeCountInside
    {
      assert other != this;
      ghost var f := other.insideFlag[..];
      nodeCountInside := other.nodeCountInside;
      forall x | 0 <= x < insideFlag.Length {
        insideFlag[x] := other.insideFlag[x];
      }
      assert insideFlag[..] == other.insideFlag[..] == f;
    }

    /** The assignment `node_set = other.node_set`: all of `other`'s state. */
    method CopyFrom(other: BasicNodeSet)
      requires other.Valid() && other.insideFlag.Length == insideFlag.Length && other.insideFlag != insideFlag
      modifies this`lastGrowIndex, this`nodeCountInside, this`extraNodes, insideFlag
      ensures Valid() && insideFlag[..] == other.insideFlag[..] && nodeCountInside == other.nodeCountInside
      ensures extraNodes == other.extraNodes && lastGrowIndex == other.lastGrowIndex
    {
      assert other != this;
      ghost var f := other.insideFlag[..];
      lastGrowIndex := other.lastGrowIndex;
      nodeCountInside := other.nodeCountInside;
      forall x | 0 <= x < insideFlag.Length {
        insideFlag[x] := other.insideFlag[x];
      }
      assert insideFlag[..] == other.insideFlag[..] == f;
      extraNodes := other.extraNodes;
    }

    /** `see_node` for each node a search saw: flag and count it; every one must be outside. */
    method SeeAll(seen: seq<int>)
      requires Valid() && Fresh(seen, insideFlag[..])
      modifies this`nodeCountInside, insideFlag
      ensures Valid() && insideFlag[..] == Mark(old(insideFlag[..]), seen)
      ensures nodeCountInside == old(nodeCountInside) + |seen|
    {
      ghost var f0 := insideFlag[..];
      var k := 0;
      while k < |seen|
        invariant 0 <= k <= |seen| && Valid()
        invariant insideFlag[..] == Mark(f0, seen[..k]) && nodeCountInside == old(nodeCountInside) + k
      {
        assert seen[..k + 1][..k] == seen[..k];
        MarkLast(f0, seen[..k + 1]);
        AddNode(seen[k]);
        k := k + 1;
      }
      assert seen[..k] == seen;
    }

    /** One search of a growth, from the extra node `i`: it returns whether the growth goes on. */
    method SearchFrom(i: int, search: (seq<bool>, int) -> Run) returns (goOn: bool)
      requires Valid() && 0 <= i < |extraNodes| && SeesFresh(search, insideFlag.Length)
      modifies this`nodeCountInside, insideFlag
      ensures var run := search(old(insideFlag[..]), extraNodes[i]);
        Valid() && insideFlag[..] == Mark(old(insideFlag[..]), run.seen) && goOn == run.goOn
    {
      var f := insideFlag[..];
      var run := search(f, extraNodes[i]);
      assert |f| == insideFlag.Length;
      FreshRun(search, f, extraNodes[i]);
      SeeAll(run.seen);
      goOn := run.goOn;
    }

    /**
     * `grow(graph, tmp, search_algo, ...)`: search from the extra nodes in
     * turn, starting at `last_grow_index` (or at 0 when it is past the end)
     * and wrapping around, until a search says stop; that search's index
     * becomes the new `last_grow_index`. Each node a search sees is flagged
     * and counted once.
     */
    method Grow(search: (seq<bool>, int) -> Run)
      requires Valid() && extraNodes != [] && SeesFresh(search, insideFlag.Length)
      modifies this`lastGrowIndex, this`nodeCountInside, insideFlag
      ensures Valid()
      ensures var start := if old(lastGrowIndex) >= |extraNodes| then 0 else old(lastGrowIndex);
        var sw := SweepFrom(old(insideFlag[..]), extraNodes, GrowOrder(start, |extraNodes|), search);
        insideFlag[..] == sw.flags && lastGrowIndex == (if sw.stop == -1 then start else sw.stop)
    {
      var k := |extraNodes|;
      if lastGrowIndex >= k {
        lastGrowIndex := 0;
      }
      ghost var f0 := insideFlag[..];
      var stopped := GrowTail(search);
      if !stopped {
        GrowHead(search, f0);
      }
    }

    /** The first loop of `grow`: the extra nodes from `last_grow_index` to the end. */
    method GrowTail(search: (seq<bool>, int) -> Run) returns (stopped: bool)
      requires Valid() && lastGrowIndex < |extraNodes| && SeesFresh(search, insideFlag.Length)
      modifies this`lastGrowIndex, this`nodeCountInside, insideFlag
      ensures Valid()
      ensures var start := old(lastGrowIndex);
        var sw := SweepFrom(old(insideFlag[..]), extraNodes, Range(start, |extraNodes|), search);
        && insideFlag[..] == sw.flags && stopped == (sw.stop != -1)
        && lastGrowIndex == (if stopped then sw.stop else start)
        && (stopped ==> sw == SweepFrom(old(insideFlag[..]), extraNodes, GrowOrder(start, |extraNodes|), search))
    {
      ghost var f0 := insideFlag[..];
      var k := |extraNodes|;
      var start := lastGrowIndex;
      var i := start;
      while i < k
        invariant start <= i <= k && lastGrowIndex == start && Valid()
        invariant SweepFrom(f0, extraNodes, Range(start, i), search) == Sweep(insideFlag[..], -1)
      {
        SweepSnoc(f0, extraNodes, Range(start, i), i, search);
        assert Range(start, i) + [i] == Range(start, i + 1);
        var goOn := SearchFrom(i, search);
        if !goOn {
          lastGrowIndex := i;
          assert Range(start, i + 1) == GrowOrder(start, k)[..i + 1 - start];
          StopAt(f0, extraNodes, Range(start, i + 1), GrowOrder(start, k), search);
          assert Range(start, i + 1) == Range(start, k)[..i + 1 - start];
          StopAt(f0, extraNodes, Range(start, i + 1), Range(start, k), search);
          return true;
        }
        i := i + 1;
      }
      return false;
    }

    /** The second loop of `grow`, after the first found no stop: the extra nodes before `last_grow_index`. */
    method GrowHead(search: (seq<bool>, int) -> Run, ghost f0: seq<bool>)
      requires Valid() && lastGrowIndex < |extraNodes| && SeesFresh(search, insideFlag.Length)
      requires SweepFrom(f0, extraNodes, Range(lastGrowIndex, |extraNodes|), search) == Sweep(insideFlag[..], -1)
      modifies this`lastGrowIndex, this`nodeCountInside, insideFlag
      ensures Valid()
      ensures var start := old(lastGrowIndex);
        var sw := SweepFrom(f0, extraNodes, GrowOrder(start, |extraNodes|), search);
        insideFlag[..] == sw.flags && lastGrowIndex == (if sw.stop == -1 then start else sw.stop)
    {
      var k := |extraNodes|;
      var start := lastGrowIndex;
      assert Range(start, k) + Range(0, 0) == Range(start, k);
      var i := 0;
      while i < start
        invariant 0 <= i <= start && lastGrowIndex == start && Valid()
        invariant SweepFrom(f0, extraNodes, Range(start, k) + Range(0, i), search) == Sweep(insideFlag[..], -1)
      {
        SweepSnoc(f0, extraNodes, Range(start, k) + Range(0, i), i, search);
        assert Range(start, k) + Range(0, i) + [i] == Range(start, k) + Range(0, i + 1);
        var goOn := SearchFrom(i, search);
        if !goOn {
          lastGrowIndex := i;
          assert Range(start, k) + Range(0, i + 1) == GrowOrder(start, k)[..k - start + i + 1];
          StopAt(f0, extraNodes, Range(start, k) + Range(0, i + 1), GrowOrder(start, k), search);
          return;
        }
        i := i + 1;
      }
    }
  }

  /** A sweep that stopped within a prefix of the order is the sweep of the whole order. */
  lemma {:induction false} StopAt(flags: seq<bool>, roots: seq<int>, pre: seq<int>, idx: seq<int>, search: (seq<bool>, int) -> Run)
    requires forall k :: 0 <= k < |idx| ==> 0 <= idx[k] < |roots|
    requires |pre| <= |idx| && pre == idx[..|pre|] && SweepFrom(flags, roots, pre, search).stop != -1
    ensures SweepFrom(flags, roots, idx, search) == SweepFrom(flags, roots, pre, search)
    decreases |pre|
  {
    var run := search(flags, roots[idx[0]]);
    if run.goOn {
      assert pre[1..] == idx[1..][..|pre| - 1];
      StopAt(Mark(flags, run.seen), roots, pre[1..], idx[1..], search);
    }
  }

  /** The arcs of `front` whose heads are outside the set `flags`, in their order. */
  function Outside(N: Network, flags: seq<bool>, front: seq<int>): (r: seq<int>)
    requires N.Valid() && |flags| == N.NodeCount() && forall k :: 0 <= k < |front| ==> 0 <= front[k] < N.ArcCount()
  {
    if front == [] then []
    else
      var a := front[|front| - 1];
      assert a == front[|front| - 1] && 0 <= a < N.ArcCount();
      Outside(N, flags, front[..|front| - 1]) + (if flags[N.head[a]] then [] else [a])
  }

  /** `shrink_cut_front` keeps exactly the arcs whose heads are outside the set. */
  lemma {:induction false} OutsideMembers(N: Network, flags: seq<bool>, front: seq<int>)
    requires N.Valid() && |flags| == N.NodeCount() && forall k :: 0 <= k < |front| ==> 0 <= front[k] < N.ArcCount()
    ensures forall a :: a in Outside(N, flags, front) <==> a in front && !flags[N.head[a]]
    decreases |front|
  {
    if front != [] {
      var m := |front| - 1;
      OutsideMembers(N, flags, front[..m]);
      assert front == front[..m] + [front[m]];
    }
  }

  /** `shrink_cut_front` keeps the order of the arcs it keeps: it distributes over concatenation. */
  lemma {:induction false} OutsideAppend(N: Network, flags: seq<bool>, f: seq<int>, g: seq<int>)
    requires N.Valid() && |flags| == N.NodeCount()
    requires forall k :: 0 <= k < |f| ==> 0 <= f[k] < N.ArcCount()
    requires forall k :: 0 <= k < |g| ==> 0 <= g[k] < N.ArcCount()
    ensures Outside(N, flags, f + g) == Outside(N, flags, f) + Outside(N, flags, g)
    decreases |g|
  {
    if g == [] {
      assert f + g == f;
    } else {
      var m := |g| - 1;
      var a := g[m];
      var last: seq<int> := if flags[N.head[a]] then [] else [a];
      assert (f + g)[..|f + g| - 1] == f + g[..m];
      assert (f + g)[|f + g| - 1] == a;
      assert Outside(N, flags, f + g) == Outside(N, flags, f + g[..m]) + last;
      OutsideAppend(N, flags, f, g[..m]);
      assert Outside(N, flags, g) == Outside(N, flags, g[..m]) + last;
      Associate(Outside(N, flags, f), Outside(N, flags, g[..m]), last);
    }
  }

  /** Concatenation is associative. */
  lemma Associate(x: seq<int>, y: seq<int>, z: seq<int>)
    ensures (x + y) + z == x + (y + z)
  {
  }

  /** `AssimilatedNodeSet`: a node set and its cut front. */
  class AssimilatedNodeSet {
    const nodeSet: BasicNodeSet
    var front: seq<int>

    /** `AssimilatedNodeSet(graph)`. */
    constructor (nodeCount: nat)
      ensures fresh(nodeSet) && fresh(nodeSet.insideFlag) && nodeSet.Valid() && nodeSet.insideFlag.Length == nodeCount
      ensures forall x :: 0 <= x < nodeCount ==> !nodeSet.insideFlag[x]
      ensures nodeSet.nodeCountInside == 0 && nodeSet.extraNodes == [] && front == []
    {
      nodeSet := new BasicNodeSet(nodeCount);
      front := [];
    }

    /** `clear()`: the node set emptied and no cut front. */
    method Clear()
      requires nodeSet.Valid()
      modifies this`front, nodeSet`nodeCountInside, nodeSet`extraNodes, nodeSet.insideFlag
      ensures nodeSet.Valid() && nodeSet.nodeCountInside == 0 && nodeSet.extraNodes == [] && front == []
      ensures forall x :: 0 <= x < nodeSet.insideFlag.Length ==> !nodeSet.insideFlag[x]
    {
      nodeSet.Clear();
      front := [];
    }

    /** `shrink_cut_front(graph)`: drop the front arcs whose heads are inside, keeping the order of the rest. */
    method ShrinkCutFront(N: Network)
      requires N.Valid() && nodeSet.insideFlag.Length == N.NodeCount()
      requires forall k :: 0 <= k < |front| ==> 0 <= front[k] < N.ArcCount()
      modifies this`front
      ensures front == Outside(N, nodeSet.insideFlag[..], old(front))
    {
      var kept := [];
      var i := 0;
      while i < |front|
        invariant 0 <= i <= |front| && front == old(front)
        invariant kept == Outside(N, nodeSet.insideFlag[..], front[..i])
      {
        var a := front[i];
        assert front[..i + 1][..i] == front[..i];
        if !nodeSet.insideFlag[N.head[a]] {
          kept := kept + [a];
        }
        i := i + 1;
      }
      assert front[..i] == front;
      front := kept;
    }
  }

  /**
   * Following `pred` from `x` reaches a source within `d` arcs: each
   * predecessor arc enters the node it is recorded for.
   */
  ghost predicate PredPath(N: Network, pred: seq<int>, isSource: seq<bool>, x: int, d: nat)
    requires N.Valid() && |pred| == |isSource| == N.NodeCount()
    decreases d
  {
    && 0 <= x < N.NodeCount()
    && (!isSource[x] ==> d > 0 && 0 <= pred[x] < N.ArcCount() && N.head[pred[x]] == x && PredPath(N, pred, isSource, N.tail[pred[x]], d - 1))
  }

  /** The predecessor arcs from `x` back to the first source, in the order they are followed. */
  ghost function PredArcs(N: Network, pred: seq<int>, isSource: seq<bool>, x: int, d: nat): (p: seq<int>)
    requires N.Valid() && |pred| == |isSource| == N.NodeCount() && PredPath(N, pred, isSource, x, d)
    decreases d
  {
    if isSource[x] then [] else [pred[x]] + PredArcs(N, pred, isSource, N.tail[pred[x]], d - 1)
  }

  /**
   * The arcs `forall_arcs_in_path_to` hands out form a walk backwards from
   * the target to a source: the first enters the target, each next one enters
   * the tail of the previous one, and the tail of the last is a source; no
   * arc is handed out when the target is a source.
   */
  lemma {:induction false} PredArcsWalk(N: Network, pred: seq<int>, isSource: seq<bool>, x: int, d: nat)
    requires N.Valid() && |pred| == |isSource| == N.NodeCount() && PredPath(N, pred, isSource, x, d)
    ensures var p := PredArcs(N, pred, isSource, x, d);
      && (forall k :: 0 <= k < |p| ==> 0 <= p[k] < N.ArcCount())
      && (p == [] <==> isSource[x])
      && (p != [] ==> N.head[p[0]] == x && isSource[N.tail[p[|p| - 1]]])
      && (forall k :: 0 < k < |p| ==> N.head[p[k]] == N.tail[p[k - 1]])
      && (forall k :: 0 <= k < |p| ==> !isSource[N.head[p[k]]])
    decreases d
  {
    if !isSource[x] {
      var y := N.tail[pred[x]];
      PredArcsWalk(N, pred, isSource, y, d - 1);
      var q := PredArcs(N, pred, isSource, y, d - 1);
      var p := [pred[x]] + q;
      forall k | 0 < k < |p| ensures N.head[p[k]] == N.tail[p[k - 1]] {
        if k > 1 {
          assert p[k] == q[k - 1] && p[k - 1] == q[k - 2];
        }
      }
    }
  }

  /** `ReachableNodeSet`: a node set and a predecessor arc per node. */
  class ReachableNodeSet {
    const nodeSet: BasicNodeSet
    const predecessor: array<int>

    /** `ReachableNodeSet(graph)`. */
    constructor (nodeCount: nat)
      ensures fresh(nodeSet) && fresh(nodeSet.insideFlag) && fresh(predecessor) && nodeSet.Valid()
      ensures nodeSet.insideFlag.Length == predecessor.Length == nodeCount
      ensures forall x :: 0 <= x < nodeCount ==> !nodeSet.insideFlag[x]
      ensures nodeSet.nodeCountInside == 0 && nodeSet.extraNodes == []
    {
      nodeSet := new BasicNodeSet(nodeCount);
      predecessor := new int[nodeCount](_ => 0);
    }

    /**
     * `reset(other, keep_extra)`: the nodes of the assimilated set `other`;
     * with `keep_extra` the own extra nodes and grow index stay, without it
     * they are `other`'s too.
     */
    method Reset(other: AssimilatedNodeSet, keepExtra: bool)
      requires nodeSet.Valid() && other.nodeSet.Valid() && other.nodeSet != nodeSet
      requires other.nodeSet.insideFlag.Length == nodeSet.insideFlag.Length && other.nodeSet.insideFlag != nodeSet.insideFlag
      modifies nodeSet`lastGrowIndex, nodeSet`nodeCountInside, nodeSet`extraNodes, nodeSet.insideFlag
      ensures nodeSet.Valid() && nodeSet.insideFlag[..] == other.nodeSet.insideFlag[..]
      ensures nodeSet.nodeCountInside == other.nodeSet.nodeCountInside
      ensures keepExtra ==> nodeSet.extraNodes == old(nodeSet.extraNodes) && nodeSet.lastGrowIndex == old(nodeSet.lastGrowIndex)
      ensures !keepExtra ==> nodeSet.extraNodes == other.nodeSet.extraNodes && nodeSet.lastGrowIndex == other.nodeSet.lastGrowIndex
    {
      if keepExtra {
        nodeSet.CopyNodesWithoutExtraNodes(other.nodeSet);
      } else {
        nodeSet.CopyFrom(other.nodeSet);
      }
    }

    /**
     * `forall_arcs_in_path_to(graph, is_source, target, on_new_arc)`: the
     * arcs handed to `on_new_arc`, following the predecessor arcs from
     * `target` until a source; `d` bounds the length of that walk.
     */
    method ForallArcsInPathTo(N: Network, isSource: seq<bool>, target: int, ghost d: nat) returns (arcs: seq<int>)
      requires N.Valid() && predecessor.Length == |isSource| == N.NodeCount()
      requires PredPath(N, predecessor[..], isSource, target, d)
      ensures arcs == PredArcs(N, predecessor[..], isSource, target, d)
    {
      ghost var pred := predecessor[..];
      var x := target;
      ghost var e := d;
      arcs := [];
      while !isSource[x]
        invariant PredPath(N, pred, isSource, x, e)
        invariant arcs + PredArcs(N, pred, isSource, x, e) == PredArcs(N, pred, isSource, target, d)
        decreases e
      {
        var a := predecessor[x];
        arcs := arcs + [a];
        x := N.tail[a];
        e := e - 1;
      }
    }
  }
}
