/**
 * `flow_cutter_accelerated::UnitDinicAlgo` of src/flow_cutter_dinic.h: the
 * Dinic variant the accelerated FlowCutter can run on its own flow. It keeps
 * none of the instance: each call gets the source set (whose extra nodes are
 * the seeds), the target set, the reachable set it refills, and the
 * two-bit `UnitFlow` it saturates over. The level flags hold only the queued
 * nodes; a node counts as on the same level or lower when it is flagged or
 * in the source set.
 *
 * The model fixes the pierced side to the source side: an arc is saturated
 * when its flow is 1, and `increase_flow` is `UnitFlow.increase`. The target
 * side runs the same algorithm on the back arcs (`CutterSets.LowerIsRaiseBack`).
 * The search and augmentation phases are the ones of the module `LevelGraph`,
 * over the saturated flags `SatOf(flow)`.
 */
module CutterDinic {
  import opened Graph
  import opened FlowNetwork
  import opened FordFulkerson
  import opened LevelGraph
  import opened CutterSets

  /** Flags set in `a` or in `b`. */
  function Union(a: seq<bool>, b: seq<bool>): (r: seq<bool>)
    requires |a| == |b|
    ensures |r| == |a|
  {
    seq(|a|, u requires 0 <= u < |a| => a[u] || b[u])
  }

  /** Setting a flag of `b` sets it in the union. */
  lemma UnionSet(a: seq<bool>, b: seq<bool>, q: int)
    requires |a| == |b| && 0 <= q < |b|
    ensures Union(a, b[q := true]) == Union(a, b)[q := true]
  {
  }

  /** The number of out-arcs of the nodes below `k`. */
  function OutDegrees(N: Network, k: nat): nat
    requires k <= N.NodeCount()
  {
    if k == 0 then 0 else OutDegrees(N, k - 1) + |N.outArcs[k - 1]|
  }

  /** The excess over a list of arcs is at most its length. */
  lemma {:induction false} ListExcessBound(N: Network, sat: seq<bool>, L: seq<int>)
    requires |sat| == N.ArcCount() && ArcsOf(N, L)
    ensures ListExcess(N, sat, L) <= |L|
    decreases |L|
  {
    if L != [] {
      var m := |L| - 1;
      assert ArcsOf(N, L[..m]);
      ListExcessBound(N, sat, L[..m]);
    }
  }

  /** A masked sum of excesses is at most the number of out-arcs summed over. */
  lemma {:induction false} NodeSumBound(N: Network, sat: seq<bool>, mask: seq<bool>, k: nat)
    requires N.Valid() && |sat| == N.ArcCount() && |mask| == N.NodeCount() && k <= N.NodeCount()
    ensures NodeSum(N, sat, mask, k) <= OutDegrees(N, k)
  {
    if k > 0 {
      NodeSumBound(N, sat, mask, k - 1);
      OutArcsValid(N, k - 1);
      ListExcessBound(N, sat, N.outArcs[k - 1]);
    }
  }

  /** A conserved unit flow has at most as many units as there are arcs out of the nodes: the bound that ends `run`. */
  lemma ConservedBound(N: Network, sat: seq<bool>, isSource: seq<bool>, isTarget: seq<bool>, flow: int)
    requires N.Valid() && |sat| == N.ArcCount() && |isSource| == |isTarget| == N.NodeCount()
    requires Conserved(N, sat, isSource, isTarget, flow)
    ensures flow <= OutDegrees(N, N.NodeCount())
  {
    NodeSumBound(N, sat, TargetMask(isSource, isTarget), N.NodeCount());
  }

  /** After the first `k` arcs of `p`: the flow is valid and saturates `PushAll` of them, and they are blocked. */
  ghost predicate AugmentedTo(N: Network, sat: seq<bool>, blk: seq<bool>, p: seq<int>, k: int, s: seq<Tiny>, b: seq<bool>)
  {
    && N.Valid() && |sat| == |blk| == N.ArcCount() && 0 <= k <= |p| && (forall j :: 0 <= j < |p| ==> 0 <= p[j] < N.ArcCount())
    && FlowOk(N, s) && SatOf(s) == PushAll(N, sat, p[..k]) && b == BlockAll(blk, p[..k])
  }

  /** The next arc of a clean chain is unsaturated; raising its flow and blocking it extends the augmented prefix. */
  lemma AugmentNext(N: Network, sat: seq<bool>, blk: seq<bool>, p: seq<int>, s0: int, t: int, k: int, s: seq<Tiny>, b: seq<bool>)
    requires AugmentedTo(N, sat, blk, p, k, s, b) && k < |p|
    requires Chain(N, p, s0, t) && Clean(N, sat, p) && NoAntiparallel(N, sat)
    ensures s[p[k]] <= 1 && s[N.back[p[k]]] == 2 - s[p[k]]
    ensures AugmentedTo(N, sat, blk, p, k + 1, Raise(N, s, p[k]), b[p[k] := true])
  {
    CleanPrefix(N, sat, p, s0, t, k);
    RaisePush(N, s, p[k]);
    assert p[..k + 1][..k] == p[..k];
  }

  /** With every arc of `p` done, the flow saturates `PushAll(p)` and all of `p` is blocked. */
  lemma AugmentedAll(N: Network, sat: seq<bool>, blk: seq<bool>, p: seq<int>, s: seq<Tiny>, b: seq<bool>)
    requires AugmentedTo(N, sat, blk, p, |p|, s, b)
    ensures FlowOk(N, s) && SatOf(s) == PushAll(N, sat, p) && b == BlockAll(blk, p)
  {
    assert p[..|p|] == p;
  }

  class UnitDinicAlgo {
    const net: Network
    const isBlocked: array<bool>
    const queue: array<int>
    /** `is_on_same_level_or_lower`. */
    const level: array<bool>
    const pathNode: array<int>
    const pathArc: array<int>
    var flowIntensity: int
    var finished: bool

    /** The sizes of the arrays and which of them are distinct. */
    ghost predicate Shape()
    {
      && net.Valid()
      && isBlocked.Length == net.ArcCount()
      && queue.Length == level.Length == pathNode.Length == pathArc.Length == net.NodeCount()
      && isBlocked != level && queue != pathNode && queue != pathArc && pathNode != pathArc
    }

    /** The flags of the source set, the target set and the reachable set, and the flow, fit the graph and are not the own arrays. */
    ghost predicate Apart(src: array<bool>, tgt: array<bool>, reach: BasicNodeSet, uf: UnitFlow)
    {
      && src.Length == tgt.Length == reach.insideFlag.Length == net.NodeCount() && uf.flow.Length == net.ArcCount()
      && src != isBlocked && src != level && src != reach.insideFlag
      && tgt != isBlocked && tgt != level && tgt != reach.insideFlag
      && reach.insideFlag != isBlocked && reach.insideFlag != level
    }

    /** `I` is the instance of the graph with the source flags `src`, the target flags `tgt` and the seeds `I.front`. */
    ghost predicate Binds(I: Instance, src: array<bool>, tgt: array<bool>)
      reads src, tgt
    {
      I.N == net && I.Valid() && src[..] == I.src && tgt[..] == I.tgt
    }

    /** What stays fixed while a level is scanned: the arrays, the instance, the saturated arcs, the level flags. */
    ghost predicate ScanFrame(src: array<bool>, tgt: array<bool>, reach: BasicNodeSet, uf: UnitFlow, I: Instance, sat: seq<bool>, lv: seq<bool>)
      reads src, tgt, level, uf.flow
    {
      Shape() && Apart(src, tgt, reach, uf) && Binds(I, src, tgt) && SatOf(uf.flow[..]) == sat && Union(I.src, level[..]) == lv
    }

    /** The search scanning out-arc `j` of queue entry `i`, with the arrays, the level flags `lv` and the results so far `r`, `end` in step. */
    ghost predicate Scanning(I: Instance, sat: seq<bool>, S: Search, begin: int, levelEnd: int, ell: int, i: int, j: int,
                             lv: seq<bool>, r: bool, end: int, reach: BasicNodeSet)
      reads isBlocked, queue, reach, reach.insideFlag
    {
      && I.Valid() && BfsAt(I, sat, S, begin, levelEnd, ell, i, j)
      && MirrorsOf(I, S, reach) && Marked(I, S, lv, ell) && r == S.reached && end == |S.queue|
    }

    /** The arrays of the breadth-first search and the reachable set hold the search state `S`. */
    ghost predicate MirrorsOf(I: Instance, S: Search, reach: BasicNodeSet)
      reads isBlocked, queue, reach, reach.insideFlag
    {
      && |S.queue| <= queue.Length && queue[..|S.queue|] == S.queue
      && isBlocked[..] == S.blocked
      && reach.Valid() && |S.pushed| == |I.src| && reach.insideFlag[..] == Union(I.src, S.pushed)
    }

    /**
     * `UnitDinicAlgo(graph)`: flow 0 and not finished. The path arrays have
     * one slot per node, so that the empty graph allocates too.
     */
    constructor (net: Network)
      requires net.Valid()
      ensures Shape() && this.net == net && flowIntensity == 0 && !finished
      ensures fresh(isBlocked) && fresh(queue) && fresh(level) && fresh(pathNode) && fresh(pathArc)
    {
      var n := net.NodeCount();
      this.net := net;
      isBlocked := new bool[net.ArcCount()](_ => false);
      queue := new int[n](_ => 0);
      level := new bool[n](_ => false);
      pathNode := new int[n](_ => 0);
      pathArc := new int[n](_ => 0);
      flowIntensity := 0;
      finished := false;
    }

    /** `init()`: flow 0 and not finished. */
    method Init()
      modifies this`flowIntensity, this`finished
      ensures flowIntensity == 0 && !finished
    {
      flowIntensity := 0;
      finished := false;
    }

    /**
     * `compute_blocking_flow(...)`: reset the reachable set to the source
     * set, then search breadth-first from the extra nodes of the source set,
     * level by level. It returns whether a target is adjacent to a queued
     * node over an unsaturated arc; the blocked flags and the queue are those
     * of the finished search, and the reachable set holds the source set and
     * the pushed nodes, each pushed node added once.
     */
    method ComputeBlockingFlow(S: AssimilatedNodeSet, T: AssimilatedNodeSet, R: ReachableNodeSet, uf: UnitFlow, ghost I: Instance)
      returns (r: bool, ghost Srch: Search)
      requires Shape() && Apart(S.nodeSet.insideFlag, T.nodeSet.insideFlag, R.nodeSet, uf)
      requires S.nodeSet.Valid() && R.nodeSet.Valid() && S.nodeSet != R.nodeSet
      requires Binds(I, S.nodeSet.insideFlag, T.nodeSet.insideFlag) && I.front == S.nodeSet.extraNodes != []
      modifies isBlocked, level, queue, R.nodeSet`lastGrowIndex, R.nodeSet`nodeCountInside, R.nodeSet`extraNodes, R.nodeSet.insideFlag
      ensures Done(I, SatOf(uf.flow[..]), Srch) && MirrorsOf(I, Srch, R.nodeSet) && r == Srch.reached
      ensures R.nodeSet.extraNodes == S.nodeSet.extraNodes
    {
      ghost var sat := SatOf(uf.flow[..]);
      var reach := R.nodeSet;
      ResetSearch(S, R, I);
      StartOk(I, sat);
      ghost var ell;
      r, Srch, ell := ScanLevels(S.nodeSet.insideFlag, T.nodeSet.insideFlag, reach, uf, I, |S.nodeSet.extraNodes|, sat);
      SearchDone(I, sat, Srch, ell);
    }

    /** The start of `compute_blocking_flow`: nothing blocked, no level flag, the reachable set reset to the source set, the seeds queued. */
    method ResetSearch(S: AssimilatedNodeSet, R: ReachableNodeSet, ghost I: Instance)
      requires Shape() && S.nodeSet.Valid() && R.nodeSet.Valid() && S.nodeSet != R.nodeSet
      requires S.nodeSet.insideFlag.Length == R.nodeSet.insideFlag.Length == net.NodeCount()
      requires S.nodeSet.insideFlag != R.nodeSet.insideFlag && S.nodeSet.insideFlag != isBlocked && S.nodeSet.insideFlag != level
      requires R.nodeSet.insideFlag != isBlocked && R.nodeSet.insideFlag != level
      requires I.N == net && I.Valid() && S.nodeSet.insideFlag[..] == I.src && I.front == S.nodeSet.extraNodes
      modifies isBlocked, level, queue, R.nodeSet`lastGrowIndex, R.nodeSet`nodeCountInside, R.nodeSet`extraNodes, R.nodeSet.insideFlag
      ensures MirrorsOf(I, Start(I), R.nodeSet) && Union(I.src, level[..]) == I.src
      ensures R.nodeSet.extraNodes == S.nodeSet.extraNodes
    {
      var n := net.NodeCount();
      forall a | 0 <= a < isBlocked.Length {
        isBlocked[a] := false;
      }
      forall u | 0 <= u < n {
        level[u] := false;
      }
      R.Reset(S, false);
      var sourceList := S.nodeSet.extraNodes;
      CountBound(sourceList, n);
      forall k | 0 <= k < |sourceList| {
        queue[k] := sourceList[k];
      }
      assert queue[..|sourceList|] == sourceList;
      assert R.nodeSet.insideFlag[..] == Union(I.src, Start(I).pushed);
      assert Union(I.src, level[..]) == I.src;
    }

    /** The outer loop of `compute_blocking_flow`, one level per round, until no node is left to scan. */
    method ScanLevels(src: array<bool>, tgt: array<bool>, reach: BasicNodeSet, uf: UnitFlow, ghost I: Instance, seedCount: int, ghost sat: seq<bool>)
      returns (r: bool, ghost S: Search, ghost ell: int)
      requires Shape() && Apart(src, tgt, reach, uf) && Binds(I, src, tgt) && SatOf(uf.flow[..]) == sat && seedCount == |I.front|
      requires MirrorsOf(I, Start(I), reach) && Union(I.src, level[..]) == I.src
      requires BfsAt(I, sat, Start(I), 0, |I.front|, 0, 0, 0) && Marked(I, Start(I), I.src, -1)
      modifies isBlocked, level, queue, reach`nodeCountInside, reach.insideFlag
      ensures BfsAt(I, sat, S, |S.queue|, |S.queue|, ell, |S.queue|, 0)
      ensures MirrorsOf(I, S, reach) && r == S.reached
    {
      var n := net.NodeCount();
      r, S, ell := false, Start(I), 0;
      var begin := 0;
      var end := seedCount;
      var levelEnd := end;
      while begin != end
        invariant BfsAt(I, sat, S, begin, levelEnd, ell, begin, 0) && levelEnd == end == |S.queue|
        invariant MirrorsOf(I, S, reach) && Marked(I, S, Union(I.src, level[..]), ell - 1) && r == S.reached
        decreases n - begin
      {
        r, end, S := ScanOneLevel(src, tgt, reach, uf, I, begin, levelEnd, ell, r, end, sat, S);
        CountBound(S.queue, n);
        begin := levelEnd;
        levelEnd := end;
        ell := ell + 1;
      }
    }

    /** One round of the outer loop: flag the level `begin..levelEnd-1`, then scan it. */
    method ScanOneLevel(src: array<bool>, tgt: array<bool>, reach: BasicNodeSet, uf: UnitFlow, ghost I: Instance,
                        begin: int, levelEnd: int, ghost ell: int, r: bool, end: int, ghost sat: seq<bool>, ghost S: Search)
      returns (r': bool, end': int, ghost S': Search)
      requires Shape() && Apart(src, tgt, reach, uf) && Binds(I, src, tgt) && SatOf(uf.flow[..]) == sat && begin < levelEnd
      requires BfsAt(I, sat, S, begin, levelEnd, ell, begin, 0) && levelEnd == end == |S.queue|
      requires MirrorsOf(I, S, reach) && Marked(I, S, Union(I.src, level[..]), ell - 1) && r == S.reached
      modifies isBlocked, level, queue, reach`nodeCountInside, reach.insideFlag
      ensures BfsAt(I, sat, S', levelEnd, end', ell + 1, levelEnd, 0) && end' == |S'.queue|
      ensures MirrorsOf(I, S', reach) && Marked(I, S', Union(I.src, level[..]), ell) && r' == S'.reached
    {
      MarkStart(I, sat, S, Union(I.src, level[..]), begin, levelEnd, ell);
      MarkLevel(I, begin, levelEnd, ell, S);
      MarkEnd(I, sat, S, Union(I.src, level[..]), begin, levelEnd, ell);
      r', end', S' := ScanLevel(src, tgt, reach, uf, I, begin, levelEnd, ell, r, end, sat, Union(I.src, level[..]), S);
      LevelDone(I, sat, S', begin, levelEnd, ell);
    }

    /** The first loop of a level: flag its queue entries `begin..levelEnd-1` as on the same level or lower. */
    method MarkLevel(ghost I: Instance, begin: int, levelEnd: int, ghost ell: int, ghost S: Search)
      requires Shape() && I.N == net && I.Valid() && |S.depth| == |S.pushed| == net.NodeCount() && InRange(S.queue, net.NodeCount())
      requires 0 <= begin <= levelEnd <= |S.queue| <= queue.Length && queue[..|S.queue|] == S.queue
      requires Marking(I, S, Union(I.src, level[..]), ell, begin, begin)
      modifies level
      ensures Marking(I, S, Union(I.src, level[..]), ell, begin, levelEnd)
    {
      var i := begin;
      ghost var marks := Union(I.src, level[..]);
      while i < levelEnd
        invariant begin <= i <= levelEnd && marks == Union(I.src, level[..]) && Marking(I, S, marks, ell, begin, i)
      {
        var q := queue[i];
        assert q == S.queue[i];
        MarkStep(I, S, marks, ell, begin, i);
        UnionSet(I.src, level[..], q);
        SetLevel(q);
        marks := marks[q := true];
        i := i + 1;
      }
    }

    /** Flags the node `q` as on the same level or lower. */
    method SetLevel(q: int)
      requires Shape() && 0 <= q < level.Length
      modifies level
      ensures level[..] == old(level[..])[q := true]
    {
      level[q] := true;
    }

    /** The second loop of a level: scan the out-arcs of each of its queue entries. */
    method ScanLevel(src: array<bool>, tgt: array<bool>, reach: BasicNodeSet, uf: UnitFlow, ghost I: Instance,
                     begin: int, levelEnd: int, ghost ell: int, r: bool, end: int, ghost sat: seq<bool>, ghost lv: seq<bool>, ghost S: Search)
      returns (r': bool, end': int, ghost S': Search)
      requires ScanFrame(src, tgt, reach, uf, I, sat, lv)
      requires Scanning(I, sat, S, begin, levelEnd, ell, begin, 0, lv, r, end, reach)
      modifies isBlocked, queue, reach`nodeCountInside, reach.insideFlag
      ensures Scanning(I, sat, S', begin, levelEnd, ell, levelEnd, 0, lv, r', end', reach)
    {
      r', end', S' := r, end, S;
      var i := begin;
      while i < levelEnd
        invariant begin <= i <= levelEnd && Scanning(I, sat, S', begin, levelEnd, ell, i, 0, lv, r', end', reach)
      {
        r', end', S' := ScanNode(src, tgt, reach, uf, I, begin, levelEnd, ell, i, r', end', sat, lv, S');
        i := i + 1;
      }
    }

    /** `for(auto xy : graph.out_arc(x))` for the queue entry `i`; `source_reachable` must hold `x`. */
    method ScanNode(src: array<bool>, tgt: array<bool>, reach: BasicNodeSet, uf: UnitFlow, ghost I: Instance,
                    begin: int, levelEnd: int, ghost ell: int, i: int, r: bool, end: int, ghost sat: seq<bool>, ghost lv: seq<bool>, ghost S: Search)
      returns (r': bool, end': int, ghost S': Search)
      requires ScanFrame(src, tgt, reach, uf, I, sat, lv)
      requires Scanning(I, sat, S, begin, levelEnd, ell, i, 0, lv, r, end, reach) && i < levelEnd
      modifies isBlocked, queue, reach`nodeCountInside, reach.insideFlag
      ensures Scanning(I, sat, S', begin, levelEnd, ell, i + 1, 0, lv, r', end', reach)
    {
      r', end', S' := r, end, S;
      assert queue[i] == S.queue[i];
      var x := queue[i];
      QueuedKind(I, S, x);
      assert reach.insideFlag[x];
      var j := 0;
      while j < |net.outArcs[x]|
        invariant 0 <= j <= |net.outArcs[x]| && i < |S'.queue| && x == S'.queue[i]
        invariant Scanning(I, sat, S', begin, levelEnd, ell, i, j, lv, r', end', reach)
      {
        r', end', S' := ScanOutArc(src, tgt, reach, uf, I, begin, levelEnd, ell, i, j, r', end', sat, lv, S');
        j := j + 1;
      }
      NodeDone(I, sat, S', begin, levelEnd, ell, i);
    }

    /** One round of the arc loop: out-arc `j` of the queue entry `i`. */
    method ScanOutArc(src: array<bool>, tgt: array<bool>, reach: BasicNodeSet, uf: UnitFlow, ghost I: Instance,
                      begin: int, levelEnd: int, ghost ell: int, i: int, j: int, r: bool, end: int, ghost sat: seq<bool>, ghost lv: seq<bool>, ghost S: Search)
      returns (r': bool, end': int, ghost S': Search)
      requires ScanFrame(src, tgt, reach, uf, I, sat, lv)
      requires Scanning(I, sat, S, begin, levelEnd, ell, i, j, lv, r, end, reach) && i < levelEnd && j < |net.outArcs[S.queue[i]]|
      modifies isBlocked, queue, reach`nodeCountInside, reach.insideFlag
      ensures Scanning(I, sat, S', begin, levelEnd, ell, i, j + 1, lv, r', end', reach)
      ensures i < |S'.queue| && S'.queue[i] == S.queue[i]
    {
      ScanArcStep(I, sat, S, begin, levelEnd, ell, i, j);
      ReadyAt(I, sat, S, begin, levelEnd, ell, i, j);
      ScanMarked(I, sat, S, lv, net.outArcs[S.queue[i]][j], ell);
      r', end', S' := ScanArcAt(src, tgt, reach, uf, I, ell, i, j, r, end, sat, lv, S);
    }

    /** The body of the scan for the arc `xy`, out-arc `j` of the queue entry `i`. */
    method ScanArcAt(src: array<bool>, tgt: array<bool>, reach: BasicNodeSet, uf: UnitFlow, ghost I: Instance,
                     ghost ell: int, i: int, j: int, r: bool, end: int, ghost sat: seq<bool>, ghost lv: seq<bool>, ghost S: Search)
      returns (r': bool, end': int, ghost S': Search)
      requires ScanFrame(src, tgt, reach, uf, I, sat, lv)
      requires ScanReady(I, sat, S, ell, i, j)
      requires MirrorsOf(I, S, reach) && Marked(I, S, lv, ell) && r == S.reached && end == |S.queue|
      modifies isBlocked, queue, reach`nodeCountInside, reach.insideFlag
      ensures S' == ScanArc(I, sat, S, net.outArcs[S.queue[i]][j], ell)
      ensures |S.queue| <= |S'.queue| && S'.queue[i] == S.queue[i]
      ensures MirrorsOf(I, S', reach) && r' == S'.reached && end' == |S'.queue|
    {
      r', end' := r, end;
      assert queue[i] == S.queue[i];
      var x := queue[i];
      var xy := net.outArcs[x][j];
      S' := ScanArc(I, sat, S, xy, ell);
      if uf.flow[xy] == 2 {
        isBlocked[xy] := true;
      } else {
        var y := net.head[xy];
        if level[y] || src[y] {
          isBlocked[xy] := true;
        } else if tgt[y] {
          r' := true;
        } else if !reach.insideFlag[y] {
          PushFresh(I, S, y);
          MissingBound(S.queue, net.NodeCount(), y);
          queue[end'] := y;
          end' := end' + 1;
          reach.AddNode(y);
          assert queue[..|S'.queue|] == S'.queue;
          assert reach.insideFlag[..] == Union(I.src, S'.pushed);
        }
      }
    }

    /** `find_first_non_block_out_arc(graph, x)`: the first unblocked out-arc of `x`, or -1 if all are blocked. */
    method FindFirstNonBlockOutArc(x: int) returns (xy: int)
      requires Shape() && 0 <= x < net.NodeCount()
      ensures xy == -1 ==> forall j :: 0 <= j < |net.outArcs[x]| ==> isBlocked[net.outArcs[x][j]]
      ensures xy != -1 ==> 0 <= xy < net.ArcCount() && net.tail[xy] == x && !isBlocked[xy]
      ensures xy != -1 ==> exists j :: (0 <= j < |net.outArcs[x]| && net.outArcs[x][j] == xy
        && forall k :: 0 <= k < j ==> isBlocked[net.outArcs[x][k]])
    {
      var j := 0;
      while j < |net.outArcs[x]|
        invariant 0 <= j <= |net.outArcs[x]|
        invariant forall k :: 0 <= k < j ==> isBlocked[net.outArcs[x][k]]
      {
        if !isBlocked[net.outArcs[x][j]] {
          return net.outArcs[x][j];
        }
        j := j + 1;
      }
      return -1;
    }

    /** The path arrays hold the path `nodes`, `arcs` of `count` arcs, the flow saturates `sat` and the blocked flags are `blk`. */
    ghost predicate Held(uf: UnitFlow, count: int, sat: seq<bool>, blk: seq<bool>, nodes: seq<int>, arcs: seq<int>)
      reads uf.flow, isBlocked, pathNode, pathArc
    {
      && Shape() && FlowOk(net, uf.flow[..]) && SatOf(uf.flow[..]) == sat && isBlocked[..] == blk
      && 0 <= count == |arcs| < pathNode.Length && pathNode[..count + 1] == nodes && pathArc[..count] == arcs
    }

    /**
     * `augment_all_non_blocked_path(...)`: a depth-first search from each
     * seed in turn over unblocked arcs, increasing the flow along every path
     * that enters a target. It returns the number of paths augmented, which
     * is at least one if the search reached a target; flow stays conserved,
     * the phase state over the search is kept, and afterwards every out-arc
     * of a seed is blocked.
     */
    method AugmentAllNonBlockedPath(tgt: array<bool>, uf: UnitFlow, sourceList: seq<int>, ghost I: Instance, ghost S: Search, ghost F: int)
      returns (augmented: int)
      requires Shape() && I.N == net && I.Valid() && tgt.Length == net.NodeCount() && tgt[..] == I.tgt && sourceList == I.front
      requires tgt != isBlocked && uf.flow.Length == net.ArcCount() && FlowOk(net, uf.flow[..])
      requires Done(I, SatOf(uf.flow[..]), S) && isBlocked[..] == S.blocked
      requires Conserved(net, SatOf(uf.flow[..]), I.src, I.tgt, F)
      modifies this`flowIntensity, uf.flow, isBlocked, pathNode, pathArc
      ensures augmented >= 0 && flowIntensity == old(flowIntensity) + augmented
      ensures FlowOk(net, uf.flow[..]) && Conserved(net, SatOf(uf.flow[..]), I.src, I.tgt, F + augmented)
      ensures S.reached ==> augmented > 0
      ensures Phase(I, old(SatOf(uf.flow[..])), S, SatOf(uf.flow[..]), isBlocked[..])
      ensures forall k, j :: 0 <= k < |I.front| && 0 <= j < |net.outArcs[I.front[k]]| ==> isBlocked[net.outArcs[I.front[k]][j]]
    {
      ghost var sat0 := SatOf(uf.flow[..]);
      ghost var sat, blk := sat0, isBlocked[..];
      PhaseStart(I, sat0, S);
      ghost var W := [];
      if S.reached {
        W := LevelPath(I, sat0, S, net.tail[S.hit]) + [S.hit];
        DoneWitness(I, sat0, S);
      }
      augmented := 0;
      var i := 0;
      while i < |sourceList|
        invariant 0 <= i <= |sourceList| && augmented >= 0
        invariant Shape() && FlowOk(net, uf.flow[..]) && SatOf(uf.flow[..]) == sat && isBlocked[..] == blk
        invariant Conserved(net, sat, I.src, I.tgt, F + augmented) && Phase(I, sat0, S, sat, blk)
        invariant S.reached && augmented == 0 ==>
          Witness(I, blk, W) && forall k :: 0 <= k < i ==> sourceList[k] != net.tail[W[0]]
        invariant forall k, j :: 0 <= k < i && 0 <= j < |I.N.outArcs[I.front[k]]| ==> blk[I.N.outArcs[I.front[k]][j]]
        modifies uf.flow, isBlocked, pathNode, pathArc
      {
        ghost var live, blk1 := S.reached && augmented == 0, blk;
        var got;
        got, sat, blk := DfsFrom(tgt, uf, sourceList, I, i, sat0, S, W, live, sat, blk, F + augmented);
        augmented := augmented + got;
        SeedsBlocked(I, blk1, blk, i);
        if S.reached && augmented == 0 {
          assert live && net.tail[W[0]] != sourceList[i];
        }
        i := i + 1;
      }
      flowIntensity := flowIntensity + augmented;
    }

    /**
     * The `for(;;)` loop for the seed `i`: extend the path by the first
     * unblocked out-arc of its last node, augment and restart when that arc
     * enters a target, and retreat, blocking the last arc, when there is
     * none; stop when the seed itself has none. It returns the number of
     * paths augmented; the flags go from `sat`, `blk` to `sat'`, `blk'`.
     */
    method DfsFrom(tgt: array<bool>, uf: UnitFlow, sourceList: seq<int>, ghost I: Instance, i: int, ghost sat0: seq<bool>, ghost S: Search, ghost W: seq<int>,
                   ghost live: bool, ghost sat: seq<bool>, ghost blk: seq<bool>, ghost F: int)
      returns (got: int, ghost sat': seq<bool>, ghost blk': seq<bool>)
      requires Shape() && I.N == net && I.Valid() && tgt.Length == net.NodeCount() && tgt[..] == I.tgt && tgt != isBlocked
      requires uf.flow.Length == net.ArcCount() && FlowOk(net, uf.flow[..]) && SatOf(uf.flow[..]) == sat && isBlocked[..] == blk
      requires sourceList == I.front && 0 <= i < |I.front| && Phase(I, sat0, S, sat, blk) && Conserved(net, sat, I.src, I.tgt, F)
      requires live ==> Witness(I, blk, W)
      modifies uf.flow, isBlocked, pathNode, pathArc
      ensures FlowOk(net, uf.flow[..]) && SatOf(uf.flow[..]) == sat' && isBlocked[..] == blk'
      ensures got >= 0
      ensures Phase(I, sat0, S, sat', blk') && Conserved(net, sat', I.src, I.tgt, F + got)
      ensures forall e :: 0 <= e < |blk| && blk[e] ==> blk'[e]
      ensures forall j :: 0 <= j < |net.outArcs[I.front[i]]| ==> blk'[net.outArcs[I.front[i]][j]]
      ensures live && got == 0 ==> Witness(I, blk', W) && net.tail[W[0]] != I.front[i]
    {
      var f := sourceList[i];
      pathNode[0] := f;
      ghost var D := Seed(sat0, S, f, blk, F, W, live);
      WalkSeed(I, D, sat, blk, F, i);
      assert Held(uf, 0, sat, blk, [f], []);
      ghost var flow;
      got, sat', blk', flow := DfsLoop(tgt, uf, I, i, D, sat, blk, F);
      assert flow == F + got;
      if live && got == 0 {
        WitnessStart(I, blk', W, f);
      }
      WalkEnd(I, D, sat0, S, blk, sat', blk', F + got);
    }

    /** The `for(;;)` loop itself, from the path holding just the seed until the seed has no unblocked out-arc. */
    method DfsLoop(tgt: array<bool>, uf: UnitFlow, ghost I: Instance, i: int, ghost D: Seed, ghost sat: seq<bool>, ghost blk: seq<bool>, ghost F: int)
      returns (got: int, ghost sat': seq<bool>, ghost blk': seq<bool>, ghost flow: int)
      requires I.N == net && I.Valid() && tgt.Length == net.NodeCount() && tgt[..] == I.tgt && tgt != isBlocked
      requires uf.flow.Length == net.ArcCount()
      requires 0 <= i < |I.front| && I.front[i] == D.f
      requires Held(uf, 0, sat, blk, [D.f], []) && Walk(I, D, sat, blk, [D.f], [], F) && F == D.flow0
      modifies uf.flow, isBlocked, pathNode, pathArc
      ensures Held(uf, 0, sat', blk', [D.f], []) && Walk(I, D, sat', blk', [D.f], [], flow)
      ensures got >= 0 && flow == F + got
      ensures forall j :: 0 <= j < |net.outArcs[D.f]| ==> isBlocked[net.outArcs[D.f][j]]
    {
      var count := 0;
      ghost var nodes: seq<int> := [D.f];
      ghost var arcs: seq<int> := [];
      got, flow := 0, F;
      sat', blk' := sat, blk;
      while true
        invariant Held(uf, count, sat', blk', nodes, arcs) && got >= 0 && flow == F + got
        invariant Walk(I, D, sat', blk', nodes, arcs, flow)
        decreases Unblocked(blk'), pathNode.Length - count
      {
        var stop, hit;
        stop, hit, count, sat', blk', nodes, arcs, flow := DfsStep(tgt, uf, I, i, count, D, sat', blk', nodes, arcs, flow);
        if stop {
          break;
        }
        if hit {
          got := got + 1;
        }
      }
    }

    /**
     * One turn of the `for(;;)` loop: stop when the seed has no unblocked
     * out-arc, retreat when the end of the path has none, else extend or
     * augment (`hit`).
     */
    method DfsStep(tgt: array<bool>, uf: UnitFlow, ghost I: Instance, i: int, count: int, ghost D: Seed,
                   ghost sat: seq<bool>, ghost blk: seq<bool>, ghost nodes: seq<int>, ghost arcs: seq<int>, ghost flow: int)
      returns (stop: bool, hit: bool, count': int, ghost sat': seq<bool>, ghost blk': seq<bool>, ghost nodes': seq<int>, ghost arcs': seq<int>, ghost flow': int)
      requires I.N == net && I.Valid() && tgt.Length == net.NodeCount() && tgt[..] == I.tgt && tgt != isBlocked
      requires uf.flow.Length == net.ArcCount()
      requires Held(uf, count, sat, blk, nodes, arcs) && Walk(I, D, sat, blk, nodes, arcs, flow)
      requires 0 <= i < |I.front| && I.front[i] == D.f
      modifies uf.flow, isBlocked, pathNode, pathArc
      ensures Held(uf, count', sat', blk', nodes', arcs') && Walk(I, D, sat', blk', nodes', arcs', flow')
      ensures flow' == flow + (if hit then 1 else 0)
      ensures stop ==> !hit && count' == 0 && nodes' == [D.f] && arcs' == [] && forall j :: 0 <= j < |net.outArcs[D.f]| ==> isBlocked[net.outArcs[D.f][j]]
      ensures !stop ==> Unblocked(blk') < Unblocked(blk) || (blk' == blk && count' == count + 1)
    {
      assert pathNode[count] == nodes[count];
      var x := pathNode[count];
      var xy := FindFirstNonBlockOutArc(x);
      if xy == -1 {
        hit, sat', flow' := false, sat, flow;
        stop, count', blk', nodes', arcs' := RetreatOrStop(uf, I, count, x, D, sat, blk, nodes, arcs, flow);
      } else {
        stop := false;
        count', hit, sat', blk', nodes', arcs', flow' := ExtendOrAugment(tgt, uf, I, i, count, x, xy, D, sat, blk, nodes, arcs, flow);
      }
    }

    /** The end `x` of the path has no unblocked out-arc: stop if it is the seed, else retreat. */
    method RetreatOrStop(uf: UnitFlow, ghost I: Instance, count: int, x: int, ghost D: Seed, ghost sat: seq<bool>, ghost blk: seq<bool>,
                         ghost nodes: seq<int>, ghost arcs: seq<int>, ghost flow: int)
      returns (stop: bool, count': int, ghost blk': seq<bool>, ghost nodes': seq<int>, ghost arcs': seq<int>)
      requires I.N == net && I.Valid() && Held(uf, count, sat, blk, nodes, arcs) && Walk(I, D, sat, blk, nodes, arcs, flow)
      requires x == nodes[count] && forall j :: 0 <= j < |net.outArcs[x]| ==> isBlocked[net.outArcs[x][j]]
      modifies isBlocked
      ensures Held(uf, count', sat, blk', nodes', arcs') && Walk(I, D, sat, blk', nodes', arcs', flow)
      ensures stop ==> count' == 0 && nodes' == [D.f] && arcs' == [] && forall j :: 0 <= j < |net.outArcs[D.f]| ==> isBlocked[net.outArcs[D.f][j]]
      ensures !stop ==> Unblocked(blk') < Unblocked(blk)
    {
      if count == 0 {
        assert nodes == [D.f] && arcs == [];
        return true, count, blk, nodes, arcs;
      }
      stop, count' := false, count - 1;
      blk', nodes', arcs' := Retreat(uf, I, count, x, D, sat, blk, nodes, arcs, flow);
    }

    /**
     * `--current_path_arc_count` and block the arc dropped from the path,
     * when every out-arc of its end `x` is blocked.
     */
    method Retreat(uf: UnitFlow, ghost I: Instance, count: int, x: int, ghost D: Seed, ghost sat: seq<bool>, ghost blk: seq<bool>,
                   ghost nodes: seq<int>, ghost arcs: seq<int>, ghost flow: int)
      returns (ghost blk': seq<bool>, ghost nodes': seq<int>, ghost arcs': seq<int>)
      requires I.N == net && I.Valid() && Held(uf, count, sat, blk, nodes, arcs) && Walk(I, D, sat, blk, nodes, arcs, flow) && count > 0
      requires x == nodes[count] && forall j :: 0 <= j < |net.outArcs[x]| ==> isBlocked[net.outArcs[x][j]]
      modifies isBlocked
      ensures Held(uf, count - 1, sat, blk', nodes', arcs') && Walk(I, D, sat, blk', nodes', arcs', flow)
      ensures Unblocked(blk') < Unblocked(blk)
    {
      blk', nodes', arcs' := blk[arcs[count - 1] := true], nodes[..count], arcs[..count - 1];
      WalkRetreat(I, D, sat, blk, nodes, arcs, flow, blk', nodes', arcs');
      isBlocked[pathArc[count - 1]] := true;
      assert pathArc[..count - 1] == arcs';
    }

    /**
     * Append the unblocked out-arc `xy` of the end `x` of the path; if its
     * head is a target, augment along the path, count one more path, and
     * restart at the seed (`hit`).
     */
    method ExtendOrAugment(tgt: array<bool>, uf: UnitFlow, ghost I: Instance, i: int, count: int, x: int, xy: int, ghost D: Seed,
                           ghost sat: seq<bool>, ghost blk: seq<bool>, ghost nodes: seq<int>, ghost arcs: seq<int>, ghost flow: int)
      returns (count': int, hit: bool, ghost sat': seq<bool>, ghost blk': seq<bool>, ghost nodes': seq<int>, ghost arcs': seq<int>, ghost flow': int)
      requires I.N == net && I.Valid() && tgt.Length == net.NodeCount() && tgt[..] == I.tgt && tgt != isBlocked
      requires uf.flow.Length == net.ArcCount()
      requires Held(uf, count, sat, blk, nodes, arcs) && Walk(I, D, sat, blk, nodes, arcs, flow)
      requires 0 <= i < |I.front| && I.front[i] == D.f
      requires x == nodes[count] && 0 <= xy < net.ArcCount() && net.tail[xy] == x && !isBlocked[xy]
      modifies uf.flow, isBlocked, pathNode, pathArc
      ensures Held(uf, count', sat', blk', nodes', arcs') && Walk(I, D, sat', blk', nodes', arcs', flow')
      ensures flow' == flow + (if hit then 1 else 0)
      ensures Unblocked(blk') < Unblocked(blk) || (blk' == blk && count' == count + 1)
    {
      WalkExtend(I, D, sat, blk, nodes, arcs, flow, xy);
      var y := Extend(uf, count, xy, sat, blk, nodes, arcs);
      count' := count + 1;
      hit := tgt[y];
      if hit {
        ghost var p := arcs + [xy];
        WalkAugmentClean(I, D, sat, blk, nodes, arcs, flow, xy);
        sat', blk', nodes', arcs', flow' := PushAll(net, sat, p), BlockAll(blk, p), [D.f], [], flow + 1;
        WalkAugment(I, D, sat, blk, nodes, arcs, flow, xy, i, p, sat', blk');
        Augment(uf, count', sat, blk, nodes + [y], p, D.f, net.head[xy]);
        count' := 0;
      } else {
        sat', blk', nodes', arcs', flow' := sat, blk, nodes + [y], arcs + [xy], flow;
      }
    }

    /** Append the arc `xy` and its head `y` to the path of `count` arcs. */
    method Extend(uf: UnitFlow, count: int, xy: int, ghost sat: seq<bool>, ghost blk: seq<bool>, ghost nodes: seq<int>, ghost arcs: seq<int>)
      returns (y: int)
      requires Held(uf, count, sat, blk, nodes, arcs) && count + 1 < pathNode.Length && 0 <= xy < net.ArcCount()
      modifies pathNode, pathArc
      ensures y == net.head[xy] && Held(uf, count + 1, sat, blk, nodes + [y], arcs + [xy])
    {
      y := net.head[xy];
      pathArc[count] := xy;
      pathNode[count + 1] := y;
      assert pathNode[..count + 2] == nodes + [y];
      assert pathArc[..count + 1] == arcs + [xy];
    }

    /**
     * An augmentation along the clean chain `p` from `f` to `t`: block each
     * of its arcs and `increase_flow` over it, which the flow allows since
     * each arc is still unsaturated when its turn comes; count one more unit
     * of flow and restart the path at `f`.
     */
    method Augment(uf: UnitFlow, count: int, ghost sat: seq<bool>, ghost blk: seq<bool>, ghost nodes: seq<int>, ghost p: seq<int>,
                   ghost f: int, ghost t: int)
      requires Held(uf, count, sat, blk, nodes, p) && nodes[0] == f
      requires Chain(net, p, f, t) && Clean(net, sat, p) && NoAntiparallel(net, sat)
      modifies uf.flow, isBlocked
      ensures Held(uf, 0, PushAll(net, sat, p), BlockAll(blk, p), [f], [])
    {
      var k := 0;
      while k < count
        invariant 0 <= k <= count && uf.flow.Length == net.ArcCount()
        invariant AugmentedTo(net, sat, blk, p, k, uf.flow[..], isBlocked[..])
        modifies uf.flow, isBlocked
      {
        assert pathArc[k] == p[k];
        AugmentArc(uf, pathArc[k], k, sat, blk, p, f, t);
        k := k + 1;
      }
      AugmentedAll(net, sat, blk, p, uf.flow[..], isBlocked[..]);
      assert pathNode[..1] == [f];
    }

    /** One step of the augmentation: block the arc `a`, which is `p[k]`, and `increase_flow(a)`. */
    method AugmentArc(uf: UnitFlow, a: int, k: int, ghost sat: seq<bool>, ghost blk: seq<bool>, ghost p: seq<int>, ghost f: int, ghost t: int)
      requires Shape() && uf.flow.Length == net.ArcCount() && 0 <= k < |p| && a == p[k]
      requires AugmentedTo(net, sat, blk, p, k, uf.flow[..], isBlocked[..])
      requires Chain(net, p, f, t) && Clean(net, sat, p) && NoAntiparallel(net, sat)
      modifies uf.flow, isBlocked
      ensures AugmentedTo(net, sat, blk, p, k + 1, uf.flow[..], isBlocked[..])
    {
      AugmentNext(net, sat, blk, p, f, t, k, uf.flow[..], isBlocked[..]);
      isBlocked[a] := true;
      uf.Increase(net, a);
    }

    /**
     * What `advance` needs and keeps: the arrays fit and are apart, the node
     * sets are valid, the extra nodes of the source set are distinct nodes
     * inside it, and the flow is valid and conserved with value `F`.
     */
    ghost predicate Ready(S: AssimilatedNodeSet, T: AssimilatedNodeSet, R: ReachableNodeSet, uf: UnitFlow, F: int)
      reads S.nodeSet, S.nodeSet.insideFlag, T.nodeSet.insideFlag, R.nodeSet, R.nodeSet.insideFlag, uf.flow
    {
      && Shape() && Apart(S.nodeSet.insideFlag, T.nodeSet.insideFlag, R.nodeSet, uf)
      && S.nodeSet.Valid() && R.nodeSet.Valid() && S.nodeSet != R.nodeSet
      && Distinct(S.nodeSet.extraNodes) && InRange(S.nodeSet.extraNodes, net.NodeCount()) && S.nodeSet.extraNodes != []
      && (forall k :: 0 <= k < |S.nodeSet.extraNodes| ==> S.nodeSet.insideFlag[S.nodeSet.extraNodes[k]])
      && FlowOk(net, uf.flow[..]) && Conserved(net, SatOf(uf.flow[..]), S.nodeSet.insideFlag[..], T.nodeSet.insideFlag[..], F)
    }

    /** No augmenting path is left: `Exhausted` for the flow, the sets and the reachable set. */
    ghost predicate Maximal(S: AssimilatedNodeSet, T: AssimilatedNodeSet, R: ReachableNodeSet, uf: UnitFlow)
      reads S.nodeSet, S.nodeSet.insideFlag, T.nodeSet.insideFlag, R.nodeSet.insideFlag, uf.flow
    {
      && Shape() && Apart(S.nodeSet.insideFlag, T.nodeSet.insideFlag, R.nodeSet, uf)
      && Exhausted(net, SatOf(uf.flow[..]), S.nodeSet.insideFlag[..], T.nodeSet.insideFlag[..], S.nodeSet.extraNodes, R.nodeSet.insideFlag[..])
    }

    /**
     * `advance(...)`: unless finished, compute the level graph; if it
     * reaches a target, augment a blocking flow and return the number of
     * paths augmented, at least one; otherwise set finished and return 0,
     * leaving the flow as it is: then the reachable set is the source set
     * with every node found, and no unsaturated arc leaves it except from
     * sources that are no seeds, so no augmenting path exists.
     */
    method Advance(S: AssimilatedNodeSet, T: AssimilatedNodeSet, R: ReachableNodeSet, uf: UnitFlow, ghost F0: int)
      returns (augmented: int)
      requires Ready(S, T, R, uf, F0 + flowIntensity)
      modifies this`flowIntensity, this`finished, isBlocked, level, queue, pathNode, pathArc, uf.flow
      modifies R.nodeSet`lastGrowIndex, R.nodeSet`nodeCountInside, R.nodeSet`extraNodes, R.nodeSet.insideFlag
      ensures augmented >= 0 && flowIntensity == old(flowIntensity) + augmented && (finished <==> augmented == 0)
      ensures Ready(S, T, R, uf, F0 + flowIntensity)
      ensures augmented == 0 ==> uf.flow[..] == old(uf.flow[..])
      ensures !old(finished) && finished ==> Maximal(S, T, R, uf)
    {
      ghost var I := Instance(net, S.nodeSet.insideFlag[..], T.nodeSet.insideFlag[..], S.nodeSet.extraNodes);
      if finished {
        return 0;
      }
      augmented := Round(S, T, R, uf, I, F0 + flowIntensity);
      finished := augmented == 0;
      assert I.src == S.nodeSet.insideFlag[..] && I.tgt == T.nodeSet.insideFlag[..] && I.front == S.nodeSet.extraNodes;
    }

    /**
     * The unfinished case of `advance`: the search, then, if it reached a
     * target, the augmentation, which augments at least one path; if it did
     * not, the flow is left as it is and the search is exhausted.
     */
    method Round(S: AssimilatedNodeSet, T: AssimilatedNodeSet, R: ReachableNodeSet, uf: UnitFlow, ghost I: Instance, ghost F: int)
      returns (augmented: int)
      requires Shape() && Apart(S.nodeSet.insideFlag, T.nodeSet.insideFlag, R.nodeSet, uf)
      requires S.nodeSet.Valid() && R.nodeSet.Valid() && S.nodeSet != R.nodeSet
      requires Binds(I, S.nodeSet.insideFlag, T.nodeSet.insideFlag) && I.front == S.nodeSet.extraNodes != []
      requires FlowOk(net, uf.flow[..]) && Conserved(net, SatOf(uf.flow[..]), I.src, I.tgt, F)
      modifies this`flowIntensity, isBlocked, level, queue, pathNode, pathArc, uf.flow
      modifies R.nodeSet`lastGrowIndex, R.nodeSet`nodeCountInside, R.nodeSet`extraNodes, R.nodeSet.insideFlag
      ensures augmented >= 0 && flowIntensity == old(flowIntensity) + augmented
      ensures FlowOk(net, uf.flow[..]) && Conserved(net, SatOf(uf.flow[..]), I.src, I.tgt, F + augmented) && R.nodeSet.Valid()
      ensures augmented == 0 ==> uf.flow[..] == old(uf.flow[..]) && Exhausted(net, SatOf(uf.flow[..]), I.src, I.tgt, I.front, R.nodeSet.insideFlag[..])
    {
      var reached;
      ghost var Srch;
      reached, Srch := ComputeBlockingFlow(S, T, R, uf, I);
      if reached {
        augmented := AugmentAllNonBlockedPath(T.nodeSet.insideFlag, uf, S.nodeSet.extraNodes, I, Srch, F);
      } else {
        DoneExhausted(I, SatOf(uf.flow[..]), Srch, R.nodeSet.insideFlag[..]);
        augmented := 0;
      }
    }

    /**
     * `run(...)`: the source set must have extra nodes. From flow 0, advance
     * until finished and return the flow intensity: the number of paths
     * augmented, by which the flow value grew; the flow is maximum, as
     * `Exhausted` states for the last search.
     */
    method Run(S: AssimilatedNodeSet, T: AssimilatedNodeSet, R: ReachableNodeSet, uf: UnitFlow, ghost F0: int)
      returns (total: int)
      requires Ready(S, T, R, uf, F0)
      modifies this`flowIntensity, this`finished, isBlocked, level, queue, pathNode, pathArc, uf.flow
      modifies R.nodeSet`lastGrowIndex, R.nodeSet`nodeCountInside, R.nodeSet`extraNodes, R.nodeSet.insideFlag
      ensures total == flowIntensity && Running(S, T, R, uf, F0, true)
    {
      flowIntensity := 0;
      finished := false;
      var done := false;
      while !done
        invariant Running(S, T, R, uf, F0, done)
        decreases !done, OutDegrees(net, net.NodeCount()) - (F0 + flowIntensity)
      {
        done := Step(S, T, R, uf, F0);
      }
      total := flowIntensity;
    }

    /** The state between two calls of `advance` in `run`. */
    ghost predicate Running(S: AssimilatedNodeSet, T: AssimilatedNodeSet, R: ReachableNodeSet, uf: UnitFlow, F0: int, done: bool)
      reads this, S.nodeSet, S.nodeSet.insideFlag, T.nodeSet.insideFlag, R.nodeSet, R.nodeSet.insideFlag, uf.flow
    {
      && flowIntensity >= 0 && Ready(S, T, R, uf, F0 + flowIntensity) && (finished <==> done)
      && (done ==> Maximal(S, T, R, uf))
    }

    /** One `advance` of `run`'s loop, which augments when it does not finish. */
    method Step(S: AssimilatedNodeSet, T: AssimilatedNodeSet, R: ReachableNodeSet, uf: UnitFlow, ghost F0: int)
      returns (done: bool)
      requires Running(S, T, R, uf, F0, false)
      modifies this`flowIntensity, this`finished, isBlocked, level, queue, pathNode, pathArc, uf.flow
      modifies R.nodeSet`lastGrowIndex, R.nodeSet`nodeCountInside, R.nodeSet`extraNodes, R.nodeSet.insideFlag
      ensures Running(S, T, R, uf, F0, done)
      ensures F0 + old(flowIntensity) <= OutDegrees(net, net.NodeCount())
      ensures !done ==> old(flowIntensity) < flowIntensity
    {
      ReadyBound(S, T, R, uf, F0 + flowIntensity);
      var got := Advance(S, T, R, uf, F0);
      done := finished;
    }

    /** A conserved flow is bounded by the out-degree sum. */
    lemma ReadyBound(S: AssimilatedNodeSet, T: AssimilatedNodeSet, R: ReachableNodeSet, uf: UnitFlow, F: int)
      requires Ready(S, T, R, uf, F)
      ensures F <= OutDegrees(net, net.NodeCount())
    {
      ConservedBound(net, SatOf(uf.flow[..]), S.nodeSet.insideFlag[..], T.nodeSet.insideFlag[..], F);
    }
  }
}
