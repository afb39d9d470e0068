/**
 * `UnitDinicAlgo` of src/dinic.h: unit-capacity max flow from a set of
 * sources to a set of targets, one blocking flow per `advance`. Each phase
 * builds the level graph by a breadth-first search from the source front and
 * then augments along unblocked paths with a depth-first search, as the
 * module `LevelGraph` describes.
 *
 * The search state is kept as a ghost `Search` value that the arrays mirror.
 */
module Dinic {
  import opened Graph
  import opened FlowNetwork
  import opened FordFulkerson
  import opened LevelGraph

  /** Augmenting over one more arc of `p` pushes a unit over it and blocks it. */
  lemma PushBlockStep(N: Network, sat: seq<bool>, blk: seq<bool>, p: seq<int>, k: int)
    requires N.Valid() && |sat| == |blk| == N.ArcCount() && 0 <= k < |p|
    requires forall j :: 0 <= j < |p| ==> 0 <= p[j] < N.ArcCount()
    ensures PushAll(N, sat, p[..k + 1]) == PushUnit(N, PushAll(N, sat, p[..k]), p[k])
    ensures BlockAll(blk, p[..k + 1]) == BlockAll(blk, p[..k])[p[k] := true]
  {
    assert p[..k + 1][..k] == p[..k];
  }

  class UnitDinicAlgo {
    const net: Network
    const sourceList: seq<int>
    const sourceFront: seq<int>
    const isSource: seq<bool>
    const isTarget: seq<bool>
    const isSaturated: array<bool>
    const isBlocked: array<bool>
    const queue: array<int>
    const wasPushed: array<bool>
    /** `is_on_same_level_or_lower`. */
    const level: array<bool>
    const pathNode: array<int>
    const pathArc: array<int>
    var flowIntensity: int
    var numReachable: int
    var finished: bool
    /** The breadth-first search of the current phase. */
    ghost var search: Search

    ghost function Inst(): Instance
    {
      Instance(net, isSource, isTarget, sourceFront)
    }

    /** The sizes of the arrays, which of them are distinct, and the source front. */
    ghost predicate Shape()
    {
      && Inst().Valid()
      && isSaturated.Length == isBlocked.Length == net.ArcCount()
      && queue.Length == wasPushed.Length == level.Length == pathNode.Length == pathArc.Length == net.NodeCount()
      && isSaturated != isBlocked && isSaturated != wasPushed && isSaturated != level
      && isBlocked != wasPushed && isBlocked != level && wasPushed != level
      && queue != pathNode && queue != pathArc && pathNode != pathArc
    }

    /** What `verify_flow_conservation` asserts between calls. */
    ghost predicate Valid()
      reads this`flowIntensity, isSaturated
    {
      && Shape()
      && Conserved(net, isSaturated[..], isSource, isTarget, flowIntensity)
    }

    /** The arrays of the breadth-first search hold the search state `S`. */
    ghost predicate MirrorsOf(S: Search)
      reads isBlocked, wasPushed, queue
    {
      && |S.queue| <= queue.Length && queue[..|S.queue|] == S.queue
      && isBlocked[..] == S.blocked && wasPushed[..] == S.pushed
    }

    /**
     * `UnitDinicAlgo(...)`: the target flags from the target list, no arc
     * saturated, flow 0. The path arrays have one slot per node, so that the
     * empty graph allocates too.
     */
    constructor (net: Network, sourceList: seq<int>, targetList: seq<int>, isSource: seq<bool>, sourceFront: seq<int>)
      requires net.Valid() && |isSource| == net.NodeCount()
      requires InRange(targetList, net.NodeCount()) && InRange(sourceFront, net.NodeCount()) && Distinct(sourceFront)
      requires forall k :: 0 <= k < |sourceFront| ==> isSource[sourceFront[k]]
      ensures Valid()
      ensures this.net == net && this.sourceList == sourceList && this.sourceFront == sourceFront && this.isSource == isSource
      ensures fresh(isSaturated) && fresh(isBlocked) && fresh(queue) && fresh(wasPushed) && fresh(level)
      ensures fresh(pathNode) && fresh(pathArc)
      ensures forall u :: 0 <= u < net.NodeCount() ==> (isTarget[u] <==> u in targetList)
      ensures forall a :: 0 <= a < net.ArcCount() ==> !isSaturated[a]
      ensures flowIntensity == 0 && numReachable == 0 && !finished
    {
      var n := net.NodeCount();
      var target := new bool[n](_ => false);
      var i := 0;
      while i < |targetList|
        invariant 0 <= i <= |targetList|
        invariant forall u :: 0 <= u < n ==> (target[u] <==> u in targetList[..i])
      {
        target[targetList[i]] := true;
        assert targetList[..i + 1] == targetList[..i] + [targetList[i]];
        i := i + 1;
      }
      assert targetList[..i] == targetList;
      this.net := net;
      this.sourceList := sourceList;
      this.sourceFront := sourceFront;
      this.isSource := isSource;
      isTarget := target[..];
      isSaturated := new bool[net.ArcCount()](_ => false);
      isBlocked := new bool[net.ArcCount()](_ => false);
      queue := new int[n](_ => 0);
      wasPushed := new bool[n](_ => false);
      level := new bool[n](_ => false);
      pathNode := new int[n](_ => 0);
      pathArc := new int[n](_ => 0);
      flowIntensity := 0;
      numReachable := 0;
      finished := false;
      new;
      ZeroConserved(net, isSaturated[..], isSource, isTarget);
    }

    /**
     * `compute_blocking_flow()`: the breadth-first search from the source
     * front, level by level. It returns whether a target is adjacent to a
     * queued node over an unsaturated arc; the blocked flags, the pushed
     * flags and the queue are those of the finished search, the level flags
     * are the sources and the pushed nodes, and `numReachable` counts the
     * sources and the pushed nodes.
     */
    method ComputeBlockingFlow() returns (r: bool)
      requires Valid()
      modifies this`numReachable, this`search, isBlocked, level, queue, wasPushed
      ensures Done(Inst(), isSaturated[..], search) && MirrorsOf(search) && r == search.reached
      ensures forall u :: 0 <= u < net.NodeCount() ==> (level[u] <==> isSource[u] || search.pushed[u])
      ensures numReachable == |sourceList| + |search.queue| - |sourceFront|
    {
      ghost var sat := isSaturated[..];
      ghost var S := ResetSearch();
      StartOk(Inst(), sat);
      ghost var ell;
      r, S, ell := ScanLevels(sat, S);
      SearchDone(Inst(), sat, S, ell);
      MarkedAll(Inst(), sat, S, level[..], ell);
      search := S;
    }

    /** The outer loop of `compute_blocking_flow`, one level per round, until no node is left to scan. */
    method ScanLevels(ghost sat: seq<bool>, ghost S0: Search) returns (r: bool, ghost S: Search, ghost ell: int)
      requires Shape() && isSaturated[..] == sat && S0 == Start(Inst())
      requires BfsAt(Inst(), sat, S0, 0, |sourceFront|, 0, 0, 0)
      requires MirrorsOf(S0) && Marked(Inst(), S0, level[..], -1) && numReachable == |sourceList|
      modifies this`numReachable, isBlocked, level, queue, wasPushed
      ensures BfsAt(Inst(), sat, S, |S.queue|, |S.queue|, ell, |S.queue|, 0)
      ensures MirrorsOf(S) && Marked(Inst(), S, level[..], ell - 1) && r == S.reached
      ensures numReachable == |sourceList| + |S.queue| - |sourceFront|
    {
      var n := net.NodeCount();
      ghost var I := Inst();
      r, S, ell := false, S0, 0;
      var begin := 0;
      var end := |sourceFront|;
      var levelEnd := end;
      while begin != end
        invariant isSaturated[..] == sat
        invariant BfsAt(I, sat, S, begin, levelEnd, ell, begin, 0) && levelEnd == end == |S.queue|
        invariant MirrorsOf(S) && Marked(I, S, level[..], ell - 1) && r == S.reached
        invariant numReachable == |sourceList| + |S.queue| - |sourceFront|
        decreases n - begin
      {
        r, end, S := ScanOneLevel(begin, levelEnd, ell, r, end, sat, S);
        CountBound(S.queue, n);
        begin := levelEnd;
        levelEnd := end;
        ell := ell + 1;
      }
    }

    /** The start of `compute_blocking_flow`: nothing blocked or pushed, the sources on level 0, the front queued. */
    method ResetSearch() returns (ghost S: Search)
      requires Shape()
      modifies this`numReachable, isBlocked, level, queue, wasPushed
      ensures S == Start(Inst()) && MirrorsOf(S) && level[..] == isSource && numReachable == |sourceList|
    {
      var n := net.NodeCount();
      forall a | 0 <= a < isBlocked.Length {
        isBlocked[a] := false;
      }
      forall u | 0 <= u < n {
        level[u] := isSource[u];
      }
      numReachable := |sourceList|;
      forall u | 0 <= u < n {
        wasPushed[u] := false;
      }
      CountBound(sourceFront, n);
      forall k | 0 <= k < |sourceFront| {
        queue[k] := sourceFront[k];
      }
      S := Start(Inst());
      assert queue[..|sourceFront|] == sourceFront;
    }

    /** One round of the outer loop: mark the level `begin..levelEnd-1`, then scan it. */
    method ScanOneLevel(begin: int, levelEnd: int, ghost ell: int, r: bool, end: int, ghost sat: seq<bool>, ghost S: Search)
      returns (r': bool, end': int, ghost S': Search)
      requires Shape() && isSaturated[..] == sat && begin < levelEnd
      requires BfsAt(Inst(), sat, S, begin, levelEnd, ell, begin, 0) && levelEnd == end == |S.queue|
      requires MirrorsOf(S) && Marked(Inst(), S, level[..], ell - 1) && r == S.reached
      requires numReachable == |sourceList| + |S.queue| - |sourceFront|
      modifies this`numReachable, isBlocked, level, queue, wasPushed
      ensures BfsAt(Inst(), sat, S', levelEnd, end', ell + 1, levelEnd, 0) && end' == |S'.queue|
      ensures MirrorsOf(S') && Marked(Inst(), S', level[..], ell) && r' == S'.reached
      ensures numReachable == |sourceList| + |S'.queue| - |sourceFront|
    {
      ghost var I := Inst();
      MarkStart(I, sat, S, level[..], begin, levelEnd, ell);
      MarkLevel(begin, levelEnd, ell, S);
      MarkEnd(I, sat, S, level[..], begin, levelEnd, ell);
      r', end', S' := ScanLevel(begin, levelEnd, ell, r, end, sat, level[..], S);
      LevelDone(I, sat, S', begin, levelEnd, ell);
    }

    /** The first loop of a level: flag its queue entries `begin..levelEnd-1` as on the same level or lower. */
    method MarkLevel(begin: int, levelEnd: int, ghost ell: int, ghost S: Search)
      requires Shape() && |S.depth| == |S.pushed| == net.NodeCount() && InRange(S.queue, net.NodeCount())
      requires 0 <= begin <= levelEnd <= |S.queue| <= queue.Length && queue[..|S.queue|] == S.queue
      requires Marking(Inst(), S, level[..], ell, begin, begin)
      modifies level
      ensures Marking(Inst(), S, level[..], ell, begin, levelEnd)
    {
      ghost var I := Inst();
      var i := begin;
      while i < levelEnd
        invariant begin <= i <= levelEnd && Marking(I, S, level[..], ell, begin, i)
      {
        assert queue[i] == S.queue[i];
        MarkStep(I, S, level[..], ell, begin, i);
        level[queue[i]] := true;
        i := i + 1;
      }
    }

    /** The second loop of a level: scan the out-arcs of each of its queue entries. */
    method ScanLevel(begin: int, levelEnd: int, ghost ell: int, r: bool, end: int, ghost sat: seq<bool>, ghost lv: seq<bool>, ghost S: Search)
      returns (r': bool, end': int, ghost S': Search)
      requires Shape() && isSaturated[..] == sat && level[..] == lv
      requires BfsAt(Inst(), sat, S, begin, levelEnd, ell, begin, 0)
      requires MirrorsOf(S) && Marked(Inst(), S, lv, ell) && r == S.reached && end == |S.queue|
      requires numReachable == |sourceList| + |S.queue| - |sourceFront|
      modifies this`numReachable, isBlocked, queue, wasPushed
      ensures BfsAt(Inst(), sat, S', begin, levelEnd, ell, levelEnd, 0)
      ensures MirrorsOf(S') && Marked(Inst(), S', lv, ell) && r' == S'.reached && end' == |S'.queue|
      ensures numReachable == |sourceList| + |S'.queue| - |sourceFront|
    {
      r', end', S' := r, end, S;
      var i := begin;
      while i < levelEnd
        invariant begin <= i <= levelEnd && BfsAt(Inst(), sat, S', begin, levelEnd, ell, i, 0)
        invariant MirrorsOf(S') && Marked(Inst(), S', lv, ell) && r' == S'.reached && end' == |S'.queue|
        invariant numReachable == |sourceList| + |S'.queue| - |sourceFront|
      {
        r', end', S' := ScanNode(begin, levelEnd, ell, i, r', end', sat, lv, S');
        i := i + 1;
      }
    }

    /** `for(auto xy:inv_tail(x))` for the queue entry `i`. */
    method ScanNode(begin: int, levelEnd: int, ghost ell: int, i: int, r: bool, end: int, ghost sat: seq<bool>, ghost lv: seq<bool>, ghost S: Search)
      returns (r': bool, end': int, ghost S': Search)
      requires Shape() && isSaturated[..] == sat && level[..] == lv
      requires BfsAt(Inst(), sat, S, begin, levelEnd, ell, i, 0) && i < levelEnd
      requires MirrorsOf(S) && Marked(Inst(), S, lv, ell) && r == S.reached && end == |S.queue|
      requires numReachable == |sourceList| + |S.queue| - |sourceFront|
      modifies this`numReachable, isBlocked, queue, wasPushed
      ensures BfsAt(Inst(), sat, S', begin, levelEnd, ell, i + 1, 0)
      ensures MirrorsOf(S') && Marked(Inst(), S', lv, ell) && r' == S'.reached && end' == |S'.queue|
      ensures numReachable == |sourceList| + |S'.queue| - |sourceFront|
    {
      ghost var I := Inst();
      r', end', S' := r, end, S;
      assert queue[i] == S.queue[i];
      var x := queue[i];
      var j := 0;
      while j < |net.outArcs[x]|
        invariant 0 <= j <= |net.outArcs[x]| && i < |S'.queue| && x == S'.queue[i]
        invariant BfsAt(I, sat, S', begin, levelEnd, ell, i, j)
        invariant MirrorsOf(S') && Marked(I, S', lv, ell) && r' == S'.reached && end' == |S'.queue|
        invariant numReachable == |sourceList| + |S'.queue| - |sourceFront|
      {
        ScanArcStep(I, sat, S', begin, levelEnd, ell, i, j);
        ReadyAt(I, sat, S', begin, levelEnd, ell, i, j);
        ScanMarked(I, sat, S', lv, net.outArcs[x][j], ell);
        r', end', S' := ScanArcAt(ell, i, j, r', end', sat, lv, S');
        j := j + 1;
      }
      NodeDone(I, sat, S', begin, levelEnd, ell, i);
    }

    /** The body of the scan for the arc `xy`, out-arc `j` of the queue entry `i`. */
    method ScanArcAt(ghost ell: int, i: int, j: int, r: bool, end: int, ghost sat: seq<bool>, ghost lv: seq<bool>, ghost S: Search)
      returns (r': bool, end': int, ghost S': Search)
      requires Shape() && isSaturated[..] == sat && level[..] == lv && ScanReady(Inst(), sat, S, ell, i, j)
      requires MirrorsOf(S) && Marked(Inst(), S, lv, ell) && r == S.reached && end == |S.queue|
      requires numReachable == |sourceList| + |S.queue| - |sourceFront|
      modifies this`numReachable, isBlocked, queue, wasPushed
      ensures S' == ScanArc(Inst(), sat, S, net.outArcs[S.queue[i]][j], ell)
      ensures |S.queue| <= |S'.queue| && S'.queue[i] == S.queue[i]
      ensures MirrorsOf(S') && r' == S'.reached && end' == |S'.queue|
      ensures numReachable == |sourceList| + |S'.queue| - |sourceFront|
    {
      ghost var I := Inst();
      r', end' := r, end;
      assert queue[i] == S.queue[i];
      var x := queue[i];
      var xy := net.outArcs[x][j];
      S' := ScanArc(I, sat, S, xy, ell);
      if isSaturated[xy] {
        isBlocked[xy] := true;
      } else {
        var y := net.head[xy];
        if level[y] {
          isBlocked[xy] := true;
        } else if isTarget[y] {
          r' := true;
        } else if !wasPushed[y] {
          PushFresh(I, S, y);
          MissingBound(S.queue, net.NodeCount(), y);
          numReachable := numReachable + 1;
          queue[end'] := y;
          end' := end' + 1;
          wasPushed[y] := true;
          assert queue[..|S'.queue|] == S'.queue;
        }
      }
    }

    /** `find_first_non_block_out_arc(x)`: the first unblocked out-arc of `x`, or -1 if all are blocked. */
    method FindFirstNonBlockOutArc(x: int) returns (xy: int)
      requires Shape() && 0 <= x < net.NodeCount()
      ensures xy == -1 ==> forall j :: 0 <= j < |net.outArcs[x]| ==> isBlocked[net.outArcs[x][j]]
      ensures xy != -1 ==> 0 <= xy < net.ArcCount() && net.tail[xy] == x && !isBlocked[xy]
      ensures xy != -1 ==> exists j :: (0 <= j < |net.outArcs[x]| && net.outArcs[x][j] == xy
        && forall k :: 0 <= k < j ==> isBlocked[net.outArcs[x][k]])
    {
      var j := 0;
      while j < |net.outArcs[x]|
        invariant 0 <= j <= |net.outArcs[x]|
        invariant forall k :: 0 <= k < j ==> isBlocked[net.outArcs[x][k]]
      {
        if !isBlocked[net.outArcs[x][j]] {
          return net.outArcs[x][j];
        }
        j := j + 1;
      }
      return -1;
    }

    /**
     * `augment_all_non_blocked_path()`: a depth-first search from each seed
     * in turn over unblocked arcs. Flow stays conserved, the phase state over
     * the search is kept, afterwards every out-arc of a seed is blocked, and
     * if the search reached a target at least one unit was augmented.
     */
    method AugmentAllNonBlockedPath()
      requires Valid() && Done(Inst(), isSaturated[..], search) && isBlocked[..] == search.blocked
      modifies this`flowIntensity, isSaturated, isBlocked, pathNode, pathArc
      ensures Valid() && flowIntensity >= old(flowIntensity)
      ensures search.reached ==> flowIntensity > old(flowIntensity)
      ensures Phase(Inst(), old(isSaturated[..]), search, isSaturated[..], isBlocked[..])
      ensures forall k, j :: 0 <= k < |sourceFront| && 0 <= j < |net.outArcs[sourceFront[k]]| ==> isBlocked[net.outArcs[sourceFront[k]][j]]
    {
      ghost var I := Inst();
      ghost var sat0 := isSaturated[..];
      ghost var S := search;
      ghost var sat, blk := sat0, isBlocked[..];
      PhaseStart(I, sat0, S);
      ghost var W := [];
      if S.reached {
        W := LevelPath(I, sat0, S, net.tail[S.hit]) + [S.hit];
        DoneWitness(I, sat0, S);
      }
      var i := 0;
      while i < |sourceFront|
        invariant 0 <= i <= |sourceFront|
        invariant Shape() && isSaturated[..] == sat && isBlocked[..] == blk
        invariant Conserved(net, sat, isSource, isTarget, flowIntensity) && Phase(I, sat0, S, sat, blk)
        invariant flowIntensity >= old(flowIntensity)
        invariant S.reached && flowIntensity == old(flowIntensity) ==>
          Witness(I, blk, W) && forall k :: 0 <= k < i ==> sourceFront[k] != net.tail[W[0]]
        invariant forall k, j :: 0 <= k < i && 0 <= j < |I.N.outArcs[I.front[k]]| ==> blk[I.N.outArcs[I.front[k]][j]]
      {
        ghost var live, blk1 := S.reached && flowIntensity == old(flowIntensity), blk;
        sat, blk := DfsFrom(i, sat0, S, W, live, sat, blk);
        SeedsBlocked(I, blk1, blk, i);
        if S.reached && flowIntensity == old(flowIntensity) {
          assert live && net.tail[W[0]] != sourceFront[i];
        }
        i := i + 1;
      }
    }

    /** The path arrays hold the path `nodes`, `arcs` of `count` arcs, and the flag arrays hold `sat` and `blk`. */
    ghost predicate Held(count: int, sat: seq<bool>, blk: seq<bool>, nodes: seq<int>, arcs: seq<int>)
      reads isSaturated, isBlocked, pathNode, pathArc
    {
      && Shape() && isSaturated[..] == sat && isBlocked[..] == blk
      && 0 <= count == |arcs| < pathNode.Length && pathNode[..count + 1] == nodes && pathArc[..count] == arcs
    }

    /**
     * The `for(;;)` loop for the seed `i`: extend the path by the first
     * unblocked out-arc of its last node, augment and restart when that arc
     * enters a target, and retreat, blocking the last arc, when there is
     * none; stop when the seed itself has none. The flags go from `sat`,
     * `blk` to `sat'`, `blk'`.
     */
    method DfsFrom(i: int, ghost sat0: seq<bool>, ghost S: Search, ghost W: seq<int>, ghost live: bool, ghost sat: seq<bool>, ghost blk: seq<bool>)
      returns (ghost sat': seq<bool>, ghost blk': seq<bool>)
      requires Shape() && isSaturated[..] == sat && isBlocked[..] == blk && 0 <= i < |sourceFront|
      requires Phase(Inst(), sat0, S, sat, blk) && Conserved(net, sat, isSource, isTarget, flowIntensity)
      requires live ==> Witness(Inst(), blk, W)
      modifies this`flowIntensity, isSaturated, isBlocked, pathNode, pathArc
      ensures isSaturated[..] == sat' && isBlocked[..] == blk'
      ensures Phase(Inst(), sat0, S, sat', blk') && Conserved(net, sat', isSource, isTarget, flowIntensity)
      ensures flowIntensity >= old(flowIntensity) && forall e :: 0 <= e < |blk| && blk[e] ==> blk'[e]
      ensures forall j :: 0 <= j < |net.outArcs[sourceFront[i]]| ==> blk'[net.outArcs[sourceFront[i]][j]]
      ensures live && flowIntensity == old(flowIntensity) ==> Witness(Inst(), blk', W) && net.tail[W[0]] != sourceFront[i]
    {
      var f := sourceFront[i];
      pathNode[0] := f;
      ghost var D := Seed(sat0, S, f, blk, flowIntensity, W, live);
      WalkSeed(Inst(), D, sat, blk, flowIntensity, i);
      assert Held(0, sat, blk, [f], []);
      sat', blk' := DfsLoop(i, D, sat, blk, flowIntensity);
      WalkEnd(Inst(), D, sat0, S, blk, sat', blk', flowIntensity);
      if live && flowIntensity == old(flowIntensity) {
        WitnessStart(Inst(), blk', W, f);
      }
    }

    /** The `for(;;)` loop itself, from the path holding just the seed until the seed has no unblocked out-arc. */
    method DfsLoop(i: int, ghost D: Seed, ghost sat: seq<bool>, ghost blk: seq<bool>, ghost flow: int)
      returns (ghost sat': seq<bool>, ghost blk': seq<bool>)
      requires 0 <= i < |sourceFront| && sourceFront[i] == D.f
      requires Held(0, sat, blk, [D.f], []) && flowIntensity == flow && Walk(Inst(), D, sat, blk, [D.f], [], flow)
      modifies this`flowIntensity, isSaturated, isBlocked, pathNode, pathArc
      ensures Held(0, sat', blk', [D.f], []) && Walk(Inst(), D, sat', blk', [D.f], [], flowIntensity)
      ensures forall j :: 0 <= j < |net.outArcs[D.f]| ==> isBlocked[net.outArcs[D.f][j]]
    {
      var count := 0;
      ghost var nodes: seq<int> := [D.f];
      ghost var arcs: seq<int> := [];
      ghost var fl := flow;
      sat', blk' := sat, blk;
      while true
        invariant Held(count, sat', blk', nodes, arcs) && flowIntensity == fl
        invariant Walk(Inst(), D, sat', blk', nodes, arcs, fl)
        decreases Unblocked(blk'), pathNode.Length - count
      {
        var stop;
        stop, count, sat', blk', nodes, arcs, fl := DfsStep(i, count, D, sat', blk', nodes, arcs, fl);
        if stop {
          break;
        }
      }
    }

    /**
     * One turn of the `for(;;)` loop: stop when the seed has no unblocked
     * out-arc, retreat when the end of the path has none, else extend or augment.
     */
    method DfsStep(i: int, count: int, ghost D: Seed, ghost sat: seq<bool>, ghost blk: seq<bool>, ghost nodes: seq<int>, ghost arcs: seq<int>, ghost flow: int)
      returns (stop: bool, count': int, ghost sat': seq<bool>, ghost blk': seq<bool>, ghost nodes': seq<int>, ghost arcs': seq<int>, ghost flow': int)
      requires Held(count, sat, blk, nodes, arcs) && flowIntensity == flow && Walk(Inst(), D, sat, blk, nodes, arcs, flow)
      requires 0 <= i < |sourceFront| && sourceFront[i] == D.f
      modifies this`flowIntensity, isSaturated, isBlocked, pathNode, pathArc
      ensures Held(count', sat', blk', nodes', arcs') && flowIntensity == flow' && Walk(Inst(), D, sat', blk', nodes', arcs', flow')
      ensures stop ==> count' == 0 && forall j :: 0 <= j < |net.outArcs[D.f]| ==> isBlocked[net.outArcs[D.f][j]]
      ensures !stop ==> Unblocked(blk') < Unblocked(blk) || (blk' == blk && count' == count + 1)
    {
      assert pathNode[count] == nodes[count];
      var x := pathNode[count];
      var xy := FindFirstNonBlockOutArc(x);
      if xy == -1 {
        sat', flow' := sat, flow;
        stop, count', blk', nodes', arcs' := RetreatOrStop(count, x, D, sat, blk, nodes, arcs, flow);
      } else {
        stop := false;
        count', sat', blk', nodes', arcs', flow' := ExtendOrAugment(i, count, x, xy, D, sat, blk, nodes, arcs, flow);
      }
    }

    /** The end `x` of the path has no unblocked out-arc: stop if it is the seed, else retreat. */
    method RetreatOrStop(count: int, x: int, ghost D: Seed, ghost sat: seq<bool>, ghost blk: seq<bool>, ghost nodes: seq<int>, ghost arcs: seq<int>, ghost flow: int)
      returns (stop: bool, count': int, ghost blk': seq<bool>, ghost nodes': seq<int>, ghost arcs': seq<int>)
      requires Held(count, sat, blk, nodes, arcs) && Walk(Inst(), D, sat, blk, nodes, arcs, flow)
      requires x == nodes[count] && forall j :: 0 <= j < |net.outArcs[x]| ==> isBlocked[net.outArcs[x][j]]
      modifies isBlocked
      ensures Held(count', sat, blk', nodes', arcs') && Walk(Inst(), D, sat, blk', nodes', arcs', flow)
      ensures stop ==> count' == 0 && forall j :: 0 <= j < |net.outArcs[D.f]| ==> isBlocked[net.outArcs[D.f][j]]
      ensures !stop ==> Unblocked(blk') < Unblocked(blk)
    {
      if count == 0 {
        return true, count, blk, nodes, arcs;
      }
      stop, count' := false, count - 1;
      blk', nodes', arcs' := Retreat(count, x, D, sat, blk, nodes, arcs, flow);
    }

    /**
     * `--current_path_arc_count` and block the arc dropped from the path,
     * when every out-arc of its end `x` is blocked.
     */
    method Retreat(count: int, x: int, ghost D: Seed, ghost sat: seq<bool>, ghost blk: seq<bool>, ghost nodes: seq<int>, ghost arcs: seq<int>, ghost flow: int)
      returns (ghost blk': seq<bool>, ghost nodes': seq<int>, ghost arcs': seq<int>)
      requires Held(count, sat, blk, nodes, arcs) && Walk(Inst(), D, sat, blk, nodes, arcs, flow) && count > 0
      requires x == nodes[count] && forall j :: 0 <= j < |net.outArcs[x]| ==> isBlocked[net.outArcs[x][j]]
      modifies isBlocked
      ensures Held(count - 1, sat, blk', nodes', arcs') && Walk(Inst(), D, sat, blk', nodes', arcs', flow)
      ensures Unblocked(blk') < Unblocked(blk)
    {
      blk', nodes', arcs' := blk[arcs[count - 1] := true], nodes[..count], arcs[..count - 1];
      WalkRetreat(Inst(), D, sat, blk, nodes, arcs, flow, blk', nodes', arcs');
      isBlocked[pathArc[count - 1]] := true;
      assert pathArc[..count - 1] == arcs';
    }

    /**
     * Append the unblocked out-arc `xy` of the end `x` of the path; if its
     * head is a target, augment along the path and restart it at the seed.
     */
    method ExtendOrAugment(i: int, count: int, x: int, xy: int, ghost D: Seed,
                           ghost sat: seq<bool>, ghost blk: seq<bool>, ghost nodes: seq<int>, ghost arcs: seq<int>, ghost flow: int)
      returns (count': int, ghost sat': seq<bool>, ghost blk': seq<bool>, ghost nodes': seq<int>, ghost arcs': seq<int>, ghost flow': int)
      requires Held(count, sat, blk, nodes, arcs) && flowIntensity == flow && Walk(Inst(), D, sat, blk, nodes, arcs, flow)
      requires 0 <= i < |sourceFront| && sourceFront[i] == D.f
      requires x == nodes[count] && 0 <= xy < net.ArcCount() && net.tail[xy] == x && !isBlocked[xy]
      modifies this`flowIntensity, isSaturated, isBlocked, pathNode, pathArc
      ensures Held(count', sat', blk', nodes', arcs') && flowIntensity == flow' && Walk(Inst(), D, sat', blk', nodes', arcs', flow')
      ensures Unblocked(blk') < Unblocked(blk) || (blk' == blk && count' == count + 1)
    {
      WalkExtend(Inst(), D, sat, blk, nodes, arcs, flow, xy);
      var y := Extend(count, xy, sat, blk, nodes, arcs);
      count' := count + 1;
      if isTarget[y] {
        ghost var p := arcs + [xy];
        sat', blk', nodes', arcs', flow' := PushAll(net, sat, p), BlockAll(blk, p), [D.f], [], flow + 1;
        WalkAugment(Inst(), D, sat, blk, nodes, arcs, flow, xy, i, p, sat', blk');
        Augment(count', sat, blk, nodes + [y], p, D.f, flow);
        count' := 0;
      } else {
        sat', blk', nodes', arcs', flow' := sat, blk, nodes + [y], arcs + [xy], flow;
      }
    }

    /** Append the arc `xy` and its head `y` to the path of `count` arcs. */
    method Extend(count: int, xy: int, ghost sat: seq<bool>, ghost blk: seq<bool>, ghost nodes: seq<int>, ghost arcs: seq<int>) returns (y: int)
      requires Held(count, sat, blk, nodes, arcs) && count + 1 < pathNode.Length && 0 <= xy < net.ArcCount()
      modifies pathNode, pathArc
      ensures y == net.head[xy] && Held(count + 1, sat, blk, nodes + [y], arcs + [xy])
    {
      y := net.head[xy];
      pathArc[count] := xy;
      pathNode[count + 1] := y;
      assert pathNode[..count + 2] == nodes + [y];
      assert pathArc[..count + 1] == arcs + [xy];
    }

    /**
     * An augmentation along the path `p`: block each of its arcs and push a
     * unit over it, count one more unit of flow, and restart the path at its
     * first node `f`.
     */
    method Augment(count: int, ghost sat: seq<bool>, ghost blk: seq<bool>, ghost nodes: seq<int>, ghost p: seq<int>, ghost f: int, ghost flow: int)
      requires Held(count, sat, blk, nodes, p) && forall k :: 0 <= k < |p| ==> 0 <= p[k] < net.ArcCount()
      requires nodes[0] == f && flowIntensity == flow
      modifies this`flowIntensity, isSaturated, isBlocked
      ensures Held(0, PushAll(net, sat, p), BlockAll(blk, p), [f], []) && flowIntensity == flow + 1
    {
      flowIntensity := flowIntensity + 1;
      var k := 0;
      while k < count
        invariant 0 <= k <= count && flowIntensity == flow + 1
        invariant isSaturated[..] == PushAll(net, sat, p[..k])
        invariant isBlocked[..] == BlockAll(blk, p[..k])
      {
        var a := pathArc[k];
        assert a == p[k];
        PushBlockStep(net, sat, blk, p, k);
        PushArc(a);
        k := k + 1;
      }
      assert p[..k] == p;
      assert pathNode[..1] == [f];
    }

    /** Blocks the arc `a` and pushes a unit over it: its saturated back arc is cleared, or else `a` is saturated. */
    method PushArc(a: int)
      requires Shape() && 0 <= a < net.ArcCount()
      modifies isSaturated, isBlocked
      ensures isSaturated[..] == PushUnit(net, old(isSaturated[..]), a)
      ensures isBlocked[..] == old(isBlocked[..])[a := true]
    {
      isBlocked[a] := true;
      var b := net.back[a];
      if isSaturated[b] {
        isSaturated[b] := false;
      } else {
        isSaturated[a] := true;
      }
    }

    /**
     * `advance()`: unless finished, compute the level graph; if it reaches a
     * target, augment a blocking flow, which raises the flow; otherwise the
     * flags are left as they are and the flow is maximum: the search is
     * exhausted.
     */
    method Advance()
      requires Valid()
      modifies this`flowIntensity, this`numReachable, this`finished, this`search
      modifies isSaturated, isBlocked, queue, wasPushed, level, pathNode, pathArc
      ensures Valid()
      ensures old(finished) ==> finished && flowIntensity == old(flowIntensity) && isSaturated[..] == old(isSaturated[..])
      ensures !old(finished) ==> numReachable == |sourceList| + |search.queue| - |sourceFront|
      ensures !old(finished) && finished ==>
        && flowIntensity == old(flowIntensity) && isSaturated[..] == old(isSaturated[..])
        && |search.pushed| == net.NodeCount() && (forall u :: 0 <= u < net.NodeCount() ==> (level[u] <==> isSource[u] || search.pushed[u]))
        && Exhausted(net, isSaturated[..], isSource, isTarget, sourceFront, level[..])
      ensures !finished ==> flowIntensity > old(flowIntensity)
    {
      var reached := !finished;
      if reached {
        reached := ComputeBlockingFlow();
      }
      if reached {
        AugmentAllNonBlockedPath();
        finished := false;
      } else {
        if !old(finished) {
          DoneExhausted(Inst(), isSaturated[..], search, level[..]);
        }
        finished := true;
      }
    }
  }
}
