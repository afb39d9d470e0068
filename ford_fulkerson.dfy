/**
 * `FordFulkersonAlgo` of src/ford_fulkerson.h: unit-capacity max flow from a
 * set of sources to a set of targets, one augmenting path per `advance`.
 * Paths are found by a depth-first search over unsaturated arcs that records
 * for each newly reached node the arc it was reached by; the augmentation walks
 * those arcs back from the target to a source.
 *
 * The search forest is described with a ghost discovery stamp per node: the
 * tail of a node's predecessor arc is a source or was reached earlier.
 */
module FordFulkerson {
  import opened Graph
  import opened FlowNetwork

  /** Every unsaturated out-arc of `u` leads to a reachable node. */
  ghost predicate Closed(N: Network, sat: seq<bool>, reach: seq<bool>, u: int)
    requires N.Valid() && |sat| == N.ArcCount() && |reach| == N.NodeCount() && 0 <= u < N.NodeCount()
  {
    forall j :: 0 <= j < |N.outArcs[u]| && !sat[N.outArcs[u][j]] ==> reach[N.head[N.outArcs[u][j]]]
  }

  /** The predecessor arc of the reachable non-source `u` and its place in the forest. */
  ghost predicate Linked(N: Network, isSource: seq<bool>, reach: seq<bool>, pred: seq<int>, stamp: seq<int>, clock: int, u: int)
    requires N.Valid() && |isSource| == |reach| == |pred| == |stamp| == N.NodeCount() && 0 <= u < N.NodeCount()
  {
    && 0 <= pred[u] < N.ArcCount() && N.head[pred[u]] == u && reach[N.tail[pred[u]]]
    && 0 <= stamp[u] < clock
    && (isSource[N.tail[pred[u]]] || stamp[N.tail[pred[u]]] < stamp[u])
  }

  /**
   * The search forest: every source is reachable and every other reachable
   * node was reached over its unsaturated predecessor arc.
   */
  ghost predicate Forest(N: Network, sat: seq<bool>, isSource: seq<bool>, reach: seq<bool>, pred: seq<int>, stamp: seq<int>, clock: int)
    requires N.Valid() && |sat| == N.ArcCount() && |isSource| == |reach| == |pred| == |stamp| == N.NodeCount()
  {
    && Linkage(N, isSource, reach, pred, stamp, clock)
    && (forall u :: 0 <= u < N.NodeCount() && reach[u] && !isSource[u] ==> !sat[pred[u]])
  }

  /** The forest without the saturation of its arcs: what the augmentation walks. */
  ghost predicate Linkage(N: Network, isSource: seq<bool>, reach: seq<bool>, pred: seq<int>, stamp: seq<int>, clock: int)
    requires N.Valid() && |isSource| == |reach| == |pred| == |stamp| == N.NodeCount()
  {
    && 0 <= clock
    && (forall u :: 0 <= u < N.NodeCount() && isSource[u] ==> reach[u])
    && (forall u :: 0 <= u < N.NodeCount() && reach[u] && !isSource[u] ==> Linked(N, isSource, reach, pred, stamp, clock, u))
  }

  /** The predecessor arcs from the reachable node `x` back to a source, in the order the augmentation walks them. */
  ghost function PredPath(N: Network, isSource: seq<bool>, reach: seq<bool>, pred: seq<int>, stamp: seq<int>, clock: int, x: int): (p: seq<int>)
    requires N.Valid() && |isSource| == |reach| == |pred| == |stamp| == N.NodeCount()
    requires Linkage(N, isSource, reach, pred, stamp, clock) && 0 <= x < N.NodeCount() && reach[x]
    ensures forall k :: 0 <= k < |p| ==> 0 <= p[k] < N.ArcCount()
    decreases if isSource[x] then 0 else stamp[x] + 1
  {
    if isSource[x] then []
    else
      assert Linked(N, isSource, reach, pred, stamp, clock, x);
      [pred[x]] + PredPath(N, isSource, reach, pred, stamp, clock, N.tail[pred[x]])
  }

  /** The saturation flags after pushing a unit over each arc of `p` in turn. */
  function PushAll(N: Network, sat: seq<bool>, p: seq<int>): (r: seq<bool>)
    requires N.Valid() && |sat| == N.ArcCount() && forall k :: 0 <= k < |p| ==> 0 <= p[k] < N.ArcCount()
    ensures |r| == |sat|
  {
    if p == [] then sat else PushUnit(N, PushAll(N, sat, p[..|p| - 1]), p[|p| - 1])
  }

  /**
   * What a finished search leaves behind: the sources and the nodes found are
   * reachable, no target was found, and every node found and every source of
   * the front has all its unsaturated out-arcs inside the reachable set.
   */
  ghost predicate Exhausted(N: Network, sat: seq<bool>, isSource: seq<bool>, isTarget: seq<bool>, front: seq<int>, reach: seq<bool>)
    requires N.Valid() && |sat| == N.ArcCount() && |isSource| == |isTarget| == |reach| == N.NodeCount()
  {
    && (forall u :: 0 <= u < N.NodeCount() && isSource[u] ==> reach[u])
    && (forall u :: 0 <= u < N.NodeCount() && reach[u] && !isSource[u] ==> !isTarget[u] && Closed(N, sat, reach, u))
    && (forall k :: 0 <= k < |front| ==> 0 <= front[k] < N.NodeCount() && Closed(N, sat, reach, front[k]))
  }

  /** Every source not in the front has only sources as out-neighbours, as `build_is_source_and_source_front` lists it. */
  ghost predicate FrontCovers(N: Network, isSource: seq<bool>, front: seq<int>)
    requires N.Valid() && |isSource| == N.NodeCount()
  {
    forall u, j :: 0 <= u < N.NodeCount() && isSource[u] && u !in front && 0 <= j < |N.outArcs[u]| ==> isSource[N.head[N.outArcs[u][j]]]
  }

  /** A chain of unsaturated arcs, each starting where the previous one ends. */
  ghost predicate ResidualPath(N: Network, sat: seq<bool>, p: seq<int>)
    requires N.Valid() && |sat| == N.ArcCount()
  {
    && (forall k :: 0 <= k < |p| ==> 0 <= p[k] < N.ArcCount() && !sat[p[k]])
    && (forall k :: 0 < k < |p| ==> N.tail[p[k]] == N.head[p[k - 1]])
  }

  /** Reachability is closed along unsaturated arcs once the searches are exhausted. */
  lemma ExhaustedStep(N: Network, sat: seq<bool>, isSource: seq<bool>, isTarget: seq<bool>, front: seq<int>, reach: seq<bool>, a: int)
    requires N.Valid() && |sat| == N.ArcCount() && |isSource| == |isTarget| == |reach| == N.NodeCount()
    requires Exhausted(N, sat, isSource, isTarget, front, reach) && FrontCovers(N, isSource, front)
    requires 0 <= a < N.ArcCount() && !sat[a] && reach[N.tail[a]]
    ensures reach[N.head[a]]
  {
    var u := N.tail[a];
    assert a in N.outArcs[u];
    var j :| 0 <= j < |N.outArcs[u]| && N.outArcs[u][j] == a;
    if isSource[u] && u in front {
      var k :| 0 <= k < |front| && front[k] == u;
      assert Closed(N, sat, reach, front[k]);
    }
  }

  /**
   * The property `verify_flow_is_maximum` asserts: once exhausted, no chain of
   * unsaturated arcs from a source leaves the reachable set, so none ends at a
   * target that is not a source.
   */
  lemma {:induction false} NoAugmentingPath(N: Network, sat: seq<bool>, isSource: seq<bool>, isTarget: seq<bool>, front: seq<int>, reach: seq<bool>, p: seq<int>)
    requires N.Valid() && |sat| == N.ArcCount() && |isSource| == |isTarget| == |reach| == N.NodeCount()
    requires Exhausted(N, sat, isSource, isTarget, front, reach) && FrontCovers(N, isSource, front)
    requires ResidualPath(N, sat, p) && |p| > 0 && isSource[N.tail[p[0]]]
    ensures reach[N.head[p[|p| - 1]]]
    ensures isSource[N.head[p[|p| - 1]]] || !isTarget[N.head[p[|p| - 1]]]
  {
    if |p| == 1 {
      ExhaustedStep(N, sat, isSource, isTarget, front, reach, p[0]);
    } else {
      var q := p[..|p| - 1];
      NoAugmentingPath(N, sat, isSource, isTarget, front, reach, q);
      ExhaustedStep(N, sat, isSource, isTarget, front, reach, p[|p| - 1]);
    }
  }

  lemma ClosedGrow(N: Network, sat: seq<bool>, reach: seq<bool>, reach': seq<bool>, u: int)
    requires N.Valid() && |sat| == N.ArcCount() && |reach| == |reach'| == N.NodeCount() && 0 <= u < N.NodeCount()
    requires Closed(N, sat, reach, u) && forall v :: 0 <= v < N.NodeCount() && reach[v] ==> reach'[v]
    ensures Closed(N, sat, reach', u)
  {
    forall j | 0 <= j < |N.outArcs[u]| && !sat[N.outArcs[u][j]] ensures reach'[N.head[N.outArcs[u][j]]] {
      OutArcsValid(N, u);
    }
  }

  /** Sizes shared by the search predicates. */
  ghost predicate Sized(N: Network, sat: seq<bool>, isSource: seq<bool>, isTarget: seq<bool>, R0: seq<bool>, reach: seq<bool>, pred: seq<int>, stamp: seq<int>)
  {
    N.Valid() && |sat| == N.ArcCount()
    && |isSource| == |isTarget| == |R0| == |reach| == |pred| == |stamp| == N.NodeCount()
  }

  /** Each marked node was reached over an arc out of the source `src` or out of another marked node. */
  ghost predicate Parented(N: Network, pred: seq<int>, src: int, newly: set<int>)
    requires N.Valid()
  {
    forall u :: u in newly ==> 0 <= u < |pred| && 0 <= pred[u] < N.ArcCount() && (N.tail[pred[u]] == src || N.tail[pred[u]] in newly)
  }

  /**
   * The state of `search_from(src, reachable)` with `R0` the reachable flags at
   * its start: `newly` holds the nodes marked since, none of them a target;
   * `done` the nodes whose arcs have all been passed; every node of the search
   * not yet done is on the stack `stk` or is the node `x` being scanned.
   */
  ghost predicate Search(N: Network, sat: seq<bool>, isSource: seq<bool>, isTarget: seq<bool>, R0: seq<bool>, src: int,
                         reach: seq<bool>, pred: seq<int>, stamp: seq<int>, clock: int,
                         stk: seq<int>, newly: set<int>, done: set<int>, x: int)
    requires Sized(N, sat, isSource, isTarget, R0, reach, pred, stamp)
  {
    var n := N.NodeCount();
    && 0 <= src < n && isSource[src] && R0[src]
    && Forest(N, sat, isSource, reach, pred, stamp, clock)
    && (forall u :: 0 <= u < n && R0[u] ==> reach[u])
    && (forall u :: u in newly <==> 0 <= u < n && reach[u] && !R0[u])
    && (forall u :: u in newly ==> !isTarget[u])
    && Parented(N, pred, src, newly)
    && (forall k :: 0 <= k < |stk| ==> stk[k] == src || stk[k] in newly)
    && (forall u :: u in done ==> 0 <= u < n && Closed(N, sat, reach, u))
    && (forall u :: (u == src || u in newly) ==> u in done || u in stk || u == x)
  }

  /** In addition, the first `i` out-arcs of `x` have been passed. */
  ghost predicate Scan(N: Network, sat: seq<bool>, isSource: seq<bool>, isTarget: seq<bool>, R0: seq<bool>, src: int,
                       reach: seq<bool>, pred: seq<int>, stamp: seq<int>, clock: int,
                       stk: seq<int>, newly: set<int>, done: set<int>, x: int, i: int)
    requires Sized(N, sat, isSource, isTarget, R0, reach, pred, stamp)
  {
    && Search(N, sat, isSource, isTarget, R0, src, reach, pred, stamp, clock, stk, newly, done, x)
    && 0 <= x < N.NodeCount() && (x == src || x in newly)
    && 0 <= i <= |N.outArcs[x]|
    && (forall j :: 0 <= j < i && !sat[N.outArcs[x][j]] ==> reach[N.head[N.outArcs[x][j]]])
  }

  /** The marked nodes lie below `n` and exclude the reachable source, so fewer than `n`. */
  lemma NewlyBound(n: nat, R0: seq<bool>, src: int, newly: set<int>)
    requires |R0| == n && 0 <= src < n && R0[src]
    requires forall u :: u in newly ==> 0 <= u < n && !R0[u]
    ensures |newly| < n
  {
    IdsCard(n);
    assert newly <= Ids(n) - {src};
    SubsetCard(newly, Ids(n) - {src});
  }

  lemma SearchInit(N: Network, sat: seq<bool>, isSource: seq<bool>, isTarget: seq<bool>, R0: seq<bool>, src: int,
                   pred: seq<int>, stamp: seq<int>, clock: int)
    requires Sized(N, sat, isSource, isTarget, R0, R0, pred, stamp)
    requires 0 <= src < N.NodeCount() && isSource[src] && Forest(N, sat, isSource, R0, pred, stamp, clock)
    ensures Search(N, sat, isSource, isTarget, R0, src, R0, pred, stamp, clock, [src], {}, {}, -1)
  {
  }

  /** Popping `x` off the stack starts its scan. */
  lemma ScanStart(N: Network, sat: seq<bool>, isSource: seq<bool>, isTarget: seq<bool>, R0: seq<bool>, src: int,
                  reach: seq<bool>, pred: seq<int>, stamp: seq<int>, clock: int,
                  stk: seq<int>, newly: set<int>, done: set<int>)
    requires Sized(N, sat, isSource, isTarget, R0, reach, pred, stamp)
    requires Search(N, sat, isSource, isTarget, R0, src, reach, pred, stamp, clock, stk, newly, done, -1) && |stk| > 0
    ensures 0 <= stk[|stk| - 1] < N.NodeCount()
    ensures Scan(N, sat, isSource, isTarget, R0, src, reach, pred, stamp, clock, stk[..|stk| - 1], newly, done, stk[|stk| - 1], 0)
  {
    var x, rest := stk[|stk| - 1], stk[..|stk| - 1];
    assert stk == rest + [x];
    assert x == src || x in newly;
    forall u | u == src || u in newly ensures u in done || u in rest || u == x {
      assert u in done || u in stk;
    }
  }

  /** An arc to a reachable node, or a saturated one, is passed. */
  lemma ScanSkip(N: Network, sat: seq<bool>, isSource: seq<bool>, isTarget: seq<bool>, R0: seq<bool>, src: int,
                 reach: seq<bool>, pred: seq<int>, stamp: seq<int>, clock: int,
                 stk: seq<int>, newly: set<int>, done: set<int>, x: int, i: int)
    requires Sized(N, sat, isSource, isTarget, R0, reach, pred, stamp)
    requires Scan(N, sat, isSource, isTarget, R0, src, reach, pred, stamp, clock, stk, newly, done, x, i)
    requires i < |N.outArcs[x]| && (reach[N.head[N.outArcs[x][i]]] || sat[N.outArcs[x][i]])
    ensures Scan(N, sat, isSource, isTarget, R0, src, reach, pred, stamp, clock, stk, newly, done, x, i + 1)
  {
  }

  /** Marking the head `y` of an unsaturated arc to an unreached node keeps the forest. */
  lemma MarkForest(N: Network, sat: seq<bool>, isSource: seq<bool>, isTarget: seq<bool>, R0: seq<bool>, src: int,
                   reach: seq<bool>, pred: seq<int>, stamp: seq<int>, clock: int,
                   stk: seq<int>, newly: set<int>, done: set<int>, x: int, i: int)
    requires Sized(N, sat, isSource, isTarget, R0, reach, pred, stamp)
    requires Scan(N, sat, isSource, isTarget, R0, src, reach, pred, stamp, clock, stk, newly, done, x, i)
    requires i < |N.outArcs[x]| && !reach[N.head[N.outArcs[x][i]]] && !sat[N.outArcs[x][i]]
    ensures var a := N.outArcs[x][i]; var y := N.head[a];
      && 0 <= a < N.ArcCount() && 0 <= y < N.NodeCount() && y !in newly && !isSource[y] && !R0[y]
      && Forest(N, sat, isSource, reach[y := true], pred[y := a], stamp[y := clock], clock + 1)
      && (forall u :: u in newly + {y} <==> 0 <= u < N.NodeCount() && reach[y := true][u] && !R0[u])
      && Parented(N, pred[y := a], src, newly + {y})
  {
    OutArcsValid(N, x);
    var a := N.outArcs[x][i];
    var y := N.head[a];
    var reach', pred', stamp' := reach[y := true], pred[y := a], stamp[y := clock];
    assert reach[x];
    forall u | 0 <= u < N.NodeCount() && reach'[u] && !isSource[u]
      ensures Linked(N, isSource, reach', pred', stamp', clock + 1, u) && !sat[pred'[u]]
    {
      if u != y {
        assert Linked(N, isSource, reach, pred, stamp, clock, u);
      } else if !isSource[x] {
        assert Linked(N, isSource, reach, pred, stamp, clock, x);
      }
    }
  }

  /**
   * Marking a node that is not a target and pushing it keeps the search state;
   * the arc is then passed.
   */
  lemma ScanPush(N: Network, sat: seq<bool>, isSource: seq<bool>, isTarget: seq<bool>, R0: seq<bool>, src: int,
                 reach: seq<bool>, pred: seq<int>, stamp: seq<int>, clock: int,
                 stk: seq<int>, newly: set<int>, done: set<int>, x: int, i: int)
    requires Sized(N, sat, isSource, isTarget, R0, reach, pred, stamp)
    requires Scan(N, sat, isSource, isTarget, R0, src, reach, pred, stamp, clock, stk, newly, done, x, i)
    requires i < |N.outArcs[x]| && !reach[N.head[N.outArcs[x][i]]] && !sat[N.outArcs[x][i]]
    requires !isTarget[N.head[N.outArcs[x][i]]]
    ensures var a := N.outArcs[x][i]; var y := N.head[a];
      0 <= y < N.NodeCount() && 0 <= a < N.ArcCount() && y !in newly
      && Scan(N, sat, isSource, isTarget, R0, src, reach[y := true], pred[y := a], stamp[y := clock], clock + 1,
              stk + [y], newly + {y}, done, x, i + 1)
  {
    MarkForest(N, sat, isSource, isTarget, R0, src, reach, pred, stamp, clock, stk, newly, done, x, i);
    OutArcsValid(N, x);
    var a := N.outArcs[x][i];
    var y := N.head[a];
    var reach', pred', stamp' := reach[y := true], pred[y := a], stamp[y := clock];
    var stk' := stk + [y];
    forall u | u in done ensures 0 <= u < N.NodeCount() && Closed(N, sat, reach', u) {
      ClosedGrow(N, sat, reach, reach', u);
    }
    forall k | 0 <= k < |stk'| ensures stk'[k] == src || stk'[k] in newly + {y} {
      if k < |stk| {
        assert stk'[k] == stk[k];
      }
    }
    forall u | (u == src || u in newly + {y}) ensures u in done || u in stk' || u == x {
      if u != y {
        assert u in done || u in stk || u == x;
      } else {
        assert stk'[|stk|] == y;
      }
    }
  }

  /** The state in which `search_from` returns the target `hit` it has just marked. */
  ghost predicate HitState(N: Network, sat: seq<bool>, isSource: seq<bool>, isTarget: seq<bool>, R0: seq<bool>, src: int,
                           reach: seq<bool>, pred: seq<int>, stamp: seq<int>, clock: int, newly: set<int>, hit: int)
    requires Sized(N, sat, isSource, isTarget, R0, reach, pred, stamp)
  {
    && Forest(N, sat, isSource, reach, pred, stamp, clock)
    && 0 <= hit < N.NodeCount() && hit in newly && isTarget[hit]
    && (forall u :: u in newly <==> 0 <= u < N.NodeCount() && reach[u] && !R0[u])
    && (forall u :: 0 <= u < N.NodeCount() && R0[u] ==> reach[u])
    && (forall u :: u in newly && u != hit ==> !isTarget[u])
    && Parented(N, pred, src, newly)
  }

  /** Marking the target `y`: the search stops in `HitState`. */
  lemma MarkTarget(N: Network, sat: seq<bool>, isSource: seq<bool>, isTarget: seq<bool>, R0: seq<bool>, src: int,
                   reach: seq<bool>, pred: seq<int>, stamp: seq<int>, clock: int,
                   stk: seq<int>, newly: set<int>, done: set<int>, x: int, i: int,
                   reach': seq<bool>, pred': seq<int>, stamp': seq<int>, newly': set<int>)
    requires Sized(N, sat, isSource, isTarget, R0, reach, pred, stamp)
    requires Scan(N, sat, isSource, isTarget, R0, src, reach, pred, stamp, clock, stk, newly, done, x, i)
    requires i < |N.outArcs[x]| && !reach[N.head[N.outArcs[x][i]]] && !sat[N.outArcs[x][i]]
    requires isTarget[N.head[N.outArcs[x][i]]]
    requires reach' == reach[N.head[N.outArcs[x][i]] := true] && pred' == pred[N.head[N.outArcs[x][i]] := N.outArcs[x][i]]
    requires stamp' == stamp[N.head[N.outArcs[x][i]] := clock] && newly' == newly + {N.head[N.outArcs[x][i]]}
    ensures Sized(N, sat, isSource, isTarget, R0, reach', pred', stamp')
    ensures HitState(N, sat, isSource, isTarget, R0, src, reach', pred', stamp', clock + 1, newly', N.head[N.outArcs[x][i]])
  {
    MarkForest(N, sat, isSource, isTarget, R0, src, reach, pred, stamp, clock, stk, newly, done, x, i);
  }

  /** Marking and pushing the node `y` that is not a target: the scan passes the arc. */
  lemma MarkPush(N: Network, sat: seq<bool>, isSource: seq<bool>, isTarget: seq<bool>, R0: seq<bool>, src: int,
                 reach: seq<bool>, pred: seq<int>, stamp: seq<int>, clock: int,
                 stk: seq<int>, newly: set<int>, done: set<int>, x: int, i: int,
                 reach': seq<bool>, pred': seq<int>, stamp': seq<int>, stk': seq<int>, newly': set<int>)
    requires Sized(N, sat, isSource, isTarget, R0, reach, pred, stamp)
    requires Scan(N, sat, isSource, isTarget, R0, src, reach, pred, stamp, clock, stk, newly, done, x, i)
    requires i < |N.outArcs[x]| && !reach[N.head[N.outArcs[x][i]]] && !sat[N.outArcs[x][i]]
    requires !isTarget[N.head[N.outArcs[x][i]]]
    requires reach' == reach[N.head[N.outArcs[x][i]] := true] && pred' == pred[N.head[N.outArcs[x][i]] := N.outArcs[x][i]]
    requires stamp' == stamp[N.head[N.outArcs[x][i]] := clock] && newly' == newly + {N.head[N.outArcs[x][i]]}
    requires stk' == stk + [N.head[N.outArcs[x][i]]]
    ensures Sized(N, sat, isSource, isTarget, R0, reach', pred', stamp')
    ensures Scan(N, sat, isSource, isTarget, R0, src, reach', pred', stamp', clock + 1, stk', newly', done, x, i + 1)
  {
    ScanPush(N, sat, isSource, isTarget, R0, src, reach, pred, stamp, clock, stk, newly, done, x, i);
  }

  /** After the last arc of `x`, `x` is done. */
  lemma ScanEnd(N: Network, sat: seq<bool>, isSource: seq<bool>, isTarget: seq<bool>, R0: seq<bool>, src: int,
                reach: seq<bool>, pred: seq<int>, stamp: seq<int>, clock: int,
                stk: seq<int>, newly: set<int>, done: set<int>, x: int, i: int)
    requires Sized(N, sat, isSource, isTarget, R0, reach, pred, stamp)
    requires Scan(N, sat, isSource, isTarget, R0, src, reach, pred, stamp, clock, stk, newly, done, x, i) && i == |N.outArcs[x]|
    ensures Search(N, sat, isSource, isTarget, R0, src, reach, pred, stamp, clock, stk, newly, done + {x}, -1)
  {
  }

  /** An empty stack leaves every node of the search done. */
  lemma SearchExit(N: Network, sat: seq<bool>, isSource: seq<bool>, isTarget: seq<bool>, R0: seq<bool>, src: int,
                   reach: seq<bool>, pred: seq<int>, stamp: seq<int>, clock: int, newly: set<int>, done: set<int>)
    requires Sized(N, sat, isSource, isTarget, R0, reach, pred, stamp)
    requires Search(N, sat, isSource, isTarget, R0, src, reach, pred, stamp, clock, [], newly, done, -1)
    ensures Closed(N, sat, reach, src)
    ensures forall u :: u in newly ==> Closed(N, sat, reach, u)
  {
    assert src in done;
  }

  /**
   * The state of the augmentation loop of `augment_flow_from`: the first `k`
   * arcs of the predecessor path `path` of the target `t` have carried a unit,
   * which now sits at the current node `x`; the arcs still ahead are
   * unsaturated.
   */
  ghost predicate Augmenting(N: Network, isSource: seq<bool>, reach: seq<bool>, pred: seq<int>, stamp: seq<int>, clock: int,
                             sat0: seq<bool>, sat: seq<bool>, t: int, x: int, path: seq<int>, k: int)
    requires N.Valid() && |isSource| == |reach| == |pred| == |stamp| == N.NodeCount() && |sat0| == N.ArcCount()
  {
    && Linkage(N, isSource, reach, pred, stamp, clock)
    && 0 <= x < N.NodeCount() && reach[x] && 0 <= t < N.NodeCount()
    && 0 <= k <= |path| && path[k..] == PredPath(N, isSource, reach, pred, stamp, clock, x)
    && (forall j :: 0 <= j < |path| ==> 0 <= path[j] < N.ArcCount())
    && sat == PushAll(N, sat0, path[..k])
    && NoAntiparallel(N, sat)
    && (forall u :: 0 <= u < N.NodeCount() ==> ExcessAt(N, sat, u) == ExcessAt(N, sat0, u) + B(u == t) - B(u == x))
    && (!isSource[x] ==> forall u :: 0 <= u < N.NodeCount() && reach[u] && !isSource[u] && stamp[u] <= stamp[x] ==> !sat[pred[u]])
  }

  lemma AugmentStart(N: Network, isSource: seq<bool>, reach: seq<bool>, pred: seq<int>, stamp: seq<int>, clock: int,
                     sat0: seq<bool>, t: int)
    requires N.Valid() && |isSource| == |reach| == |pred| == |stamp| == N.NodeCount() && |sat0| == N.ArcCount()
    requires Forest(N, sat0, isSource, reach, pred, stamp, clock) && NoAntiparallel(N, sat0) && 0 <= t < N.NodeCount() && reach[t]
    ensures Augmenting(N, isSource, reach, pred, stamp, clock, sat0, sat0, t, t, PredPath(N, isSource, reach, pred, stamp, clock, t), 0)
  {
    var path := PredPath(N, isSource, reach, pred, stamp, clock, t);
    assert path[0..] == path && path[..0] == [];
  }

  /** One pass of the loop: a unit over `pred[x]`, and `x` moves to its tail. */
  lemma AugmentStep(N: Network, isSource: seq<bool>, reach: seq<bool>, pred: seq<int>, stamp: seq<int>, clock: int,
                    sat0: seq<bool>, sat: seq<bool>, t: int, x: int, path: seq<int>, k: int)
    requires N.Valid() && |isSource| == |reach| == |pred| == |stamp| == N.NodeCount() && |sat0| == N.ArcCount()
    requires Augmenting(N, isSource, reach, pred, stamp, clock, sat0, sat, t, x, path, k) && !isSource[x]
    ensures 0 <= pred[x] < N.ArcCount() && |sat| == N.ArcCount()
    ensures var x' := N.tail[pred[x]];
      && 0 <= x' < N.NodeCount()
      && (isSource[x'] || stamp[x'] < stamp[x])
      && Augmenting(N, isSource, reach, pred, stamp, clock, sat0, PushUnit(N, sat, pred[x]), t, x', path, k + 1)
  {
    assert Linked(N, isSource, reach, pred, stamp, clock, x);
    var a := pred[x];
    var x' := N.tail[a];
    var bk := N.back[a];
    var sat' := PushUnit(N, sat, a);
    assert path[k..] == [a] + PredPath(N, isSource, reach, pred, stamp, clock, x');
    assert path[k] == a;
    assert path[k + 1..] == path[k..][1..];
    assert path[..k + 1][..k] == path[..k];
    PushUnitEffect(N, sat, a);
    if !isSource[x'] {
      forall u | 0 <= u < N.NodeCount() && reach[u] && !isSource[u] && stamp[u] <= stamp[x'] ensures !sat'[pred[u]] {
        assert Linked(N, isSource, reach, pred, stamp, clock, u);
        assert pred[u] != a;
        if pred[u] == bk {
          assert false;
        }
      }
    }
  }

  /** The source the predecessor path of `x` ends at. */
  ghost function PathSource(N: Network, isSource: seq<bool>, reach: seq<bool>, pred: seq<int>, stamp: seq<int>, clock: int, x: int): (s: int)
    requires N.Valid() && |isSource| == |reach| == |pred| == |stamp| == N.NodeCount()
    requires Linkage(N, isSource, reach, pred, stamp, clock) && 0 <= x < N.NodeCount() && reach[x]
    ensures 0 <= s < N.NodeCount() && isSource[s]
    decreases if isSource[x] then 0 else stamp[x] + 1
  {
    if isSource[x] then x
    else
      assert Linked(N, isSource, reach, pred, stamp, clock, x);
      PathSource(N, isSource, reach, pred, stamp, clock, N.tail[pred[x]])
  }

  /** The rest of the augmentation loop from state `k`: the unit ends at the source of the path. */
  lemma {:induction false} AugmentRest(N: Network, isSource: seq<bool>, reach: seq<bool>, pred: seq<int>, stamp: seq<int>, clock: int,
                                       sat0: seq<bool>, sat: seq<bool>, t: int, x: int, path: seq<int>, k: int)
    requires N.Valid() && |isSource| == |reach| == |pred| == |stamp| == N.NodeCount() && |sat0| == N.ArcCount()
    requires Augmenting(N, isSource, reach, pred, stamp, clock, sat0, sat, t, x, path, k)
    ensures Augmenting(N, isSource, reach, pred, stamp, clock, sat0, PushAll(N, sat0, path), t,
                       PathSource(N, isSource, reach, pred, stamp, clock, x), path, |path|)
    decreases if isSource[x] then 0 else stamp[x] + 1
  {
    if isSource[x] {
      assert path[k..] == [];
      assert path[..k] == path;
    } else {
      AugmentStep(N, isSource, reach, pred, stamp, clock, sat0, sat, t, x, path, k);
      AugmentRest(N, isSource, reach, pred, stamp, clock, sat0, PushUnit(N, sat, pred[x]), t, N.tail[pred[x]], path, k + 1);
    }
  }

  /**
   * Pushing a unit along the predecessor path of a reached target keeps the
   * flow conserved and raises its value by one.
   */
  lemma AugmentConserves(N: Network, isSource: seq<bool>, isTarget: seq<bool>, reach: seq<bool>, pred: seq<int>, stamp: seq<int>, clock: int,
                         sat0: seq<bool>, flow: int, t: int)
    requires N.Valid() && |isSource| == |isTarget| == |reach| == |pred| == |stamp| == N.NodeCount() && |sat0| == N.ArcCount()
    requires Forest(N, sat0, isSource, reach, pred, stamp, clock) && Conserved(N, sat0, isSource, isTarget, flow)
    requires 0 <= t < N.NodeCount() && reach[t] && !isSource[t] && isTarget[t]
    ensures Conserved(N, PushAll(N, sat0, PredPath(N, isSource, reach, pred, stamp, clock, t)), isSource, isTarget, flow + 1)
  {
    var path := PredPath(N, isSource, reach, pred, stamp, clock, t);
    AugmentStart(N, isSource, reach, pred, stamp, clock, sat0, t);
    AugmentRest(N, isSource, reach, pred, stamp, clock, sat0, sat0, t, t, path, 0);
    ConservedShift(N, sat0, PushAll(N, sat0, path), isSource, isTarget, flow, PathSource(N, isSource, reach, pred, stamp, clock, t), t);
  }

  /** One pass of the walk in `augment_flow_from`: the next arc of the path is `pred[x]`, and the path goes on from its tail. */
  lemma WalkStep(N: Network, isSource: seq<bool>, reach: seq<bool>, pred: seq<int>, stamp: seq<int>, clock: int,
                 sat0: seq<bool>, x: int, path: seq<int>, k: int)
    requires N.Valid() && |isSource| == |reach| == |pred| == |stamp| == N.NodeCount() && |sat0| == N.ArcCount()
    requires Linkage(N, isSource, reach, pred, stamp, clock) && 0 <= x < N.NodeCount() && reach[x] && !isSource[x]
    requires 0 <= k <= |path| && path[k..] == PredPath(N, isSource, reach, pred, stamp, clock, x)
    requires forall j :: 0 <= j < |path| ==> 0 <= path[j] < N.ArcCount()
    ensures 0 <= pred[x] < N.ArcCount() && k < |path| && path[k] == pred[x]
    ensures var x' := N.tail[pred[x]];
      && 0 <= x' < N.NodeCount() && reach[x'] && (isSource[x'] || stamp[x'] < stamp[x])
      && path[k + 1..] == PredPath(N, isSource, reach, pred, stamp, clock, x')
      && PushAll(N, sat0, path[..k + 1]) == PushUnit(N, PushAll(N, sat0, path[..k]), pred[x])
  {
    assert Linked(N, isSource, reach, pred, stamp, clock, x);
    assert path[k..] == [pred[x]] + PredPath(N, isSource, reach, pred, stamp, clock, N.tail[pred[x]]);
    assert path[k] == pred[x];
    assert path[k + 1..] == path[k..][1..];
    assert path[..k + 1][..k] == path[..k];
  }

  /**
   * Between the searches of one `advance`: the reachable nodes are the
   * sources and the nodes `marked` by failed searches, and those nodes and the
   * front sources `front[k]` with `k` in `tried` are closed.
   */
  ghost predicate Tried(N: Network, sat: seq<bool>, isSource: seq<bool>, isTarget: seq<bool>, front: seq<int>,
                        reach: seq<bool>, marked: set<int>, tried: set<int>)
    requires N.Valid() && |sat| == N.ArcCount() && |isSource| == |isTarget| == |reach| == N.NodeCount()
  {
    && (forall u :: 0 <= u < N.NodeCount() ==> (reach[u] <==> isSource[u] || u in marked))
    && (forall u :: u in marked ==> 0 <= u < N.NodeCount() && !isSource[u] && !isTarget[u] && Closed(N, sat, reach, u))
    && (forall k :: k in tried ==> 0 <= k < |front| && 0 <= front[k] < N.NodeCount() && Closed(N, sat, reach, front[k]))
  }

  /** A failed search from `front[k]` that marked `newly` extends the tried state. */
  lemma TriedStep(N: Network, sat: seq<bool>, isSource: seq<bool>, isTarget: seq<bool>, front: seq<int>,
                  reach: seq<bool>, marked: set<int>, tried: set<int>, reach': seq<bool>, newly: set<int>, k: int)
    requires N.Valid() && |sat| == N.ArcCount() && |isSource| == |isTarget| == |reach| == |reach'| == N.NodeCount()
    requires Tried(N, sat, isSource, isTarget, front, reach, marked, tried)
    requires forall u :: 0 <= u < N.NodeCount() ==> (reach'[u] <==> reach[u] || u in newly)
    requires forall u :: u in newly ==> 0 <= u < N.NodeCount() && !reach[u] && !isTarget[u] && Closed(N, sat, reach', u)
    requires 0 <= k < |front| && 0 <= front[k] < N.NodeCount() && Closed(N, sat, reach', front[k])
    ensures Tried(N, sat, isSource, isTarget, front, reach', marked + newly, tried + {k})
    ensures marked !! newly
  {
    forall u | u in marked ensures Closed(N, sat, reach', u) {
      ClosedGrow(N, sat, reach, reach', u);
    }
    forall j | j in tried ensures Closed(N, sat, reach', front[j]) {
      ClosedGrow(N, sat, reach, reach', front[j]);
    }
    forall u | u in marked ensures u !in newly {
      assert reach[u];
    }
  }

  /** Every front source tried and every marked node closed: the searches are exhausted. */
  lemma TriedAll(N: Network, sat: seq<bool>, isSource: seq<bool>, isTarget: seq<bool>, front: seq<int>,
                 reach: seq<bool>, marked: set<int>, tried: set<int>)
    requires N.Valid() && |sat| == N.ArcCount() && |isSource| == |isTarget| == |reach| == N.NodeCount()
    requires Tried(N, sat, isSource, isTarget, front, reach, marked, tried)
    requires forall k :: 0 <= k < |front| ==> k in tried
    ensures Exhausted(N, sat, isSource, isTarget, front, reach)
  {
  }

  /** The reachable nodes that are not sources. */
  ghost function FoundSet(isSource: seq<bool>, reach: seq<bool>): set<int>
  {
    set u | 0 <= u < |reach| && u < |isSource| && reach[u] && !isSource[u]
  }

  /** A search that reaches the previously unreachable `newly` adds exactly `newly` to the found nodes. */
  lemma FoundGrow(isSource: seq<bool>, reach: seq<bool>, reach': seq<bool>, marked: set<int>, newly: set<int>)
    requires |reach| == |reach'| == |isSource|
    requires forall u :: 0 <= u < |reach| ==> (reach'[u] <==> reach[u] || u in newly)
    requires forall u :: u in newly ==> 0 <= u < |reach| && !reach[u]
    requires forall u :: 0 <= u < |reach| && isSource[u] ==> reach[u]
    requires FoundSet(isSource, reach) == marked
    ensures FoundSet(isSource, reach') == marked + newly && |marked + newly| == |marked| + |newly|
  {
    assert marked !! newly;
  }

  /** Every unsaturated out-arc of `u` leads to a source or into `D`. */
  ghost predicate ShutIn(N: Network, sat: seq<bool>, isSource: seq<bool>, D: set<int>, u: int)
    requires N.Valid() && |sat| == N.ArcCount() && |isSource| == N.NodeCount() && 0 <= u < N.NodeCount()
  {
    forall j :: 0 <= j < |N.outArcs[u]| && !sat[N.outArcs[u][j]] ==> isSource[N.head[N.outArcs[u][j]]] || N.head[N.outArcs[u][j]] in D
  }

  /**
   * A set of nodes no augmenting path can pass: neither sources nor targets,
   * and left only towards sources or towards the set itself.
   */
  ghost predicate DeadSet(N: Network, sat: seq<bool>, isSource: seq<bool>, isTarget: seq<bool>, D: set<int>)
    requires N.Valid() && |sat| == N.ArcCount() && |isSource| == |isTarget| == N.NodeCount()
  {
    forall u :: u in D ==> 0 <= u < N.NodeCount() && !isSource[u] && !isTarget[u] && ShutIn(N, sat, isSource, D, u)
  }

  /** Every arc that `sat'` frees and `sat` had saturated starts at a node that is neither a source nor in `D`. */
  ghost predicate Spared(N: Network, sat: seq<bool>, sat': seq<bool>, isSource: seq<bool>, D: set<int>)
    requires N.Valid() && |sat| == |sat'| == N.ArcCount() && |isSource| == N.NodeCount()
  {
    forall e :: 0 <= e < N.ArcCount() && sat[e] && !sat'[e] ==> !isSource[N.tail[e]] && N.tail[e] !in D
  }

  /**
   * A search from a source shut in a dead set marks only nodes of that set:
   * each marked node hangs off the source or off an earlier marked node.
   */
  lemma NewlyDead(N: Network, sat: seq<bool>, isSource: seq<bool>, isTarget: seq<bool>, reach: seq<bool>, pred: seq<int>, stamp: seq<int>, clock: int,
                  src: int, newly: set<int>, D: set<int>, u: int)
    requires N.Valid() && |sat| == N.ArcCount() && |isSource| == |isTarget| == |reach| == |pred| == |stamp| == N.NodeCount()
    requires Forest(N, sat, isSource, reach, pred, stamp, clock) && Parented(N, pred, src, newly)
    requires forall v :: v in newly ==> 0 <= v < N.NodeCount() && reach[v] && !isSource[v]
    requires 0 <= src < N.NodeCount() && DeadSet(N, sat, isSource, isTarget, D) && ShutIn(N, sat, isSource, D, src)
    requires u in newly
    ensures u in D
    decreases stamp[u]
  {
    assert Linked(N, isSource, reach, pred, stamp, clock, u);
    var a := pred[u];
    var w := N.tail[a];
    assert a in N.outArcs[w];
    var j :| 0 <= j < |N.outArcs[w]| && N.outArcs[w][j] == a;
    if w != src {
      NewlyDead(N, sat, isSource, isTarget, reach, pred, stamp, clock, src, newly, D, w);
    }
  }

  /** The predecessor path of a node outside a dead set only passes nodes outside it, none a source. */
  lemma PathAvoidsDead(N: Network, sat: seq<bool>, isSource: seq<bool>, isTarget: seq<bool>, reach: seq<bool>, pred: seq<int>, stamp: seq<int>, clock: int,
                       D: set<int>, t: int)
    requires N.Valid() && |sat| == N.ArcCount() && |isSource| == |isTarget| == |reach| == |pred| == |stamp| == N.NodeCount()
    requires Forest(N, sat, isSource, reach, pred, stamp, clock) && DeadSet(N, sat, isSource, isTarget, D)
    requires 0 <= t < N.NodeCount() && reach[t] && t !in D
    ensures forall k :: 0 <= k < |PredPath(N, isSource, reach, pred, stamp, clock, t)| ==>
      !isSource[N.head[PredPath(N, isSource, reach, pred, stamp, clock, t)[k]]] && N.head[PredPath(N, isSource, reach, pred, stamp, clock, t)[k]] !in D
    decreases if isSource[t] then 0 else stamp[t] + 1
  {
    if !isSource[t] {
      assert Linked(N, isSource, reach, pred, stamp, clock, t);
      var a := pred[t];
      var w := N.tail[a];
      assert a in N.outArcs[w];
      var j :| 0 <= j < |N.outArcs[w]| && N.outArcs[w][j] == a;
      assert w !in D;
      PathAvoidsDead(N, sat, isSource, isTarget, reach, pred, stamp, clock, D, w);
    }
  }

  /** An arc that pushing units along `p` frees is the back arc of an arc of `p`. */
  lemma {:induction false} PushAllFrees(N: Network, sat: seq<bool>, p: seq<int>)
    requires N.Valid() && |sat| == N.ArcCount() && forall k :: 0 <= k < |p| ==> 0 <= p[k] < N.ArcCount()
    ensures forall e :: 0 <= e < N.ArcCount() && sat[e] && !PushAll(N, sat, p)[e] ==> exists k :: 0 <= k < |p| && e == N.back[p[k]]
  {
    if p != [] {
      var q := p[..|p| - 1];
      PushAllFrees(N, sat, q);
      forall e | 0 <= e < N.ArcCount() && sat[e] && !PushAll(N, sat, p)[e] ensures exists k :: 0 <= k < |p| && e == N.back[p[k]] {
        if PushAll(N, sat, q)[e] {
          assert e == N.back[p[|p| - 1]];
        } else {
          var k :| 0 <= k < |q| && e == N.back[q[k]];
          assert p[k] == q[k];
        }
      }
    }
  }

  /** Pushing units along a path whose arcs all end outside `D` and at non-sources spares `D` and the sources. */
  lemma PushAllSpares(N: Network, sat: seq<bool>, p: seq<int>, isSource: seq<bool>, D: set<int>)
    requires N.Valid() && |sat| == N.ArcCount() && |isSource| == N.NodeCount()
    requires forall k :: 0 <= k < |p| ==> 0 <= p[k] < N.ArcCount()
    requires forall k :: 0 <= k < |p| ==> !isSource[N.head[p[k]]] && N.head[p[k]] !in D
    ensures Spared(N, sat, PushAll(N, sat, p), isSource, D)
  {
    PushAllFrees(N, sat, p);
    forall e | 0 <= e < N.ArcCount() && sat[e] && !PushAll(N, sat, p)[e] ensures !isSource[N.tail[e]] && N.tail[e] !in D {
      var k :| 0 <= k < |p| && e == N.back[p[k]];
    }
  }

  /** A node shut in `D` is shut in any larger set. */
  lemma ShutInGrow(N: Network, sat: seq<bool>, isSource: seq<bool>, D: set<int>, D': set<int>, u: int)
    requires N.Valid() && |sat| == N.ArcCount() && |isSource| == N.NodeCount() && 0 <= u < N.NodeCount()
    requires ShutIn(N, sat, isSource, D, u) && D <= D'
    ensures ShutIn(N, sat, isSource, D', u)
  {
  }

  /**
   * What a successful try leaves for the next `advance`: `D` is dead before
   * the augmentation, which spares it, and the front sources `lo..j-1` are
   * shut in it.
   */
  ghost predicate Spent(N: Network, sat: seq<bool>, sat': seq<bool>, isSource: seq<bool>, isTarget: seq<bool>, front: seq<int>,
                        D: set<int>, lo: int, j: int)
    requires N.Valid() && |sat| == |sat'| == N.ArcCount() && |isSource| == |isTarget| == N.NodeCount()
  {
    && DeadSet(N, sat, isSource, isTarget, D)
    && Spared(N, sat, sat', isSource, D)
    && forall k :: lo <= k < j ==> 0 <= k < |front| && 0 <= front[k] < N.NodeCount() && ShutIn(N, sat, isSource, D, front[k])
  }

  /**
   * Before the try of `front[j]` in a loop of `advance` that started at `lo`:
   * a dead set joined by the marked nodes is dead, the front sources tried in
   * this loop are shut in it, and so is `front[j]` if it was shut in the
   * smaller set.
   */
  lemma TryDead(N: Network, sat: seq<bool>, isSource: seq<bool>, isTarget: seq<bool>, front: seq<int>,
                reach: seq<bool>, marked: set<int>, tried: set<int>, D: set<int>, lo: int, j: int)
    requires N.Valid() && |sat| == N.ArcCount() && |isSource| == |isTarget| == |reach| == N.NodeCount()
    requires Tried(N, sat, isSource, isTarget, front, reach, marked, tried)
    requires 0 <= lo <= j < |front| && InRange(front, N.NodeCount()) && forall k :: lo <= k < j ==> k in tried
    ensures DeadSet(N, sat, isSource, isTarget, D) ==>
      && DeadSet(N, sat, isSource, isTarget, D + marked)
      && forall k :: lo <= k < j ==> ShutIn(N, sat, isSource, D + marked, front[k])
    ensures DeadSet(N, sat, isSource, isTarget, D) && ShutIn(N, sat, isSource, D, front[j]) ==> ShutIn(N, sat, isSource, D + marked, front[j])
  {
    if DeadSet(N, sat, isSource, isTarget, D) {
      TriedDead(N, sat, isSource, isTarget, front, reach, marked, tried, D);
      if ShutIn(N, sat, isSource, D, front[j]) {
        ShutInGrow(N, sat, isSource, D, D + marked, front[j]);
      }
    }
  }

  /** A node shut in `D` stays shut in when the arcs freed spare it. */
  lemma ShutInKeep(N: Network, sat: seq<bool>, sat': seq<bool>, isSource: seq<bool>, D: set<int>, u: int)
    requires N.Valid() && |sat| == |sat'| == N.ArcCount() && |isSource| == N.NodeCount() && 0 <= u < N.NodeCount()
    requires ShutIn(N, sat, isSource, D, u) && Spared(N, sat, sat', isSource, D) && (isSource[u] || u in D)
    ensures ShutIn(N, sat', isSource, D, u)
  {
    OutArcsValid(N, u);
  }

  /** A dead set stays dead when the arcs freed spare it. */
  lemma DeadSetKeep(N: Network, sat: seq<bool>, sat': seq<bool>, isSource: seq<bool>, isTarget: seq<bool>, D: set<int>)
    requires N.Valid() && |sat| == |sat'| == N.ArcCount() && |isSource| == |isTarget| == N.NodeCount()
    requires DeadSet(N, sat, isSource, isTarget, D) && Spared(N, sat, sat', isSource, D)
    ensures DeadSet(N, sat', isSource, isTarget, D)
  {
    forall u | u in D ensures ShutIn(N, sat', isSource, D, u) {
      ShutInKeep(N, sat, sat', isSource, D, u);
    }
  }

  /**
   * Between the searches of one `advance`, a dead set joined by the nodes
   * marked by failed searches is dead, and every tried front source is shut
   * in it.
   */
  lemma TriedDead(N: Network, sat: seq<bool>, isSource: seq<bool>, isTarget: seq<bool>, front: seq<int>,
                  reach: seq<bool>, marked: set<int>, tried: set<int>, D: set<int>)
    requires N.Valid() && |sat| == N.ArcCount() && |isSource| == |isTarget| == |reach| == N.NodeCount()
    requires Tried(N, sat, isSource, isTarget, front, reach, marked, tried) && DeadSet(N, sat, isSource, isTarget, D)
    ensures DeadSet(N, sat, isSource, isTarget, D + marked)
    ensures forall k :: k in tried ==> 0 <= k < |front| && 0 <= front[k] < N.NodeCount() && ShutIn(N, sat, isSource, D + marked, front[k])
  {
    forall u | u in D + marked ensures ShutIn(N, sat, isSource, D + marked, u) {
      OutArcsValid(N, u);
      if u in marked {
        assert Closed(N, sat, reach, u);
      }
    }
    forall k | k in tried ensures ShutIn(N, sat, isSource, D + marked, front[k]) {
      OutArcsValid(N, front[k]);
      assert Closed(N, sat, reach, front[k]);
    }
  }

  class FordFulkersonAlgo {
    const net: Network
    const sourceList: seq<int>
    const sourceFront: seq<int>
    const isSource: seq<bool>
    const isTarget: seq<bool>
    const isSaturated: array<bool>
    const stack: array<int>
    const predecessor: array<int>
    const isReachable: array<bool>
    var lastSource: int
    var flowIntensity: int
    var numReachable: int
    var finished: bool
    ghost var stamp: seq<int>
    ghost var clock: int
    ghost var dead: set<int>

    /** The sizes of the arrays and the sources the searches start from. */
    ghost predicate Shape()
    {
      && net.Valid()
      && |isSource| == |isTarget| == net.NodeCount()
      && isSaturated.Length == net.ArcCount()
      && stack.Length == predecessor.Length == isReachable.Length == net.NodeCount()
      && isSaturated != isReachable && stack != predecessor
      && InRange(sourceFront, net.NodeCount())
      && (forall k :: 0 <= k < |sourceFront| ==> isSource[sourceFront[k]])
    }

    /** What the debug checks assert between calls, `verify_flow_conservation` among them. */
    ghost predicate Valid()
      reads this`lastSource, this`flowIntensity, isSaturated
    {
      && Shape()
      && 0 <= lastSource <= |sourceFront|
      && Conserved(net, isSaturated[..], isSource, isTarget, flowIntensity)
    }

    /**
     * The nodes `dead` no augmenting path can pass, with every front source
     * before `lastSource` shut in them: why the second loop of `advance`
     * never augments.
     */
    ghost predicate Dead()
      reads this`lastSource, this`dead, isSaturated
    {
      && Shape()
      && DeadSet(net, isSaturated[..], isSource, isTarget, dead)
      && forall k :: 0 <= k < lastSource && k < |sourceFront| ==> ShutIn(net, isSaturated[..], isSource, dead, sourceFront[k])
    }

    /** The search forest over the current reachable flags. */
    ghost predicate ForestNow()
      requires Shape()
      reads this`stamp, this`clock, isSaturated, predecessor, isReachable
    {
      |stamp| == net.NodeCount() &&
      Forest(net, isSaturated[..], isSource, isReachable[..], predecessor[..], stamp, clock)
    }

    /** The reachable nodes that are not sources. */
    ghost function Found(): set<int>
      reads isReachable
    {
      FoundSet(isSource, isReachable[..])
    }

    constructor (net: Network, sourceList: seq<int>, targetList: seq<int>, isSource: seq<bool>, sourceFront: seq<int>)
      requires net.Valid() && |isSource| == net.NodeCount()
      requires InRange(targetList, net.NodeCount()) && InRange(sourceFront, net.NodeCount())
      requires forall k :: 0 <= k < |sourceFront| ==> isSource[sourceFront[k]]
      ensures Valid() && Dead()
      ensures this.net == net && this.sourceList == sourceList && this.sourceFront == sourceFront && this.isSource == isSource
      ensures fresh(isSaturated) && fresh(stack) && fresh(predecessor) && fresh(isReachable)
      ensures forall u :: 0 <= u < net.NodeCount() ==> (isTarget[u] <==> u in targetList)
      ensures forall a :: 0 <= a < net.ArcCount() ==> !isSaturated[a]
      ensures flowIntensity == 0 && !finished && lastSource == 0 && numReachable == 0 && dead == {}
    {
      var n := net.NodeCount();
      var target := new bool[n](_ => false);
      var i := 0;
      while i < |targetList|
        invariant 0 <= i <= |targetList|
        invariant forall u :: 0 <= u < n ==> (target[u] <==> u in targetList[..i])
      {
        target[targetList[i]] := true;
        assert targetList[..i + 1] == targetList[..i] + [targetList[i]];
        i := i + 1;
      }
      assert targetList[..i] == targetList;
      this.net := net;
      this.sourceList := sourceList;
      this.sourceFront := sourceFront;
      this.isSource := isSource;
      isTarget := target[..];
      isSaturated := new bool[net.ArcCount()](_ => false);
      stack := new int[n](_ => 0);
      predecessor := new int[n](_ => 0);
      isReachable := new bool[n](_ => false);
      flowIntensity := 0;
      finished := false;
      lastSource := 0;
      numReachable := 0;
      stamp := seq(n, _ => 0);
      clock := 0;
      dead := {};
      new;
      ZeroConserved(net, isSaturated[..], isSource, isTarget);
    }

    /**
     * The state `search_from` returns in when it reaches the target `hit`:
     * the forest holds, `newly` is what it marked, and `hit` is the only
     * target among those.
     */
    ghost predicate Hit(R0: seq<bool>, src: int, newly: set<int>, hit: int)
      requires Shape() && |R0| == net.NodeCount()
      reads this`stamp, this`clock, isSaturated, predecessor, isReachable
    {
      |stamp| == net.NodeCount()
      && HitState(net, isSaturated[..], isSource, isTarget, R0, src, isReachable[..], predecessor[..], stamp, clock, newly, hit)
    }

    /**
     * `search_from(src, is_reachable)`: a depth-first search over unsaturated
     * arcs to unreached nodes. It marks each node it reaches once, counts it in
     * `numReachable` and records its predecessor arc; it returns the first
     * target reached, or -1 after every node of the search has passed all its
     * arcs.
     */
    method SearchFrom(src: int) returns (r: int, ghost newly: set<int>)
      requires Shape() && ForestNow() && 0 <= src < net.NodeCount() && isSource[src]
      modifies this`numReachable, this`stamp, this`clock, stack, predecessor, isReachable
      ensures ForestNow()
      ensures numReachable == old(numReachable) + |newly|
      ensures forall u :: 0 <= u < net.NodeCount() ==> (isReachable[u] <==> old(isReachable[u]) || u in newly)
      ensures forall u :: u in newly ==> 0 <= u < net.NodeCount() && !old(isReachable[u])
      ensures r == -1 ==> forall u :: u in newly ==> !isTarget[u]
      ensures r == -1 ==> Closed(net, isSaturated[..], isReachable[..], src)
      ensures r == -1 ==> forall u :: u in newly ==> Closed(net, isSaturated[..], isReachable[..], u)
      ensures r != -1 ==> r in newly && isTarget[r] && forall u :: u in newly && u != r ==> !isTarget[u]
      ensures Parented(net, predecessor[..], src, newly)
    {
      var n := net.NodeCount();
      ghost var sat := isSaturated[..];
      ghost var R0 := isReachable[..];
      var stackEnd := 1;
      stack[0] := src;
      newly := {};
      ghost var done: set<int> := {};
      SearchInit(net, sat, isSource, isTarget, R0, src, predecessor[..], stamp, clock);
      assert stack[..stackEnd] == [src];
      while stackEnd != 0
        invariant isSaturated[..] == sat && |stamp| == n
        invariant 0 <= stackEnd <= |newly| + 1 && |newly| < n
        invariant Search(net, sat, isSource, isTarget, R0, src, isReachable[..], predecessor[..], stamp, clock, stack[..stackEnd], newly, done, -1)
        invariant numReachable == old(numReachable) + |newly|
        decreases n - |newly|, stackEnd
      {
        ScanStart(net, sat, isSource, isTarget, R0, src, isReachable[..], predecessor[..], stamp, clock, stack[..stackEnd], newly, done);
        stackEnd := stackEnd - 1;
        var x := stack[stackEnd];
        assert stack[..stackEnd + 1][..stackEnd] == stack[..stackEnd];
        var hit;
        hit, stackEnd, newly := ScanNode(src, x, stackEnd, R0, newly, done);
        if hit != -1 {
          return hit, newly;
        }
        done := done + {x};
      }
      SearchExit(net, sat, isSource, isTarget, R0, src, isReachable[..], predecessor[..], stamp, clock, newly, done);
      r := -1;
    }

    /** The `for(auto xy : inv_tail(x))` loop of `search_from`. */
    method ScanNode(src: int, x: int, stackEnd: int, ghost R0: seq<bool>, ghost newly: set<int>, ghost done: set<int>)
      returns (hit: int, stackEnd': int, ghost newly': set<int>)
      requires Shape() && |R0| == |stamp| == net.NodeCount()
      requires 0 <= stackEnd <= |newly| < net.NodeCount()
      requires Scan(net, isSaturated[..], isSource, isTarget, R0, src, isReachable[..], predecessor[..], stamp, clock, stack[..stackEnd], newly, done, x, 0)
      modifies this`numReachable, this`stamp, this`clock, stack, predecessor, isReachable
      ensures |stamp| == net.NodeCount()
      ensures numReachable == old(numReachable) + |newly'| - |newly|
      ensures hit == -1 ==> 0 <= stackEnd' <= |newly'| + 1 && |newly'| < net.NodeCount()
      ensures hit == -1 ==> |newly'| >= |newly| && (|newly'| > |newly| || stackEnd' < stackEnd + 1)
      ensures hit == -1 ==> Search(net, isSaturated[..], isSource, isTarget, R0, src, isReachable[..], predecessor[..], stamp, clock, stack[..stackEnd'], newly', done + {x}, -1)
      ensures hit != -1 ==> Hit(R0, src, newly', hit)
    {
      ghost var sat := isSaturated[..];
      stackEnd', newly' := stackEnd, newly;
      var i := 0;
      while i < |net.outArcs[x]|
        invariant isSaturated[..] == sat && |stamp| == net.NodeCount()
        invariant 0 <= stackEnd' <= |newly'| < net.NodeCount()
        invariant |newly'| >= |newly| && stackEnd' <= stackEnd + |newly'| - |newly|
        invariant Scan(net, sat, isSource, isTarget, R0, src, isReachable[..], predecessor[..], stamp, clock, stack[..stackEnd'], newly', done, x, i)
        invariant numReachable == old(numReachable) + |newly'| - |newly|
        decreases |net.outArcs[x]| - i
      {
        OutArcsValid(net, x);
        var xy := net.outArcs[x][i];
        var y := net.head[xy];
        if !isReachable[y] && !isSaturated[xy] {
          hit, stackEnd', newly' := MarkArc(src, x, i, stackEnd', R0, newly', done);
          if hit != -1 {
            return;
          }
        } else {
          ScanSkip(net, sat, isSource, isTarget, R0, src, isReachable[..], predecessor[..], stamp, clock, stack[..stackEnd'], newly', done, x, i);
        }
        i := i + 1;
      }
      ScanEnd(net, sat, isSource, isTarget, R0, src, isReachable[..], predecessor[..], stamp, clock, stack[..stackEnd'], newly', done, x, i);
      hit := -1;
    }

    /**
     * The out-arc `xy` of `x` leads to the unreached node `y` and is
     * unsaturated: `y` is marked, counted and given `xy` as predecessor; a
     * target is returned, any other node pushed.
     */
    method MarkArc(src: int, x: int, i: int, stackEnd: int, ghost R0: seq<bool>, ghost newly: set<int>, ghost done: set<int>)
      returns (hit: int, stackEnd': int, ghost newly': set<int>)
      requires Shape() && |R0| == |stamp| == net.NodeCount()
      requires 0 <= stackEnd <= |newly| < net.NodeCount()
      requires Scan(net, isSaturated[..], isSource, isTarget, R0, src, isReachable[..], predecessor[..], stamp, clock, stack[..stackEnd], newly, done, x, i)
      requires i < |net.outArcs[x]| && !isReachable[net.head[net.outArcs[x][i]]] && !isSaturated[net.outArcs[x][i]]
      modifies this`numReachable, this`stamp, this`clock, stack, predecessor, isReachable
      ensures |stamp| == net.NodeCount()
      ensures numReachable == old(numReachable) + 1 && newly' == newly + {net.head[net.outArcs[x][i]]} && |newly'| == |newly| + 1
      ensures hit == -1 ==> 0 <= stackEnd' <= |newly'| < net.NodeCount() && stackEnd' == stackEnd + 1
      ensures hit == -1 ==> Scan(net, isSaturated[..], isSource, isTarget, R0, src, isReachable[..], predecessor[..], stamp, clock, stack[..stackEnd'], newly', done, x, i + 1)
      ensures hit != -1 ==> Hit(R0, src, newly', hit)
    {
      ghost var sat := isSaturated[..];
      OutArcsValid(net, x);
      var xy := net.outArcs[x][i];
      var y := net.head[xy];
      ghost var reach0, pred0, stack0, stamp0 := isReachable[..], predecessor[..], stack[..], stamp;
      assert y !in newly;
      NewlyBound(net.NodeCount(), R0, src, newly + {y});
      MarkNode(y, xy);
      newly' := newly + {y};
      if isTarget[y] {
        MarkTarget(net, sat, isSource, isTarget, R0, src, reach0, pred0, stamp0, clock - 1, stack0[..stackEnd], newly, done, x, i,
                   isReachable[..], predecessor[..], stamp, newly');
        return y, stackEnd, newly';
      }
      Push(stackEnd, y);
      stackEnd' := stackEnd + 1;
      MarkPush(net, sat, isSource, isTarget, R0, src, reach0, pred0, stamp0, clock - 1, stack0[..stackEnd], newly, done, x, i,
               isReachable[..], predecessor[..], stamp, stack[..stackEnd'], newly');
      hit := -1;
    }

    /** Marks `y` as reached through the arc `xy`, counts it and stamps it with the clock. */
    method MarkNode(y: int, xy: int)
      requires Shape() && |stamp| == net.NodeCount() && 0 <= y < net.NodeCount()
      modifies this`numReachable, this`stamp, this`clock, predecessor, isReachable
      ensures isReachable[..] == old(isReachable[..])[y := true] && predecessor[..] == old(predecessor[..])[y := xy]
      ensures stamp == old(stamp)[y := old(clock)] && clock == old(clock) + 1 && numReachable == old(numReachable) + 1
    {
      isReachable[y] := true;
      numReachable := numReachable + 1;
      predecessor[y] := xy;
      stamp := stamp[y := clock];
      clock := clock + 1;
    }

    /** Pushes `y` onto the stack of the search, whose top is at `stackEnd`. */
    method Push(stackEnd: int, y: int)
      requires Shape() && 0 <= stackEnd < stack.Length
      modifies stack
      ensures stack[..stackEnd + 1] == old(stack[..stackEnd]) + [y]
    {
      stack[stackEnd] := y;
    }

    /**
     * The augmentation of `augment_flow_from` after its search reached `t`:
     * the flow value goes up by 1 and, walking the predecessor arcs back from
     * `t` to a source, each arc cancels its saturated back arc or becomes
     * saturated itself.
     */
    method Augment(t: int)
      requires Valid() && ForestNow() && 0 <= t < net.NodeCount() && isReachable[t] && !isSource[t] && isTarget[t]
      modifies this`flowIntensity, isSaturated
      ensures Valid() && flowIntensity == old(flowIntensity) + 1
      ensures Linkage(net, isSource, isReachable[..], predecessor[..], stamp, clock)
      ensures isSaturated[..] == PushAll(net, old(isSaturated[..]), PredPath(net, isSource, isReachable[..], predecessor[..], stamp, clock, t))
    {
      AugmentConserves(net, isSource, isTarget, isReachable[..], predecessor[..], stamp, clock, isSaturated[..], flowIntensity, t);
      flowIntensity := flowIntensity + 1;
      Walk(t);
    }

    /** The loop of `augment`: from `t` back to a source along the predecessor arcs, cancelling a saturated back arc or saturating the arc. */
    method Walk(t: int)
      requires Shape() && |stamp| == net.NodeCount() && Linkage(net, isSource, isReachable[..], predecessor[..], stamp, clock)
      requires 0 <= t < net.NodeCount() && isReachable[t]
      modifies isSaturated
      ensures isSaturated[..] == PushAll(net, old(isSaturated[..]), PredPath(net, isSource, isReachable[..], predecessor[..], stamp, clock, t))
    {
      ghost var sat0 := isSaturated[..];
      ghost var reach, pred := isReachable[..], predecessor[..];
      ghost var path := PredPath(net, isSource, reach, pred, stamp, clock, t);
      var x := t;
      ghost var k := 0;
      assert path[0..] == path && path[..0] == [];
      while !isSource[x]
        invariant 0 <= x < net.NodeCount() && reach[x] && 0 <= k <= |path|
        invariant path[k..] == PredPath(net, isSource, reach, pred, stamp, clock, x)
        invariant isSaturated[..] == PushAll(net, sat0, path[..k])
        decreases if isSource[x] then 0 else stamp[x] + 1
      {
        WalkStep(net, isSource, reach, pred, stamp, clock, sat0, x, path, k);
        ghost var sat := isSaturated[..];
        var a := predecessor[x];
        var b := net.back[a];
        if isSaturated[b] {
          isSaturated[b] := false;
        } else {
          isSaturated[a] := true;
        }
        assert isSaturated[..] == PushUnit(net, sat, a);
        x := net.tail[a];
        k := k + 1;
      }
      assert path[..k] == path by {
        assert path[k..] == [];
      }
    }

    /**
     * `augment_flow_from(src)`: search from `src`; if a target was reached,
     * augment along the path found. Reports whether it augmented.
     */
    method AugmentFlowFrom(src: int, ghost D: set<int>) returns (ok: bool, ghost newly: set<int>)
      requires Valid() && ForestNow() && 0 <= src < net.NodeCount() && isSource[src]
      modifies this`numReachable, this`stamp, this`clock, this`flowIntensity, stack, predecessor, isReachable, isSaturated
      ensures Valid()
      ensures numReachable == old(numReachable) + |newly|
      ensures forall u :: 0 <= u < net.NodeCount() ==> (isReachable[u] <==> old(isReachable[u]) || u in newly)
      ensures forall u :: u in newly ==> 0 <= u < net.NodeCount() && !old(isReachable[u])
      ensures ok ==> flowIntensity == old(flowIntensity) + 1
      ensures !ok ==> flowIntensity == old(flowIntensity) && isSaturated[..] == old(isSaturated[..]) && ForestNow()
      ensures !ok ==> forall u :: u in newly ==> !isTarget[u] && Closed(net, isSaturated[..], isReachable[..], u)
      ensures !ok ==> Closed(net, isSaturated[..], isReachable[..], src)
      ensures DeadSet(net, old(isSaturated[..]), isSource, isTarget, D) && ShutIn(net, old(isSaturated[..]), isSource, D, src) ==> !ok
      ensures ok && DeadSet(net, old(isSaturated[..]), isSource, isTarget, D) ==> Spared(net, old(isSaturated[..]), isSaturated[..], isSource, D)
    {
      ghost var sat0 := isSaturated[..];
      var hit;
      hit, newly := SearchFrom(src);
      if hit != -1 {
        ghost var reach, pred := isReachable[..], predecessor[..];
        if DeadSet(net, sat0, isSource, isTarget, D) {
          PathAvoidsDead(net, sat0, isSource, isTarget, reach, pred, stamp, clock, D, hit);
          PushAllSpares(net, sat0, PredPath(net, isSource, reach, pred, stamp, clock, hit), isSource, D);
          if ShutIn(net, sat0, isSource, D, src) {
            NewlyDead(net, sat0, isSource, isTarget, reach, pred, stamp, clock, src, newly, D, hit);
          }
        }
        Augment(hit);
        ok := true;
      } else {
        ok := false;
      }
    }

    /**
     * `advance()`: reset reachability to the sources and `numReachable` to
     * `|sourceList|`; try the front sources from `lastSource` on, and then
     * those before it, stopping at the first that augments and remembering
     * it; if none does, nothing changed and `finished` is set, with every
     * search exhausted.
     */
    method Advance()
      requires Valid() && Dead()
      modifies this`numReachable, this`stamp, this`clock, this`flowIntensity, this`lastSource, this`finished, this`dead
      modifies stack, predecessor, isReachable, isSaturated
      ensures Valid() && Dead()
      ensures forall u :: 0 <= u < net.NodeCount() && isSource[u] ==> isReachable[u]
      ensures numReachable == |sourceList| + |Found()|
      ensures || (flowIntensity == old(flowIntensity) + 1 && finished == old(finished) && old(lastSource) <= lastSource < |sourceFront|)
              || (flowIntensity == old(flowIntensity) && finished && lastSource == old(lastSource)
                  && isSaturated[..] == old(isSaturated[..])
                  && Exhausted(net, isSaturated[..], isSource, isTarget, sourceFront, isReachable[..]))
    {
      ResetSearch();
      ghost var sat0 := isSaturated[..];
      ghost var marked: set<int> := {};
      ghost var tried: set<int> := {};
      ghost var before;
      var ok, j;
      ok, j, marked, tried, before := TryRange(lastSource, |sourceFront|, marked, tried, dead);
      if ok {
        ghost var D := dead + before;
        forall k | 0 <= k < j ensures ShutIn(net, isSaturated[..], isSource, D, sourceFront[k]) {
          ShutInKeep(net, sat0, isSaturated[..], isSource, D, sourceFront[k]);
        }
        DeadSetKeep(net, sat0, isSaturated[..], isSource, isTarget, D);
        lastSource := j;
        dead := D;
        return;
      }
      ok, j, marked, tried, before := TryRange(0, lastSource, marked, tried, dead);
      // The front sources before `lastSource` are shut in `dead`, so the
      // second loop never augments: the `assert(false)` of `advance`.
      assert !ok;
      assert forall k :: 0 <= k < |sourceFront| ==> k in tried;
      TriedAll(net, isSaturated[..], isSource, isTarget, sourceFront, isReachable[..], marked, tried);
      finished := true;
    }

    /** The start of `advance`: only the sources are reachable, and `numReachable` counts them. */
    method ResetSearch()
      requires Valid()
      modifies this`numReachable, this`stamp, this`clock, isReachable
      ensures Valid() && ForestNow() && Found() == {} && numReachable == |sourceList|
      ensures Tried(net, isSaturated[..], isSource, isTarget, sourceFront, isReachable[..], {}, {})
    {
      forall u | 0 <= u < isReachable.Length {
        isReachable[u] := isSource[u];
      }
      numReachable := |sourceList|;
      stamp, clock := seq(net.NodeCount(), _ => 0), 0;
    }

    /** One of the two loops of `advance`: try the front sources `lo..hi-1` in order, stopping at the first that augments. */
    method TryRange(lo: int, hi: int, ghost marked: set<int>, ghost tried: set<int>, ghost D: set<int>)
      returns (ok: bool, j: int, ghost marked': set<int>, ghost tried': set<int>, ghost before: set<int>)
      requires Valid() && ForestNow() && 0 <= lo <= hi <= |sourceFront|
      requires Tried(net, isSaturated[..], isSource, isTarget, sourceFront, isReachable[..], marked, tried)
      requires numReachable == |sourceList| + |marked| && Found() == marked
      modifies this`numReachable, this`stamp, this`clock, this`flowIntensity, stack, predecessor, isReachable, isSaturated
      ensures Valid() && numReachable == |sourceList| + |marked'| && Found() == marked'
      ensures ok ==> flowIntensity == old(flowIntensity) + 1 && lo <= j < hi
      ensures ok ==> forall u :: 0 <= u < net.NodeCount() && isSource[u] ==> isReachable[u]
      ensures !ok ==> flowIntensity == old(flowIntensity) && isSaturated[..] == old(isSaturated[..]) && ForestNow()
      ensures !ok ==> Tried(net, isSaturated[..], isSource, isTarget, sourceFront, isReachable[..], marked', tried')
      ensures !ok ==> forall k :: k in tried || lo <= k < hi ==> k in tried'
      ensures DeadSet(net, old(isSaturated[..]), isSource, isTarget, D) && (forall k :: lo <= k < hi ==> ShutIn(net, old(isSaturated[..]), isSource, D, sourceFront[k])) ==> !ok
      ensures ok && DeadSet(net, old(isSaturated[..]), isSource, isTarget, D) ==>
        Spent(net, old(isSaturated[..]), isSaturated[..], isSource, isTarget, sourceFront, D + before, lo, j)
    {
      ghost var sat0 := isSaturated[..];
      marked', tried' := marked, tried;
      before := marked;
      j := lo;
      while j < hi
        invariant lo <= j <= hi
        invariant Valid() && ForestNow() && flowIntensity == old(flowIntensity)
        invariant isSaturated[..] == old(isSaturated[..])
        invariant Tried(net, isSaturated[..], isSource, isTarget, sourceFront, isReachable[..], marked', tried')
        invariant numReachable == |sourceList| + |marked'| && Found() == marked'
        invariant tried <= tried' && forall k :: lo <= k < j ==> k in tried'
      {
        before := marked';
        TryDead(net, sat0, isSource, isTarget, sourceFront, isReachable[..], marked', tried', D, lo, j);
        ok, marked', tried' := TryFront(j, marked', tried', D + before);
        if ok {
          return;
        }
        j := j + 1;
      }
      ok := false;
    }

    /** `augment_flow_from(source_front(i))` inside `advance`, with what a failure adds to the tried state. */
    method TryFront(i: int, ghost marked: set<int>, ghost tried: set<int>, ghost D: set<int>) returns (ok: bool, ghost marked': set<int>, ghost tried': set<int>)
      requires Valid() && ForestNow() && 0 <= i < |sourceFront|
      requires Tried(net, isSaturated[..], isSource, isTarget, sourceFront, isReachable[..], marked, tried)
      requires numReachable == |sourceList| + |marked| && Found() == marked
      modifies this`numReachable, this`stamp, this`clock, this`flowIntensity, stack, predecessor, isReachable, isSaturated
      ensures Valid() && numReachable == |sourceList| + |marked'| && Found() == marked'
      ensures ok ==> flowIntensity == old(flowIntensity) + 1
      ensures ok ==> forall u :: 0 <= u < net.NodeCount() && isSource[u] ==> isReachable[u]
      ensures !ok ==> flowIntensity == old(flowIntensity) && isSaturated[..] == old(isSaturated[..]) && ForestNow()
      ensures !ok ==> tried' == tried + {i}
      ensures !ok ==> Tried(net, isSaturated[..], isSource, isTarget, sourceFront, isReachable[..], marked', tried')
      ensures DeadSet(net, old(isSaturated[..]), isSource, isTarget, D) && ShutIn(net, old(isSaturated[..]), isSource, D, sourceFront[i]) ==> !ok
      ensures ok && DeadSet(net, old(isSaturated[..]), isSource, isTarget, D) ==> Spared(net, old(isSaturated[..]), isSaturated[..], isSource, D)
    {
      ghost var reach := isReachable[..];
      ghost var newly;
      ok, newly := AugmentFlowFrom(sourceFront[i], D);
      FoundGrow(isSource, reach, isReachable[..], marked, newly);
      if !ok {
        TriedStep(net, isSaturated[..], isSource, isTarget, sourceFront, reach, marked, tried, isReachable[..], newly, i);
      }
      marked' := marked + newly;
      tried' := tried + {i};
    }
  }
}
