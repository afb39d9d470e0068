/**
 * Inertial flow, src/inertial_flow.h: the sources are the first `k` nodes of
 * a node order, the targets the last `k`; four orders (by longitude, by
 * latitude and by their sum and difference) give four max-flow instances,
 * which are advanced one at a time, always the one with the least flow,
 * until the chosen one is finished. Its reachable side, or the complement
 * when that is larger, is the cut.
 *
 * The comparators and `std::nth_element` are outside the model: a node order
 * is given as a permutation, and `NodeOrderOk` states what the two
 * `nth_element` calls leave behind. The instances are `FordFulkersonAlgo`s.
 */
module InertialFlow {
  import opened Graph
  import opened FlowNetwork
  import opened FordFulkerson
  import opened CutterSets
  import opened CutterDinic

  // ------------------------------------------------------------------
  // Source and target lists

  /** `static_cast<int>(x)`: truncation toward zero. */
  function Trunc(x: real): (r: int)
    ensures 0.0 <= x ==> r as real <= x < r as real + 1.0
    ensures x < 0.0 ==> r as real - 1.0 < x <= r as real
  {
    if x >= 0.0 then x.Floor else -((-x).Floor)
  }

  /** `min_side_size = max(int(min_balance * node_count), 1)`. */
  function MinSideSize(n: nat, minBalance: real): (k: int)
    ensures k >= 1 && (k == 1 || k as real <= minBalance * n as real)
    ensures 0.0 <= minBalance ==> minBalance * n as real < k as real + 1.0
  {
    var t := Trunc(minBalance * n as real);
    if t > 1 then t else 1
  }

  /** The source list and the target list of one instance. */
  datatype Terminals = Terminals(sources: seq<int>, targets: seq<int>)

  /**
   * `build_source_and_target_list`, from the node order that the
   * `nth_element` calls leave: the first `k` nodes are the sources, and the
   * `x`-th target is the `x`-th node from the end.
   */
  function SourceAndTargetList(n: nat, minBalance: real, order: seq<int>): (t: Terminals)
    requires |order| == n && MinSideSize(n, minBalance) <= n
    ensures |t.sources| == |t.targets| == MinSideSize(n, minBalance)
    ensures InRange(order, n) ==> InRange(t.sources, n) && InRange(t.targets, n)
  {
    var k := MinSideSize(n, minBalance);
    Terminals(order[..k], seq(k, x requires 0 <= x < k => order[n - x - 1]))
  }

  /** The two lists of a permutation are duplicate-free lists of nodes. */
  lemma TerminalsDistinct(n: nat, minBalance: real, order: seq<int>)
    requires IsPermutation(order, n) && MinSideSize(n, minBalance) <= n
    ensures var t := SourceAndTargetList(n, minBalance, order);
      IsPermutation(order, n) && Distinct(t.sources) && InRange(t.sources, n) && Distinct(t.targets) && InRange(t.targets, n)
  {
  }

  /**
   * Sources and targets come from one permutation, so they share a node
   * exactly when the two ends overlap, when `2k > n`.
   */
  lemma TerminalsDisjointIff(n: nat, minBalance: real, order: seq<int>)
    requires IsPermutation(order, n) && MinSideSize(n, minBalance) <= n
    ensures var t := SourceAndTargetList(n, minBalance, order);
      (forall i, j :: 0 <= i < |t.sources| && 0 <= j < |t.targets| ==> t.sources[i] != t.targets[j])
      <==> 2 * MinSideSize(n, minBalance) <= n
  {
    var k := MinSideSize(n, minBalance);
    var t := SourceAndTargetList(n, minBalance, order);
    if 2 * k > n {
      assert t.sources[k - 1] == t.targets[n - k];
    }
  }

  /**
   * `nth_element(begin() + lo, begin() + m, end())` leaves position `m` in
   * its sorted place: no node before it in the range compares greater than
   * one after it.
   */
  ghost predicate NthSplit(order: seq<int>, key: int -> real, lo: int, m: int)
  {
    forall i, j :: 0 <= lo <= i < j < |order| && i <= m <= j ==> key(order[i]) <= key(order[j])
  }

  /**
   * What the node order is after `build_source_and_target_list`'s two
   * `nth_element` calls: a permutation split at `k`, and, when the second
   * call runs, its tail split at `n - k`.
   */
  ghost predicate NodeOrderOk(order: seq<int>, key: int -> real, n: nat, k: int)
  {
    && IsPermutation(order, n)
    && NthSplit(order, key, 0, k)
    && (k + 1 < n - k ==> NthSplit(order, key, k, n - k))
  }

  /** The sources are `k` minimal nodes: none compares greater than a node that is no source. */
  lemma SourcesMinimal(n: nat, minBalance: real, order: seq<int>, key: int -> real)
    requires MinSideSize(n, minBalance) <= n && NodeOrderOk(order, key, n, MinSideSize(n, minBalance))
    ensures var t := SourceAndTargetList(n, minBalance, order);
      forall s, v :: s in t.sources && 0 <= v < n && v !in t.sources ==> key(s) <= key(v)
  {
    var k := MinSideSize(n, minBalance);
    var t := SourceAndTargetList(n, minBalance, order);
    forall s, v | s in t.sources && 0 <= v < n && v !in t.sources
      ensures key(s) <= key(v)
    {
      var i :| 0 <= i < k && t.sources[i] == s;
      PermutationCovers(order, n, v);
      var j :| 0 <= j < n && order[j] == v;
      assert j >= k;
    }
  }

  /**
   * When sources and targets are apart, the targets are `k` maximal nodes:
   * none compares less than a node that is no target.
   */
  lemma TargetsMaximal(n: nat, minBalance: real, order: seq<int>, key: int -> real)
    requires MinSideSize(n, minBalance) <= n && NodeOrderOk(order, key, n, MinSideSize(n, minBalance))
    requires 2 * MinSideSize(n, minBalance) <= n
    ensures var t := SourceAndTargetList(n, minBalance, order);
      forall s, v :: s in t.targets && 0 <= v < n && v !in t.targets ==> key(v) <= key(s)
  {
    var k := MinSideSize(n, minBalance);
    var t := SourceAndTargetList(n, minBalance, order);
    forall s, v | s in t.targets && 0 <= v < n && v !in t.targets
      ensures key(v) <= key(s)
    {
      var x :| 0 <= x < k && t.targets[x] == s;
      var i := n - x - 1;
      PermutationCovers(order, n, v);
      var j :| 0 <= j < n && order[j] == v;
      TailInTargets(n, minBalance, order);
      assert j < i;
    }
  }

  /** Every node in the last `k` places of the order is a target. */
  lemma TailInTargets(n: nat, minBalance: real, order: seq<int>)
    requires |order| == n && MinSideSize(n, minBalance) <= n
    ensures var t := SourceAndTargetList(n, minBalance, order);
      forall j :: n - MinSideSize(n, minBalance) <= j < n ==> order[j] in t.targets
  {
    var t := SourceAndTargetList(n, minBalance, order);
    forall j | n - MinSideSize(n, minBalance) <= j < n
      ensures order[j] in t.targets
    {
      assert t.targets[n - j - 1] == order[j];
    }
  }

  // ------------------------------------------------------------------
  // Source flags and source front

  /** Some out-arc of `u` leads to a node that is no source. */
  ghost predicate LeavesSources(N: Network, isSource: seq<bool>, u: int)
    requires N.Valid() && |isSource| == N.NodeCount() && 0 <= u < N.NodeCount()
  {
    exists j :: 0 <= j < |N.outArcs[u]| && !isSource[N.head[N.outArcs[u][j]]]
  }

  /** The sources of `list`, in list order, that have an out-neighbour that is no source. */
  ghost function FrontOf(N: Network, isSource: seq<bool>, list: seq<int>): seq<int>
    requires N.Valid() && |isSource| == N.NodeCount() && InRange(list, N.NodeCount())
  {
    if list == [] then []
    else
      var m := |list| - 1;
      assert InRange(list[..m], N.NodeCount());
      FrontOf(N, isSource, list[..m]) + (if LeavesSources(N, isSource, list[m]) then [list[m]] else [])
  }

  /** The source front holds exactly the listed sources that have an out-neighbour that is no source. */
  lemma {:induction false} FrontMembers(N: Network, isSource: seq<bool>, list: seq<int>)
    requires N.Valid() && |isSource| == N.NodeCount() && InRange(list, N.NodeCount())
    ensures forall u :: u in FrontOf(N, isSource, list) <==> u in list && LeavesSources(N, isSource, u)
    ensures InRange(FrontOf(N, isSource, list), N.NodeCount())
    decreases |list|
  {
    if list != [] {
      var m := |list| - 1;
      assert list == list[..m] + [list[m]];
      FrontMembers(N, isSource, list[..m]);
    }
  }

  /**
   * The front leaves out only sources all of whose out-neighbours are
   * sources: exactly what `FordFulkerson.NoAugmentingPath` needs of the
   * front to conclude that a finished search leaves no augmenting path.
   */
  lemma FrontIsCovering(N: Network, isSource: seq<bool>, list: seq<int>)
    requires N.Valid() && |isSource| == N.NodeCount() && InRange(list, N.NodeCount())
    requires forall u :: 0 <= u < N.NodeCount() ==> (isSource[u] <==> u in list)
    ensures FrontCovers(N, isSource, FrontOf(N, isSource, list))
  {
    FrontMembers(N, isSource, list);
  }

  /** The flags of a prefix one longer. */
  lemma CountSnoc(s: seq<bool>, i: int)
    requires 0 <= i < |s|
    ensures Count(s[..i + 1]) == Count(s[..i]) + B(s[i])
  {
    assert s[..i + 1][..i] == s[..i];
  }

  /** A prefix has no more flags than the whole. */
  lemma {:induction false} CountPrefix(s: seq<bool>, i: int)
    requires 0 <= i <= |s|
    ensures Count(s[..i]) <= Count(s)
    decreases |s| - i
  {
    if i < |s| {
      CountSnoc(s, i);
      CountPrefix(s, i + 1);
    } else {
      assert s[..i] == s;
    }
  }

  /**
   * `build_is_source_and_source_front(inv_tail, head, source_list)`: flag
   * the sources; mark each listed source with an out-neighbour that is no
   * source, counting them; then copy the marked ones, in list order, into a
   * source front of that size.
   */
  method BuildIsSourceAndSourceFront(N: Network, sourceList: seq<int>) returns (isSource: seq<bool>, sourceFront: seq<int>)
    requires N.Valid() && InRange(sourceList, N.NodeCount())
    ensures |isSource| == N.NodeCount() && forall u :: 0 <= u < N.NodeCount() ==> (isSource[u] <==> u in sourceList)
    ensures sourceFront == FrontOf(N, isSource, sourceList)
  {
    isSource := MarkSources(N.NodeCount(), sourceList);
    var isFront, size := MarkFront(N, isSource, sourceList);
    sourceFront := CollectFront(N, isSource, sourceList, isFront, size);
  }

  /** The first loop: the flags of the listed sources. */
  method MarkSources(n: nat, sourceList: seq<int>) returns (isSource: seq<bool>)
    requires InRange(sourceList, n)
    ensures |isSource| == n && forall u :: 0 <= u < n ==> (isSource[u] <==> u in sourceList)
  {
    var flag := new bool[n](_ => false);
    for i := 0 to |sourceList|
      invariant forall u :: 0 <= u < n ==> (flag[u] <==> u in sourceList[..i])
    {
      assert sourceList[..i + 1] == sourceList[..i] + [sourceList[i]];
      flag[sourceList[i]] := true;
    }
    assert sourceList[..|sourceList|] == sourceList;
    isSource := flag[..];
  }

  /** The second loop: a flag per listed source that has an out-neighbour that is no source, and their number. */
  method MarkFront(N: Network, isSource: seq<bool>, sourceList: seq<int>) returns (isFront: seq<bool>, size: int)
    requires N.Valid() && |isSource| == N.NodeCount() && InRange(sourceList, N.NodeCount())
    ensures |isFront| == |sourceList| && size == Count(isFront)
    ensures forall q :: 0 <= q < |sourceList| ==> (isFront[q] <==> LeavesSources(N, isSource, sourceList[q]))
  {
    var k := |sourceList|;
    var flag := new bool[k](_ => false);
    size := 0;
    for i := 0 to k
      invariant forall q :: 0 <= q < i ==> (flag[q] <==> LeavesSources(N, isSource, sourceList[q]))
      invariant forall q :: i <= q < k ==> !flag[q]
      invariant size == Count(flag[..i])
    {
      var u := sourceList[i];
      var j := 0;
      while j < |N.outArcs[u]|
        invariant 0 <= j <= |N.outArcs[u]| && !flag[i]
        invariant forall q :: 0 <= q < j ==> isSource[N.head[N.outArcs[u][q]]]
      {
        if !isSource[N.head[N.outArcs[u][j]]] {
          flag[i] := true;
          size := size + 1;
          break;
        }
        j := j + 1;
      }
      CountSnoc(flag[..], i);
    }
    assert flag[..k] == flag[..];
    isFront := flag[..];
  }

  /** The third loop: the flagged sources, in list order, in a front of the counted size. */
  method CollectFront(N: Network, isSource: seq<bool>, sourceList: seq<int>, isFront: seq<bool>, size: int) returns (sourceFront: seq<int>)
    requires N.Valid() && |isSource| == N.NodeCount() && InRange(sourceList, N.NodeCount())
    requires |isFront| == |sourceList| && size == Count(isFront)
    requires forall q :: 0 <= q < |sourceList| ==> (isFront[q] <==> LeavesSources(N, isSource, sourceList[q]))
    ensures sourceFront == FrontOf(N, isSource, sourceList)
  {
    var k := |sourceList|;
    var front := new int[size](_ => 0);
    var si := 0;
    for i := 0 to k
      invariant si == Count(isFront[..i]) <= size
      invariant front[..si] == FrontOf(N, isSource, sourceList[..i])
    {
      CountSnoc(isFront, i);
      CountPrefix(isFront, i + 1);
      assert sourceList[..i + 1][..i] == sourceList[..i];
      if !isFront[i] {
        continue;
      }
      front[si] := sourceList[i];
      si := si + 1;
    }
    assert isFront[..k] == isFront;
    assert si == front.Length;
    assert sourceList[..k] == sourceList;
    sourceFront := front[..si];
    assert front[..] == front[..si];
  }

  // ------------------------------------------------------------------
  // The cut of a finished instance

  /** `Cut`: the flags of the smaller side, its size, and the cut size. */
  datatype Cut = Cut(isOnSmallerSide: seq<bool>, smallerSideSize: int, cutSize: int)

  /** `~flags`. */
  function Complement(s: seq<bool>): (r: seq<bool>)
    ensures |r| == |s| && forall u :: 0 <= u < |s| ==> r[u] == !s[u]
  {
    seq(|s|, u requires 0 <= u < |s| => !s[u])
  }

  /** The complement flags every node the flags leave out. */
  lemma {:induction false} CountComplement(s: seq<bool>)
    ensures Count(Complement(s)) == |s| - Count(s)
    decreases |s|
  {
    if s != [] {
      var m := |s| - 1;
      assert Complement(s)[..m] == Complement(s[..m]);
      CountComplement(s[..m]);
    }
  }

  /**
   * The return of a finished instance: its reachable flags with their count
   * when that is at most half the nodes, else their complement with the
   * remaining count; the cut size is the flow intensity.
   */
  function CutOf(reach: seq<bool>, reachableCount: int, flowIntensity: int): Cut
  {
    var n := |reach|;
    if reachableCount <= n / 2 then Cut(reach, reachableCount, flowIntensity)
    else Cut(Complement(reach), n - reachableCount, flowIntensity)
  }

  /**
   * The cut is one of the two sides of the reachable flags, the smaller one:
   * it flags its size of nodes, at most half of them, and its cut size is
   * the flow.
   */
  lemma CutIsSmallerSide(reach: seq<bool>, flowIntensity: int)
    ensures var c := CutOf(reach, Count(reach), flowIntensity);
      && |c.isOnSmallerSide| == |reach| && c.cutSize == flowIntensity
      && c.smallerSideSize == Count(c.isOnSmallerSide) <= |reach| / 2
      && ((forall u :: 0 <= u < |reach| ==> c.isOnSmallerSide[u] == reach[u])
          || (forall u :: 0 <= u < |reach| ==> c.isOnSmallerSide[u] == !reach[u]))
  {
    CountComplement(reach);
  }

  /** The flagged indices. */
  ghost function FlagSet(s: seq<bool>): set<int>
  {
    set u | 0 <= u < |s| && s[u]
  }

  /** The count of flags is the size of the flagged set. */
  lemma {:induction false} CountIsCard(s: seq<bool>)
    ensures Count(s) == |FlagSet(s)|
    decreases |s|
  {
    if s != [] {
      var m := |s| - 1;
      CountIsCard(s[..m]);
      assert FlagSet(s) == FlagSet(s[..m]) + (if s[m] then {m} else {});
    }
  }

  /**
   * With the sources reachable, a duplicate-free source list counted by
   * `|source_list|`, and the other reachable nodes counted one each, the
   * count `num_reachable` is the number of reachable flags.
   */
  lemma ReachableCount(isSource: seq<bool>, sourceList: seq<int>, reach: seq<bool>)
    requires |isSource| == |reach| && Distinct(sourceList) && InRange(sourceList, |reach|)
    requires forall u :: 0 <= u < |reach| ==> (isSource[u] <==> u in sourceList)
    requires forall u :: 0 <= u < |reach| && isSource[u] ==> reach[u]
    ensures Count(reach) == |sourceList| + |FoundSet(isSource, reach)|
  {
    CountIsCard(reach);
    ElemsCard(sourceList);
    assert FlagSet(reach) == Elems(sourceList) + FoundSet(isSource, reach);
    assert Elems(sourceList) !! FoundSet(isSource, reach);
  }

  // ------------------------------------------------------------------
  // Scheduling the four instances

  /**
   * The index loop of `compute_inertial_flow_cut`: the instance with the
   * strictly smallest flow intensity, the lowest index among equals.
   */
  method NextInstance(flows: seq<int>) returns (next: int)
    requires |flows| > 0
    ensures 0 <= next < |flows|
    ensures forall i :: 0 <= i < |flows| ==> flows[next] <= flows[i]
    ensures forall i :: 0 <= i < next ==> flows[next] < flows[i]
  {
    next := 0;
    for i := 1 to |flows|
      invariant 0 <= next < i
      invariant forall j :: 0 <= j < i ==> flows[next] <= flows[j]
      invariant forall j :: 0 <= j < next ==> flows[next] < flows[j]
    {
      if flows[i] < flows[next] {
        next := i;
      }
    }
  }

  /** The objects an instance writes. */
  ghost function Repr(f: FordFulkersonAlgo): set<object>
  {
    {f, f.isSaturated, f.stack, f.predecessor, f.isReachable}
  }

  /** The objects the four instances write. */
  ghost function Footprint(inst: seq<FordFulkersonAlgo>): set<object>
    requires |inst| == 4
  {
    Repr(inst[0]) + Repr(inst[1]) + Repr(inst[2]) + Repr(inst[3])
  }

  /** The instances write disjoint objects. */
  ghost predicate Separate(inst: seq<FordFulkersonAlgo>)
  {
    forall i, j :: 0 <= i < j < |inst| ==> Repr(inst[i]) !! Repr(inst[j])
  }

  /** Instance `f` is built from the node order `order`: its lists, flags and front. */
  ghost predicate Fits(f: FordFulkersonAlgo, N: Network, order: seq<int>, minBalance: real)
  {
    && f.net == N && N.Valid() && |order| == N.NodeCount() && InRange(order, N.NodeCount())
    && MinSideSize(N.NodeCount(), minBalance) <= N.NodeCount()
    && var t := SourceAndTargetList(N.NodeCount(), minBalance, order);
    && f.sourceList == t.sources
    && f.isSource == Flags(N.NodeCount(), t.sources) && f.isTarget == Flags(N.NodeCount(), t.targets)
    && f.sourceFront == FrontOf(N, f.isSource, t.sources)
  }

  /** The flags of the listed nodes among `n`. */
  ghost function Flags(n: nat, list: seq<int>): seq<bool>
  {
    seq(n, u => u in list)
  }

  /** What a finished instance keeps: the count of its reachable nodes and its exhausted search. */
  ghost predicate Finished(f: FordFulkersonAlgo)
    reads f, f.isReachable, f.isSaturated
    requires f.Shape()
  {
    && f.numReachable == |f.sourceList| + |f.Found()|
    && Exhausted(f.net, f.isSaturated[..], f.isSource, f.isTarget, f.sourceFront, f.isReachable[..])
  }

  /** The scheduler's four instances: each built from its order and scheduled, writing disjoint objects. */
  ghost predicate Running(inst: seq<FordFulkersonAlgo>, N: Network, orders: seq<seq<int>>, minBalance: real)
    reads set j | 0 <= j < |inst| :: inst[j]
    reads set j | 0 <= j < |inst| :: inst[j].isReachable
    reads set j | 0 <= j < |inst| :: inst[j].isSaturated
  {
    && |inst| == |orders| == 4 && Separate(inst)
    && forall j :: 0 <= j < 4 ==> Scheduled(inst[j], N, orders[j], minBalance)
  }

  /** The state of one instance between scheduling steps. */
  ghost predicate Scheduled(f: FordFulkersonAlgo, N: Network, order: seq<int>, minBalance: real)
    reads f, f.isReachable, f.isSaturated
  {
    && f.Valid() && f.Dead() && Fits(f, N, order, minBalance) && (f.finished ==> Finished(f))
  }

  /** What is left to do for one instance: two per unit of flow it may still gain, and one to finish. */
  ghost function Potential(f: FordFulkersonAlgo, bound: int): int
    reads f
  {
    2 * (bound - f.flowIntensity) + (if f.finished then 0 else 1)
  }

  /** An instance's flow is at most the number of arcs. */
  lemma PotentialBound(f: FordFulkersonAlgo)
    requires f.Valid()
    ensures Potential(f, OutDegrees(f.net, f.net.NodeCount())) >= 0
  {
    ConservedBound(f.net, f.isSaturated[..], f.isSource, f.isTarget, f.flowIntensity);
  }

  /** The result of `compute_inertial_flow_cut` for the finished instance `f` built from `order`. */
  ghost predicate CutFrom(c: Cut, N: Network, order: seq<int>, minBalance: real,
                          sat: seq<bool>, isSource: seq<bool>, isTarget: seq<bool>, front: seq<int>, reach: seq<bool>)
  {
    && N.Valid() && IsPermutation(order, N.NodeCount()) && MinSideSize(N.NodeCount(), minBalance) <= N.NodeCount()
    && |sat| == N.ArcCount() && |isSource| == |isTarget| == |reach| == N.NodeCount()
    && (var t := SourceAndTargetList(N.NodeCount(), minBalance, order);
        && (forall u :: 0 <= u < N.NodeCount() ==> (isSource[u] <==> u in t.sources) && (isTarget[u] <==> u in t.targets))
        && front == FrontOf(N, isSource, t.sources))
    && Conserved(N, sat, isSource, isTarget, c.cutSize) && Exhausted(N, sat, isSource, isTarget, front, reach)
    && FrontCovers(N, isSource, front)
    && c == CutOf(reach, Count(reach), c.cutSize)
    && |c.isOnSmallerSide| == N.NodeCount() && c.smallerSideSize == Count(c.isOnSmallerSide) <= N.NodeCount() / 2
  }

  /**
   * `compute_inertial_flow_cut(..., min_balance)` over `FordFulkersonAlgo`,
   * from the four node orders: build the instances, then advance the one
   * with the least flow until the chosen one is finished, and return the
   * smaller side of its reachable set. The ghost results are that
   * instance's final flow, flags, front and reachable flags: its flow of
   * value `cutSize` is conserved and its search exhausted, so no augmenting
   * path is left (`FordFulkerson.NoAugmentingPath`), and the returned side
   * is the reachable set or its complement, flagging at most half the nodes.
   */
  method ComputeInertialFlowCut(N: Network, orders: seq<seq<int>>, minBalance: real)
    returns (c: Cut, ghost which: int, ghost sat: seq<bool>, ghost isSource: seq<bool>, ghost isTarget: seq<bool>,
             ghost front: seq<int>, ghost reach: seq<bool>)
    requires N.Valid() && |orders| == 4 && forall i :: 0 <= i < 4 ==> IsPermutation(orders[i], N.NodeCount())
    requires MinSideSize(N.NodeCount(), minBalance) <= N.NodeCount()
    ensures 0 <= which < 4 && CutFrom(c, N, orders[which], minBalance, sat, isSource, isTarget, front, reach)
    ensures LeavingCount(N, reach, N.ArcCount()) == c.cutSize && LeavingCount(N, c.isOnSmallerSide, N.ArcCount()) == c.cutSize
  {
    var inst := BuildInstances(N, orders, minBalance);
    var bound := OutDegrees(N, N.NodeCount());
    while true
      invariant Running(inst, N, orders, minBalance)
      invariant fresh(Footprint(inst))
      decreases PotentialSum(inst, bound)
    {
      RunningBound(inst, N, orders, minBalance, bound);
      var next, done := Round(inst, N, orders, minBalance, bound);
      if done {
        which := next;
        c, sat, isSource, isTarget, front, reach := FinishedCut(inst[next], N, orders[next], minBalance);
        return;
      }
    }
  }

  /**
   * The body of the scheduling loop: pick the instance with the least flow
   * intensity (`done` when it is finished, and then nothing changes), and
   * otherwise advance it.
   */
  method Round(inst: seq<FordFulkersonAlgo>, ghost N: Network, ghost orders: seq<seq<int>>, ghost minBalance: real, ghost bound: int)
    returns (next: int, done: bool)
    requires Running(inst, N, orders, minBalance)
    modifies Footprint(inst)
    ensures Running(inst, N, orders, minBalance) && 0 <= next < 4
    ensures done ==> inst[next].finished
    ensures !done ==> PotentialSum(inst, bound) < old(PotentialSum(inst, bound))
  {
    next := NextInstance([inst[0].flowIntensity, inst[1].flowIntensity, inst[2].flowIntensity, inst[3].flowIntensity]);
    done := inst[next].finished;
    if !done {
      AdvanceOne(inst, next, N, orders, minBalance, bound);
    }
  }

  /** While running, what is left to do is never negative. */
  lemma RunningBound(inst: seq<FordFulkersonAlgo>, N: Network, orders: seq<seq<int>>, minBalance: real, bound: int)
    requires Running(inst, N, orders, minBalance) && bound == OutDegrees(N, N.NodeCount())
    ensures PotentialSum(inst, bound) >= 0
  {
    PotentialBound(inst[0]);
    PotentialBound(inst[1]);
    PotentialBound(inst[2]);
    PotentialBound(inst[3]);
  }

  /** The sum of the four instances' potentials. */
  ghost function PotentialSum(inst: seq<FordFulkersonAlgo>, bound: int): int
    requires |inst| == 4
    reads set j | 0 <= j < 4 :: inst[j]
  {
    Potential(inst[0], bound) + Potential(inst[1], bound) + Potential(inst[2], bound) + Potential(inst[3], bound)
  }

  /** Instances with disjoint footprints share neither the object nor its flag arrays. */
  lemma Apart(f: FordFulkersonAlgo, g: FordFulkersonAlgo)
    requires Repr(f) !! Repr(g)
    ensures f != g
    ensures f.isReachable != g.isReachable && f.isReachable != g.isSaturated
    ensures f.isSaturated != g.isReachable && f.isSaturated != g.isSaturated
  {
    assert f in Repr(f) && g in Repr(g);
    assert f.isReachable in Repr(f) && f.isSaturated in Repr(f);
    assert g.isReachable in Repr(g) && g.isSaturated in Repr(g);
  }

  /** One step of the scheduler: `advance()` on an unfinished instance, which lowers what is left to do. */
  method AdvanceOne(inst: seq<FordFulkersonAlgo>, next: int, ghost N: Network, ghost orders: seq<seq<int>>, ghost minBalance: real, ghost bound: int)
    requires Running(inst, N, orders, minBalance) && 0 <= next < 4 && !inst[next].finished
    modifies Repr(inst[next])
    ensures Running(inst, N, orders, minBalance)
    ensures PotentialSum(inst, bound) < old(PotentialSum(inst, bound))
  {
    ghost var before := [Potential(inst[0], bound), Potential(inst[1], bound), Potential(inst[2], bound), Potential(inst[3], bound)];
    AdvanceScheduled(inst[next], N, orders[next], minBalance, bound);
    if next != 0 {
      Apart(inst[0], inst[next]);
      assert unchanged(inst[0], inst[0].isReachable, inst[0].isSaturated);
      assert Scheduled(inst[0], N, orders[0], minBalance);
    }
    if next != 1 {
      Apart(inst[1], inst[next]);
      assert unchanged(inst[1], inst[1].isReachable, inst[1].isSaturated);
      assert Scheduled(inst[1], N, orders[1], minBalance);
    }
    if next != 2 {
      Apart(inst[2], inst[next]);
      assert unchanged(inst[2], inst[2].isReachable, inst[2].isSaturated);
      assert Scheduled(inst[2], N, orders[2], minBalance);
    }
    if next != 3 {
      Apart(inst[3], inst[next]);
      assert unchanged(inst[3], inst[3].isReachable, inst[3].isSaturated);
      assert Scheduled(inst[3], N, orders[3], minBalance);
    }
    RunningIntro(inst, N, orders, minBalance);
  }

  /** Four separate instances, each scheduled, are running. */
  lemma RunningIntro(inst: seq<FordFulkersonAlgo>, N: Network, orders: seq<seq<int>>, minBalance: real)
    requires |inst| == |orders| == 4 && Separate(inst)
    requires Scheduled(inst[0], N, orders[0], minBalance) && Scheduled(inst[1], N, orders[1], minBalance)
    requires Scheduled(inst[2], N, orders[2], minBalance) && Scheduled(inst[3], N, orders[3], minBalance)
    ensures Running(inst, N, orders, minBalance)
  {
  }

  /** `advance()` on one unfinished instance keeps it scheduled and lowers its potential. */
  method AdvanceScheduled(f: FordFulkersonAlgo, ghost N: Network, ghost order: seq<int>, ghost minBalance: real, ghost bound: int)
    requires Scheduled(f, N, order, minBalance) && !f.finished
    modifies Repr(f)
    ensures Scheduled(f, N, order, minBalance)
    ensures Potential(f, bound) < old(Potential(f, bound))
  {
    f.Advance();
  }

  /** The four instances, one per node order, writing disjoint objects. */
  method BuildInstances(N: Network, orders: seq<seq<int>>, minBalance: real) returns (inst: seq<FordFulkersonAlgo>)
    requires N.Valid() && |orders| == 4
    requires forall i :: 0 <= i < 4 ==> |orders[i]| == N.NodeCount() && InRange(orders[i], N.NodeCount())
    requires MinSideSize(N.NodeCount(), minBalance) <= N.NodeCount()
    ensures Running(inst, N, orders, minBalance)
    ensures fresh(Footprint(inst))
  {
    inst := [];
    ghost var taken: set<object> := {};
    for i := 0 to 4
      invariant |inst| == i && Separate(inst) && fresh(taken)
      invariant forall j :: 0 <= j < i ==> Repr(inst[j]) <= taken
      invariant forall j :: 0 <= j < i ==> Scheduled(inst[j], N, orders[j], minBalance)
    {
      var f := BuildInstance(N, orders[i], minBalance, taken);
      inst := inst + [f];
      taken := taken + Repr(f);
    }
    assert Footprint(inst) <= taken;
    RunningIntro(inst, N, orders, minBalance);
  }

  /** A freshly built instance: no flow, and no search done yet. */
  ghost predicate Blank(f: FordFulkersonAlgo)
    reads f, f.isSaturated
  {
    && f.flowIntensity == 0 && f.lastSource == 0 && !f.finished && f.dead == {}
    && forall a :: 0 <= a < f.isSaturated.Length ==> !f.isSaturated[a]
  }

  /** A freshly built instance, fitted to its order, carries the empty flow, which is conserved: it is scheduled. */
  lemma InitialScheduled(f: FordFulkersonAlgo, N: Network, order: seq<int>, minBalance: real)
    requires Fits(f, N, order, minBalance) && f.Shape() && Blank(f)
    ensures Scheduled(f, N, order, minBalance)
  {
    ZeroConserved(N, f.isSaturated[..], f.isSource, f.isTarget);
  }

  /** The instance for one node order: its lists, source flags and front, and a fresh `FordFulkersonAlgo` over them. */
  method BuildInstance(N: Network, order: seq<int>, minBalance: real, ghost taken: set<object>) returns (f: FordFulkersonAlgo)
    requires N.Valid() && |order| == N.NodeCount() && InRange(order, N.NodeCount())
    requires MinSideSize(N.NodeCount(), minBalance) <= N.NodeCount()
    ensures fresh(Repr(f)) && Repr(f) !! taken && Scheduled(f, N, order, minBalance)
  {
    var t := SourceAndTargetList(N.NodeCount(), minBalance, order);
    var isSrc, sf := BuildIsSourceAndSourceFront(N, t.sources);
    FrontMembers(N, isSrc, t.sources);
    f := new FordFulkersonAlgo(N, t.sources, t.targets, isSrc, sf);
    InitialScheduled(f, N, order, minBalance);
  }

  /** The return of a finished instance: the cut of its reachable flags, with its final state as the ghost results. */
  method FinishedCut(f: FordFulkersonAlgo, N: Network, order: seq<int>, minBalance: real)
    returns (c: Cut, ghost sat: seq<bool>, ghost isSource: seq<bool>, ghost isTarget: seq<bool>, ghost front: seq<int>, ghost reach: seq<bool>)
    requires Scheduled(f, N, order, minBalance) && f.finished && IsPermutation(order, N.NodeCount())
    ensures CutFrom(c, N, order, minBalance, sat, isSource, isTarget, front, reach)
    ensures LeavingCount(N, reach, N.ArcCount()) == c.cutSize && LeavingCount(N, c.isOnSmallerSide, N.ArcCount()) == c.cutSize
  {
    var n := N.NodeCount();
    var reachableCount := f.numReachable;
    var flowIntensity := f.flowIntensity;
    sat, isSource, isTarget, front, reach := f.isSaturated[..], f.isSource, f.isTarget, f.sourceFront, f.isReachable[..];
    TerminalsDistinct(n, minBalance, order);
    ReachableCount(isSource, f.sourceList, reach);
    FrontIsCovering(N, isSource, f.sourceList);
    c := CutOf(f.isReachable[..], reachableCount, flowIntensity);
    CutIsSmallerSide(reach, flowIntensity);
    CutArcsCarryFlow(c, N, order, minBalance, sat, isSource, isTarget, front, reach);
  }

  // ------------------------------------------------------------------
  // Separator

  /** The heads of the arcs below `m` that leave the flagged side. */
  function CutHeads(N: Network, side: seq<bool>, m: int): seq<int>
    requires N.Valid() && |side| == N.NodeCount() && 0 <= m <= N.ArcCount()
  {
    if m == 0 then []
    else CutHeads(N, side, m - 1) + (if side[N.tail[m - 1]] && !side[N.head[m - 1]] then [N.head[m - 1]] else [])
  }

  /** The cut heads are the heads of the arcs leaving the flagged side. */
  lemma {:induction false} CutHeadsMembers(N: Network, side: seq<bool>, m: int)
    requires N.Valid() && |side| == N.NodeCount() && 0 <= m <= N.ArcCount()
    ensures forall v :: v in CutHeads(N, side, m) <==> exists a :: 0 <= a < m && side[N.tail[a]] && !side[N.head[a]] && N.head[a] == v
  {
    if m > 0 {
      CutHeadsMembers(N, side, m - 1);
    }
  }

  /** The cut heads hold one entry per arc leaving the flagged side. */
  lemma {:induction false} CutHeadsCount(N: Network, side: seq<bool>, m: int)
    requires N.Valid() && |side| == N.NodeCount() && 0 <= m <= N.ArcCount()
    ensures |CutHeads(N, side, m)| == LeavingCount(N, side, m)
  {
    if m > 0 {
      CutHeadsCount(N, side, m - 1);
    }
  }

  /**
   * The debug check of `compute_inertial_flow_cut` and the size assertion of
   * `compute_inertial_flow_separator`: the arcs leaving the reachable set
   * number the flow intensity, and so do the arcs leaving the returned
   * side, whose heads are the separator before duplicates are dropped.
   */
  lemma CutArcsCarryFlow(c: Cut, N: Network, order: seq<int>, minBalance: real,
                         sat: seq<bool>, isSource: seq<bool>, isTarget: seq<bool>, front: seq<int>, reach: seq<bool>)
    requires CutFrom(c, N, order, minBalance, sat, isSource, isTarget, front, reach)
    ensures LeavingCount(N, reach, N.ArcCount()) == c.cutSize
    ensures LeavingCount(N, c.isOnSmallerSide, N.ArcCount()) == c.cutSize
    ensures |CutHeads(N, c.isOnSmallerSide, N.ArcCount())| == c.cutSize
  {
    forall a | 0 <= a < N.ArcCount() && reach[N.tail[a]] && !sat[a]
      ensures reach[N.head[a]]
    {
      ExhaustedStep(N, sat, isSource, isTarget, front, reach, a);
    }
    CutCarriesFlow(N, sat, isSource, isTarget, c.cutSize, reach);
    if c.isOnSmallerSide != reach {
      LeavingComplement(N, reach, c.isOnSmallerSide);
    }
    CutHeadsCount(N, c.isOnSmallerSide, N.ArcCount());
  }

  /** The loop of `compute_inertial_flow_separator` over the arcs: the heads of those leaving the flagged side. */
  method CollectCutHeads(N: Network, side: seq<bool>) returns (heads: seq<int>)
    requires N.Valid() && |side| == N.NodeCount()
    ensures heads == CutHeads(N, side, N.ArcCount())
  {
    heads := [];
    for i := 0 to N.ArcCount()
      invariant heads == CutHeads(N, side, i)
    {
      if side[N.tail[i]] && !side[N.head[i]] {
        heads := heads + [N.head[i]];
      }
    }
  }

  predicate Increasing(s: seq<int>)
  {
    forall i, j :: 0 <= i < j < |s| ==> s[i] < s[j]
  }

  /** Inserting `x` into an increasing sequence, unless it is there. */
  function InsertSorted(s: seq<int>, x: int): (r: seq<int>)
    requires Increasing(s)
    ensures Increasing(r) && forall v :: v in r <==> v in s || v == x
    ensures |r| <= |s| + 1
  {
    if s == [] then [x]
    else if x < s[0] then [x] + s
    else if x == s[0] then s
    else
      var t := InsertSorted(s[1..], x);
      assert forall v :: v in s[1..] ==> s[0] < v;
      assert forall j :: 0 <= j < |t| ==> s[0] < t[j] by {
        forall j | 0 <= j < |t| ensures s[0] < t[j] {
          assert t[j] in t;
        }
      }
      [s[0]] + t
  }

  /**
   * `std::sort` followed by `std::unique` and `erase`: the values of `s`,
   * each once, in increasing order.
   */
  method SortUnique(s: seq<int>) returns (r: seq<int>)
    ensures Increasing(r) && forall v :: v in r <==> v in s
    ensures |r| <= |s|
  {
    r := [];
    for i := 0 to |s|
      invariant Increasing(r) && forall v :: v in r <==> v in s[..i]
      invariant |r| <= i
    {
      assert s[..i + 1] == s[..i] + [s[i]];
      r := InsertSorted(r, s[i]);
    }
    assert s[..|s|] == s;
  }

  /**
   * `compute_inertial_flow_separator`: `{0}` for a single node; otherwise
   * the heads of the arcs leaving the smaller side of the cut, sorted and
   * without duplicates. The ghost `side` is that cut's smaller side and
   * `cutSize` its cut size: the heads before duplicates are dropped number
   * exactly `cutSize`, so the separator has at most that many nodes.
   */
  method ComputeInertialFlowSeparator(N: Network, orders: seq<seq<int>>, minBalance: real)
    returns (sep: seq<int>, ghost side: seq<bool>, ghost cutSize: int)
    requires N.Valid() && |orders| == 4 && forall i :: 0 <= i < 4 ==> IsPermutation(orders[i], N.NodeCount())
    requires MinSideSize(N.NodeCount(), minBalance) <= N.NodeCount()
    ensures N.NodeCount() == 1 ==> sep == [0]
    ensures N.NodeCount() != 1 ==>
      && |side| == N.NodeCount() && Count(side) <= N.NodeCount() / 2 && Increasing(sep)
      && (forall v :: v in sep <==> exists a :: 0 <= a < N.ArcCount() && side[N.tail[a]] && !side[N.head[a]] && N.head[a] == v)
      && |CutHeads(N, side, N.ArcCount())| == cutSize && |sep| <= cutSize
      && exists which, sat, isSource, isTarget, front, reach ::
           0 <= which < 4 && CutFrom(Cut(side, Count(side), cutSize), N, orders[which], minBalance, sat, isSource, isTarget, front, reach)
  {
    if N.NodeCount() == 1 {
      sep := [0];
      side, cutSize := [], 0;
    } else {
      var c;
      ghost var which, sat, isSource, isTarget, front, reach;
      c, which, sat, isSource, isTarget, front, reach := ComputeInertialFlowCut(N, orders, minBalance);
      side, cutSize := c.isOnSmallerSide, c.cutSize;
      var heads := CollectCutHeads(N, c.isOnSmallerSide);
      CutHeadsMembers(N, side, N.ArcCount());
      CutArcsCarryFlow(c, N, orders[which], minBalance, sat, isSource, isTarget, front, reach);
      sep := SortUnique(heads);
      assert c == Cut(side, Count(side), cutSize);
    }
  }
}
