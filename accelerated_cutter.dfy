/**
 * The cutter-level rules of src/flow_cutter_accelerated.h: which side of a
 * `BasicCutter` is the current cut, how the node-order pointers move, how a
 * pierce node is chosen from the cut front, the scores `PierceNodeScore`
 * gives, and the order in which the sequential `MultiCutter::enum_cuts`
 * reports cuts.
 *
 * Side 0 is the source side and side 1 the target side. A `BasicCutter`
 * keeps, per side, an assimilated set and a reachable set (the classes of
 * `CutterSets`); the assimilated set is contained in the reachable one, so
 * equal counts mean equal sets, and that side's cut front is a cut.
 */
module AcceleratedCutter {
  import opened Graph
  import opened FlowNetwork
  import opened CutterSets

  const IntMin: int := -0x8000_0000
  const IntMax: int := 0x7fff_ffff

  // ------------------------------------------------------------------
  // Pierce scores

  /** The `std::tuple<bool, int, int>` a pierce node is rated with; tuples compare lexicographically, `false < true`. */
  datatype Score = Score(avoids: bool, score: int, secondary: int)

  /** `a < b` on the tuples. */
  predicate Less(a: Score, b: Score)
  {
    || (!a.avoids && b.avoids)
    || (a.avoids == b.avoids && a.score < b.score)
    || (a.avoids == b.avoids && a.score == b.score && a.secondary < b.secondary)
  }

  /** The start value of the maximum in `select_pierce_node`. */
  const Bottom: Score := Score(false, IntMin, IntMin)

  /** The tuple order is a strict total order. */
  lemma LessOrder(a: Score, b: Score, c: Score)
    ensures !Less(a, a)
    ensures Less(a, b) ==> !Less(b, a)
    ensures Less(a, b) && Less(b, c) ==> Less(a, c)
    ensures a == b || Less(a, b) || Less(b, a)
  {
  }

  /** The pierce ratings of `flow_cutter::Config`. */
  datatype PierceRating =
    | MaxTargetMinusSourceHopDist | MaxTargetMinusSourceWeightDist
    | MaxTargetHopDist | MaxTargetWeightDist
    | MinSourceHopDist | MinSourceWeightDist
    | Oldest | Random | MaxArcWeight | MinArcWeight
    | CircularHop | CircularWeight
    | MaxTargetMinusSourceHopDistWithSourceDistTieBreak
    | MaxTargetMinusSourceHopDistWithCloserDistTieBreak

  /** How augmenting paths are avoided. */
  datatype AvoidAugmentingPath = AvoidAndPickBest | DoNotAvoid | AvoidAndPickOldest | AvoidAndPickRandom

  const HashModulo: int := 0x7fff_ffff
  const Word: int := 0x1_0000_0000

  /**
   * The `random_number` lambda: a hash of the node and the side, in
   * 32-bit unsigned arithmetic (`x << 1` and every product and sum wrap
   * modulo 2^32), reduced modulo 2^31 - 1.
   */
  function RandomNumber(hashFactor: nat, hashOffset: nat, x: int, side: int): (r: int)
    ensures 0 <= r < HashModulo
  {
    var key := (2 * x) % Word;
    var key' := if side == 0 then key else (key + 1) % Word;
    ((hashFactor * key' % Word + hashOffset) % Word) % HashModulo
  }

  /**
   * `PierceNodeScore::operator()`: the rating gives `score` (and, for the
   * two tie-break ratings, `secondary`), then the avoid mode decides
   * whether the node avoids an augmenting path and may replace the score.
   */
  function PierceNodeScore(rating: PierceRating, avoid: AvoidAugmentingPath, hashFactor: nat, hashOffset: nat,
                           x: int, side: int, causesAugmentingPath: bool, arcWeight: int, sourceDist: int, targetDist: int): (r: Score)
    ensures r.avoids <==> avoid != DoNotAvoid && !causesAugmentingPath
    ensures avoid == AvoidAndPickOldest && !causesAugmentingPath ==> r.score == IntMax
    ensures avoid == AvoidAndPickRandom && !causesAugmentingPath ==> 0 <= r.score < HashModulo
    ensures rating != MaxTargetMinusSourceHopDistWithSourceDistTieBreak && rating != MaxTargetMinusSourceHopDistWithCloserDistTieBreak
      ==> r.secondary == 0
    ensures rating == Oldest && (avoid == DoNotAvoid || avoid == AvoidAndPickBest || causesAugmentingPath) ==> r.score == 0
  {
    var rated: (int, int) := match rating
      case MaxTargetMinusSourceHopDist | MaxTargetMinusSourceWeightDist => (targetDist - sourceDist, 0)
      case MaxTargetHopDist | MaxTargetWeightDist => (targetDist, 0)
      case MinSourceHopDist | MinSourceWeightDist => (-sourceDist, 0)
      case Oldest => (0, 0)
      case Random => (RandomNumber(hashFactor, hashOffset, x, side), 0)
      case MaxArcWeight => (arcWeight, 0)
      case MinArcWeight => (-arcWeight, 0)
      case CircularHop | CircularWeight => (if side == 0 then -sourceDist else targetDist, 0)
      case MaxTargetMinusSourceHopDistWithSourceDistTieBreak => (targetDist - sourceDist, sourceDist)
      case MaxTargetMinusSourceHopDistWithCloserDistTieBreak =>
        (targetDist - sourceDist, if sourceDist < targetDist then -sourceDist else -targetDist);
    match avoid
    case AvoidAndPickBest => Score(!causesAugmentingPath, rated.0, rated.1)
    case DoNotAvoid => Score(false, rated.0, rated.1)
    case AvoidAndPickOldest => Score(!causesAugmentingPath, if causesAugmentingPath then rated.0 else IntMax, rated.1)
    case AvoidAndPickRandom =>
      Score(!causesAugmentingPath, if causesAugmentingPath then rated.0 else RandomNumber(hashFactor, hashOffset, x, side), rated.1)
  }

  /**
   * Whatever the rating, when augmenting paths are avoided a node that
   * avoids one outranks every node that causes one.
   */
  lemma AvoidersOutrank(rating: PierceRating, avoid: AvoidAugmentingPath, hashFactor: nat, hashOffset: nat,
                        x: int, sideX: int, weightX: int, sourceDistX: int, targetDistX: int,
                        y: int, sideY: int, weightY: int, sourceDistY: int, targetDistY: int)
    requires avoid != DoNotAvoid
    ensures Less(PierceNodeScore(rating, avoid, hashFactor, hashOffset, y, sideY, true, weightY, sourceDistY, targetDistY),
                 PierceNodeScore(rating, avoid, hashFactor, hashOffset, x, sideX, false, weightX, sourceDistX, targetDistX))
  {
  }

  /**
   * With `avoid_and_pick_oldest` and a rating without tie-break, all nodes
   * that avoid an augmenting path score alike, so the first of them on the
   * cut front is kept: the oldest.
   */
  lemma OldestTie(rating: PierceRating, hashFactor: nat, hashOffset: nat,
                  x: int, sideX: int, weightX: int, sourceDistX: int, targetDistX: int,
                  y: int, sideY: int, weightY: int, sourceDistY: int, targetDistY: int)
    requires rating != MaxTargetMinusSourceHopDistWithSourceDistTieBreak && rating != MaxTargetMinusSourceHopDistWithCloserDistTieBreak
    ensures PierceNodeScore(rating, AvoidAndPickOldest, hashFactor, hashOffset, x, sideX, false, weightX, sourceDistX, targetDistX)
         == PierceNodeScore(rating, AvoidAndPickOldest, hashFactor, hashOffset, y, sideY, false, weightY, sourceDistY, targetDistY)
  {
  }

  // ------------------------------------------------------------------
  // Choosing a pierce node from the cut front

  /** The arguments `select_pierce_node` hands to its score: node, side, node count, causes an augmenting path, arc weight. */
  type ScoreFn = (int, int, int, bool, int) -> Score

  /**
   * The first loop of `select_pierce_node` over the arcs of `front`: the
   * head not on the other side with the strictly greatest score so far, and
   * that score; -1 and `Bottom` while there is none.
   */
  function Pick(N: Network, front: seq<int>, other: seq<bool>, otherReach: seq<bool>, weight: seq<int>, score: ScoreFn, side: int): (p: (int, Score))
    requires N.Valid() && |other| == |otherReach| == N.NodeCount() && |weight| == N.ArcCount()
    requires forall k :: 0 <= k < |front| ==> 0 <= front[k] < N.ArcCount()
  {
    if front == [] then (-1, Bottom)
    else
      var m := |front| - 1;
      var best := Pick(N, front[..m], other, otherReach, weight, score, side);
      var a := front[m];
      var y := N.head[a];
      if other[y] then best
      else
        var s := score(y, side, N.NodeCount(), otherReach[y], weight[a]);
        if Less(best.1, s) then (y, s) else best
  }

  /** Front arc `k` is a candidate: its head is not on the other side. */
  ghost predicate Candidate(N: Network, front: seq<int>, other: seq<bool>, k: int)
    requires N.Valid() && |other| == N.NodeCount() && forall j :: 0 <= j < |front| ==> 0 <= front[j] < N.ArcCount()
  {
    && 0 <= k < |front|
    && var a := front[k];
    && 0 <= a < |N.head|
    && !other[N.head[a]]
  }

  /** The score of the head of front arc `k`. */
  function ScoreAt(N: Network, front: seq<int>, otherReach: seq<bool>, weight: seq<int>, score: ScoreFn, side: int, k: int): Score
    requires N.Valid() && |otherReach| == N.NodeCount() && |weight| == N.ArcCount()
    requires 0 <= k < |front| && 0 <= front[k] < N.ArcCount()
  {
    score(N.head[front[k]], side, N.NodeCount(), otherReach[N.head[front[k]]], weight[front[k]])
  }

  /** On a prefix of the front, the candidates and their scores are those of the whole front. */
  lemma PrefixCandidates(N: Network, front: seq<int>, other: seq<bool>, otherReach: seq<bool>, weight: seq<int>, score: ScoreFn, side: int, m: int)
    requires N.Valid() && |other| == |otherReach| == N.NodeCount() && |weight| == N.ArcCount()
    requires forall k :: 0 <= k < |front| ==> 0 <= front[k] < N.ArcCount()
    requires 0 <= m <= |front|
    ensures forall k :: 0 <= k < m ==> front[..m][k] == front[k]
    ensures forall k :: Candidate(N, front[..m], other, k) <==> 0 <= k < m && Candidate(N, front, other, k)
    ensures forall k :: 0 <= k < m ==> ScoreAt(N, front[..m], otherReach, weight, score, side, k) == ScoreAt(N, front, otherReach, weight, score, side, k)
  {
  }

  /** No candidate scores above what the loop keeps. */
  lemma {:induction false} PickIsMax(N: Network, front: seq<int>, other: seq<bool>, otherReach: seq<bool>, weight: seq<int>, score: ScoreFn, side: int)
    requires N.Valid() && |other| == |otherReach| == N.NodeCount() && |weight| == N.ArcCount()
    requires forall k :: 0 <= k < |front| ==> 0 <= front[k] < N.ArcCount()
    ensures var p := Pick(N, front, other, otherReach, weight, score, side);
      forall k :: Candidate(N, front, other, k) ==> !Less(p.1, ScoreAt(N, front, otherReach, weight, score, side, k))
    decreases |front|
  {
    if front != [] {
      var m := |front| - 1;
      var pre := front[..m];
      PickIsMax(N, pre, other, otherReach, weight, score, side);
      PrefixCandidates(N, front, other, otherReach, weight, score, side, m);
      var best := Pick(N, pre, other, otherReach, weight, score, side);
      var p := Pick(N, front, other, otherReach, weight, score, side);
      forall k | Candidate(N, front, other, k)
        ensures !Less(p.1, ScoreAt(N, front, otherReach, weight, score, side, k))
      {
        var sk := ScoreAt(N, front, otherReach, weight, score, side, k);
        if k < m {
          assert Candidate(N, pre, other, k);
          assert !Less(best.1, sk);
          LessOrder(sk, best.1, p.1);
          LessOrder(p.1, sk, best.1);
        } else {
          LessOrder(p.1, sk, best.1);
        }
      }
    }
  }

  /** What the loop keeps is the head of a candidate with that score, and every earlier candidate scores less. */
  lemma {:induction false} PickWitness(N: Network, front: seq<int>, other: seq<bool>, otherReach: seq<bool>, weight: seq<int>, score: ScoreFn, side: int)
    requires N.Valid() && |other| == |otherReach| == N.NodeCount() && |weight| == N.ArcCount()
    requires forall k :: 0 <= k < |front| ==> 0 <= front[k] < N.ArcCount()
    ensures var p := Pick(N, front, other, otherReach, weight, score, side);
      && (p.0 == -1 ==> p.1 == Bottom)
      && (p.0 != -1 ==> exists k :: FirstMaxAt(N, front, other, otherReach, weight, score, side, k, p))
    decreases |front|
  {
    if front != [] {
      var m := |front| - 1;
      var pre := front[..m];
      PickWitness(N, pre, other, otherReach, weight, score, side);
      PickIsMax(N, pre, other, otherReach, weight, score, side);
      PrefixCandidates(N, front, other, otherReach, weight, score, side, m);
      var best := Pick(N, pre, other, otherReach, weight, score, side);
      var p := Pick(N, front, other, otherReach, weight, score, side);
      if p == best {
        if best.0 != -1 {
          var k :| FirstMaxAt(N, pre, other, otherReach, weight, score, side, k, best);
          assert FirstMaxAt(N, front, other, otherReach, weight, score, side, k, p);
        }
      } else {
        forall j | 0 <= j < m && Candidate(N, front, other, j)
          ensures Less(ScoreAt(N, front, otherReach, weight, score, side, j), p.1)
        {
          assert Candidate(N, pre, other, j);
          LessOrder(ScoreAt(N, front, otherReach, weight, score, side, j), best.1, p.1);
        }
        assert FirstMaxAt(N, front, other, otherReach, weight, score, side, m, p);
      }
    }
  }

  /** Front arc `k` is a candidate whose head and score are `p`, and every earlier candidate scores less. */
  ghost predicate FirstMaxAt(N: Network, front: seq<int>, other: seq<bool>, otherReach: seq<bool>, weight: seq<int>, score: ScoreFn, side: int, k: int, p: (int, Score))
    requires N.Valid() && |other| == |otherReach| == N.NodeCount() && |weight| == N.ArcCount()
    requires forall k :: 0 <= k < |front| ==> 0 <= front[k] < N.ArcCount()
  {
    && Candidate(N, front, other, k) && N.head[front[k]] == p.0
    && ScoreAt(N, front, otherReach, weight, score, side, k) == p.1
    && forall j :: 0 <= j < k && Candidate(N, front, other, j) ==> Less(ScoreAt(N, front, otherReach, weight, score, side, j), p.1)
  }

  /**
   * Scored with `PierceNodeScore` under an avoid mode, the kept node avoids
   * an augmenting path whenever some candidate does.
   */
  lemma PickAvoids(N: Network, front: seq<int>, other: seq<bool>, otherReach: seq<bool>, weight: seq<int>, side: int,
                   rating: PierceRating, avoid: AvoidAugmentingPath, hashFactor: nat, hashOffset: nat,
                   sourceDist: seq<int>, targetDist: seq<int>, k: int)
    requires N.Valid() && |other| == |otherReach| == |sourceDist| == |targetDist| == N.NodeCount() && |weight| == N.ArcCount()
    requires forall k :: 0 <= k < |front| ==> 0 <= front[k] < N.ArcCount()
    requires avoid != DoNotAvoid && Candidate(N, front, other, k) && !otherReach[N.head[front[k]]]
    ensures var score: ScoreFn := (x: int, s: int, n: int, causes: bool, w: int) =>
        PierceNodeScore(rating, avoid, hashFactor, hashOffset, x, s, causes, w,
                        if 0 <= x < |sourceDist| then sourceDist[x] else 0, if 0 <= x < |targetDist| then targetDist[x] else 0);
      var p := Pick(N, front, other, otherReach, weight, score, side);
      p.0 != -1 && p.1.avoids && 0 <= p.0 < N.NodeCount() && !otherReach[p.0]
  {
    var score: ScoreFn := (x: int, s: int, n: int, causes: bool, w: int) =>
        PierceNodeScore(rating, avoid, hashFactor, hashOffset, x, s, causes, w,
                        if 0 <= x < |sourceDist| then sourceDist[x] else 0, if 0 <= x < |targetDist| then targetDist[x] else 0);
    PickIsMax(N, front, other, otherReach, weight, score, side);
    PickWitness(N, front, other, otherReach, weight, score, side);
    var p := Pick(N, front, other, otherReach, weight, score, side);
    var y := N.head[front[k]];
    var sk := ScoreAt(N, front, otherReach, weight, score, side, k);
    assert sk == PierceNodeScore(rating, avoid, hashFactor, hashOffset, y, side, false, weight[front[k]], sourceDist[y], targetDist[y]);
    assert !Less(p.1, sk);
    var i :| FirstMaxAt(N, front, other, otherReach, weight, score, side, i, p);
    var z := N.head[front[i]];
    assert p.1 == PierceNodeScore(rating, avoid, hashFactor, hashOffset, z, side, otherReach[z], weight[front[i]], sourceDist[z], targetDist[z]);
  }

  // ------------------------------------------------------------------
  // Cut side rule for two sets of counts

  /** `BasicCutter`: per side an assimilated and a reachable set, the node order and the two order pointers. */
  class BasicCutter {
    const net: Network
    const assimilated: seq<AssimilatedNodeSet>
    const reachable: seq<ReachableNodeSet>
    var nodeOrder: seq<int>
    var orderPointer: seq<int>

    /** Two sides, each set with one flag per node, all flag arrays distinct, and the node order made of nodes. */
    ghost predicate Shape()
      reads this
    {
      && net.Valid() && |assimilated| == |reachable| == |orderPointer| == 2
      && assimilated[0].nodeSet.insideFlag.Length == assimilated[1].nodeSet.insideFlag.Length == net.NodeCount()
      && reachable[0].nodeSet.insideFlag.Length == reachable[1].nodeSet.insideFlag.Length == net.NodeCount()
      && InRange(nodeOrder, net.NodeCount())
    }

    /** The pointers stay within one step outside the order: the source pointer from 0 up, the target pointer from the end down. */
    ghost predicate PointersOk()
      reads this
    {
      |orderPointer| == 2 && 0 <= orderPointer[0] <= |nodeOrder| && -1 <= orderPointer[1] < |nodeOrder|
    }

    /** `x` is assimilated on one of the sides. */
    predicate Assimilated(x: int)
      requires Shape() && 0 <= x < net.NodeCount()
      reads this, assimilated[0].nodeSet, assimilated[1].nodeSet, assimilated[0].nodeSet.insideFlag, assimilated[1].nodeSet.insideFlag
    {
      assimilated[0].nodeSet.insideFlag[x] || assimilated[1].nodeSet.insideFlag[x]
    }

    /** Side `s` has a cut: its reachable set counts no more nodes than its assimilated set, so they are equal. */
    predicate IsCut(s: int)
      requires Shape() && (s == 0 || s == 1)
      reads this, assimilated[s].nodeSet, reachable[s].nodeSet
    {
      reachable[s].nodeSet.nodeCountInside == assimilated[s].nodeSet.nodeCountInside
    }

    /** The assimilated count of side `s`. */
    function AssimilatedCount(s: int): int
      requires Shape() && (s == 0 || s == 1)
      reads this, assimilated[s].nodeSet
    {
      assimilated[s].nodeSet.nodeCountInside
    }

    /**
     * `get_current_cut_side()`: a side that has a cut whenever one does;
     * of two sides with cuts the one with fewer assimilated nodes, the
     * source side on a tie.
     */
    function GetCurrentCutSide(): (side: int)
      requires Shape()
      reads this, assimilated[0].nodeSet, assimilated[1].nodeSet, reachable[0].nodeSet, reachable[1].nodeSet
      ensures side == 0 || side == 1
      ensures (IsCut(0) || IsCut(1)) ==> IsCut(side)
      ensures IsCut(0) && IsCut(1) ==> AssimilatedCount(side) <= AssimilatedCount(1 - side)
      ensures IsCut(0) && IsCut(1) && AssimilatedCount(0) == AssimilatedCount(1) ==> side == 0
      ensures !IsCut(0) ==> side == 1
    {
      if IsCut(0) && (!IsCut(1) || AssimilatedCount(0) <= AssimilatedCount(1)) then 0 else 1
    }

    /** `get_current_smaller_cut_side_size()`: with cuts on both sides, the smaller assimilated count. */
    function GetCurrentSmallerCutSideSize(): (r: int)
      requires Shape()
      reads this, assimilated[0].nodeSet, assimilated[1].nodeSet, reachable[0].nodeSet, reachable[1].nodeSet
      ensures IsCut(0) && IsCut(1) ==> r == if AssimilatedCount(0) <= AssimilatedCount(1) then AssimilatedCount(0) else AssimilatedCount(1)
      ensures r == AssimilatedCount(0) || r == AssimilatedCount(1)
    {
      AssimilatedCount(GetCurrentCutSide())
    }

    /**
     * `get_next_node_from_order(side, force)`: move the pointer of `side`
     * (up for the source side, down for the target side) over assimilated
     * nodes, while the pointers have not crossed and, unless forced, the
     * order threshold `exceeded` is not reached. It returns the first node
     * assimilated on neither side, with the pointer left on it, or -1.
     */
    method GetNextNodeFromOrder(side: int, force: bool, exceeded: (int, int) -> bool) returns (x: int)
      requires Shape() && PointersOk() && (side == 0 || side == 1)
      modifies this`orderPointer
      ensures Shape() && PointersOk() && orderPointer[1 - side] == old(orderPointer[1 - side])
      ensures side == 0 ==> old(orderPointer[0]) <= orderPointer[0]
      ensures side == 1 ==> orderPointer[1] <= old(orderPointer[1])
      ensures side == 0 ==> forall q :: old(orderPointer[0]) <= q < orderPointer[0] ==> Assimilated(nodeOrder[q])
      ensures side == 1 ==> forall q :: orderPointer[1] < q <= old(orderPointer[1]) ==> Assimilated(nodeOrder[q])
      ensures x != -1 ==> && orderPointer[0] <= orderPointer[1] && 0 <= orderPointer[side] < |nodeOrder|
                          && x == nodeOrder[orderPointer[side]] && !Assimilated(x)
                          && (force || !exceeded(side, orderPointer[side]))
      ensures x == -1 ==> orderPointer[0] > orderPointer[1] || (!force && exceeded(side, orderPointer[side]))
    {
      while orderPointer[0] <= orderPointer[1] && (force || !exceeded(side, orderPointer[side]))
        invariant Shape() && PointersOk() && orderPointer[1 - side] == old(orderPointer[1 - side])
        invariant side == 0 ==> old(orderPointer[0]) <= orderPointer[0]
        invariant side == 1 ==> orderPointer[1] <= old(orderPointer[1])
        invariant side == 0 ==> forall q :: old(orderPointer[0]) <= q < orderPointer[0] ==> Assimilated(nodeOrder[q])
        invariant side == 1 ==> forall q :: orderPointer[1] < q <= old(orderPointer[1]) ==> Assimilated(nodeOrder[q])
        decreases orderPointer[1] - orderPointer[0]
      {
        var y := nodeOrder[orderPointer[side]];
        if !assimilated[0].nodeSet.insideFlag[y] && !assimilated[1].nodeSet.insideFlag[y] {
          return y;
        }
        if side == 0 {
          orderPointer := orderPointer[0 := orderPointer[0] + 1];
        } else {
          orderPointer := orderPointer[1 := orderPointer[1] - 1];
        }
      }
      return -1;
    }

    /**
     * `select_pierce_node(graph, side, score)`: the first head of the cut
     * front of `side` that is not on the other side and has the strictly
     * greatest score (`Pick`); if there is none, the next node of the order,
     * forced past the threshold.
     */
    method SelectPierceNode(side: int, weight: seq<int>, score: ScoreFn, exceeded: (int, int) -> bool) returns (pierce: int)
      requires Shape() && PointersOk() && (side == 0 || side == 1) && |weight| == net.ArcCount()
      requires forall k :: 0 <= k < |assimilated[side].front| ==> 0 <= assimilated[side].front[k] < net.ArcCount()
      modifies this`orderPointer
      ensures Shape() && PointersOk()
      ensures var p := Pick(net, assimilated[side].front, assimilated[1 - side].nodeSet.insideFlag[..],
                            reachable[1 - side].nodeSet.insideFlag[..], weight, score, side);
        && (p.0 != -1 ==> pierce == p.0 && orderPointer == old(orderPointer))
        && (p.0 == -1 && pierce != -1 ==> orderPointer[0] <= orderPointer[1] && pierce == nodeOrder[orderPointer[side]] && !Assimilated(pierce))
        && (p.0 == -1 && pierce == -1 ==> orderPointer[0] > orderPointer[1])
    {
      var front := assimilated[side].front;
      var other := assimilated[1 - side].nodeSet.insideFlag;
      var otherReach := reachable[1 - side].nodeSet.insideFlag;
      pierce := -1;
      var maxScore := Bottom;
      for i := 0 to |front|
        invariant (pierce, maxScore) == Pick(net, front[..i], other[..], otherReach[..], weight, score, side)
      {
        assert front[..i + 1][..i] == front[..i];
        var xy := front[i];
        var y := net.head[xy];
        if !other[y] {
          var s := score(y, side, net.NodeCount(), otherReach[y], weight[xy]);
          if Less(maxScore, s) {
            maxScore := s;
            pierce := y;
          }
        }
      }
      assert front[..|front|] == front;
      if pierce == -1 {
        pierce := GetNextNodeFromOrder(side, true, exceeded);
      }
    }
  }

  // ------------------------------------------------------------------
  // The sequential enum_cuts

  /** What `enum_cuts` reads of one cutter after a round: finished or not, active or not, its flow, whether it has a cut and its smaller side. */
  datatype CutterView = CutterView(notFinished: bool, active: bool, flow: int, cutAvailable: bool, smallerSide: int)

  /** A cutter `update_min_flow` looks at. */
  predicate Counted(v: CutterView)
  {
    v.notFinished && v.active
  }

  /** The least flow of the counted cutters, `INT_MAX` when there is none. */
  function MinFlow(views: seq<CutterView>): (m: int)
    requires forall i :: 0 <= i < |views| ==> views[i].flow < IntMax
    ensures m <= IntMax && forall i :: 0 <= i < |views| && Counted(views[i]) ==> m <= views[i].flow
    ensures m == IntMax <==> forall i :: 0 <= i < |views| ==> !Counted(views[i])
    ensures m != IntMax ==> exists i :: 0 <= i < |views| && Counted(views[i]) && views[i].flow == m
  {
    if views == [] then IntMax
    else
      var k := |views| - 1;
      var m := MinFlow(views[..k]);
      assert forall i :: 0 <= i < k ==> views[..k][i] == views[i];
      if Counted(views[k]) && views[k].flow < m then views[k].flow else m
  }

  /** Every counted cutter with flow `m` has a cut. */
  predicate AllHaveCut(views: seq<CutterView>, m: int)
  {
    forall i :: 0 <= i < |views| && Counted(views[i]) && views[i].flow == m ==> views[i].cutAvailable
  }

  /**
   * `update_min_flow()`: the least flow of the counted cutters and whether
   * all counted cutters with it have a cut; with none counted, `INT_MAX`
   * and the flag as it was.
   */
  method UpdateMinFlow(views: seq<CutterView>, allBefore: bool) returns (minFlow: int, all: bool)
    requires forall i :: 0 <= i < |views| ==> views[i].flow < IntMax
    ensures minFlow == MinFlow(views)
    ensures minFlow != IntMax ==> (all <==> AllHaveCut(views, minFlow))
    ensures minFlow == IntMax ==> all == allBefore
  {
    minFlow := IntMax;
    all := allBefore;
    for i := 0 to |views|
      invariant minFlow == MinFlow(views[..i])
      invariant minFlow != IntMax ==> (all <==> AllHaveCut(views[..i], minFlow))
      invariant minFlow == IntMax ==> all == allBefore
    {
      var v := views[i];
      ghost var m := if Counted(v) && v.flow < minFlow then v.flow else minFlow;
      assert MinFlow(views[..i + 1]) == m by {
        assert views[..i + 1][..i] == views[..i];
      }
      AllHaveCutStep(views, i, m);
      if Counted(v) {
        if v.flow < minFlow {
          all := v.cutAvailable;
          minFlow := v.flow;
        } else if v.flow == minFlow {
          all := all && v.cutAvailable;
        }
      }
    }
    assert views[..|views|] == views;
  }

  /** The cutters up to `i` with flow `m` all have a cut when those before `i` do and cutter `i` does if it counts with flow `m`. */
  lemma AllHaveCutStep(views: seq<CutterView>, i: int, m: int)
    requires 0 <= i < |views|
    ensures AllHaveCut(views[..i + 1], m) <==> AllHaveCut(views[..i], m) && (Counted(views[i]) && views[i].flow == m ==> views[i].cutAvailable)
  {
    assert views[..i + 1][..i] == views[..i];
    assert views[..i + 1][i] == views[i];
  }

  /**
   * The best-cutter loop: among the unfinished cutters with flow `m`, the
   * first with the greatest smaller side, provided it exceeds 0; else -1
   * and weight 0. Activity is not looked at here.
   */
  method BestCutter(views: seq<CutterView>, m: int) returns (best: int, weight: int)
    ensures weight >= 0
    ensures best == -1 <==> weight == 0
    ensures best != -1 ==> 0 <= best < |views| && views[best].notFinished && views[best].flow == m && views[best].smallerSide == weight
    ensures forall i :: 0 <= i < |views| && views[i].notFinished && views[i].flow == m ==> views[i].smallerSide <= weight
    ensures best != -1 ==> forall i :: 0 <= i < best && views[i].notFinished && views[i].flow == m ==> views[i].smallerSide < weight
  {
    best, weight := -1, 0;
    for i := 0 to |views|
      invariant weight >= 0 && (best == -1 <==> weight == 0)
      invariant best != -1 ==> 0 <= best < i && views[best].notFinished && views[best].flow == m && views[best].smallerSide == weight
      invariant forall j :: 0 <= j < i && views[j].notFinished && views[j].flow == m ==> views[j].smallerSide <= weight
      invariant best != -1 ==> forall j :: 0 <= j < best && views[j].notFinished && views[j].flow == m ==> views[j].smallerSide < weight
    {
      if views[i].notFinished && views[i].flow == m && views[i].smallerSide > weight {
        best, weight := i, views[i].smallerSide;
      }
    }
  }

  /** A reported cut: the round it was reported in, the cutter and its smaller side. */
  datatype Report = Report(round: int, cutter: int, size: int)

  /** The report of round `r` is the best cutter of those with the least flow, all of which have a cut. */
  ghost predicate ReportOk(rounds: seq<seq<CutterView>>, rep: Report)
    requires forall r, i :: 0 <= r < |rounds| && 0 <= i < |rounds[r]| ==> rounds[r][i].flow < IntMax
  {
    && 0 <= rep.round < |rounds|
    && var views := rounds[rep.round];
    && var m := MinFlow(views);
    && m != IntMax && AllHaveCut(views, m)
    && 0 <= rep.cutter < |views| && views[rep.cutter].notFinished && views[rep.cutter].flow == m
    && views[rep.cutter].smallerSide == rep.size
    && forall i :: 0 <= i < |views| && views[i].notFinished && views[i].flow == m ==> views[i].smallerSide <= rep.size
  }

  /** The reports come in later rounds with strictly greater smaller sides. */
  ghost predicate Increasing(reps: seq<Report>)
  {
    forall i, j :: 0 <= i < j < |reps| ==> reps[i].round < reps[j].round && reps[i].size < reps[j].size
  }

  /**
   * The sequential branch of `enum_cuts`, with the state of the cutters
   * after each round of advancing given as `rounds`: after each round,
   * stop when no cutter is counted; when every counted cutter with the
   * least flow has a cut, report the best of them if its smaller side
   * exceeds the last one reported. So the reported sizes strictly increase.
   */
  method EnumCuts(initial: seq<CutterView>, rounds: seq<seq<CutterView>>) returns (reports: seq<Report>)
    requires forall i :: 0 <= i < |initial| ==> initial[i].flow < IntMax
    requires forall r, i :: 0 <= r < |rounds| && 0 <= i < |rounds[r]| ==> rounds[r][i].flow < IntMax
    ensures Increasing(reports) && forall k :: 0 <= k < |reports| ==> ReportOk(rounds, reports[k]) && reports[k].size > 0
  {
    var minFlow, all := UpdateMinFlow(initial, true);
    var current := 0;
    reports := [];
    var r := 0;
    while r < |rounds|
      invariant 0 <= r <= |rounds| && current >= 0
      invariant Increasing(reports) && forall k :: 0 <= k < |reports| ==> ReportOk(rounds, reports[k]) && reports[k].size > 0
      invariant forall k :: 0 <= k < |reports| ==> reports[k].round < r && reports[k].size <= current
    {
      minFlow, all := UpdateMinFlow(rounds[r], all);
      if minFlow == IntMax {
        return;
      }
      if all {
        var best, weight := BestCutter(rounds[r], minFlow);
        if weight > current {
          current := weight;
          reports := reports + [Report(r, best, weight)];
        }
      }
      r := r + 1;
    }
  }
}
