/**
 * The phase structure shared by the two unit-capacity Dinic implementations,
 * src/dinic.h and src/flow_cutter_dinic.h, stated over sequences.
 *
 * A phase first runs a breadth-first search level by level from the seed
 * nodes over unsaturated arcs. It never enters a source. It notes whether a
 * target is adjacent, pushes every other newly found node into the queue
 * once, and blocks every arc that is saturated or leads to a source or to a
 * node of the same or a lower level. The arcs left unblocked out of queued
 * nodes form the level graph. A depth-first search then augments along
 * unblocked paths, blocking the arcs it retreats over or augments along.
 *
 * The search is described with a ghost depth per queued node and, for each
 * pushed node, the arc that first reached it.
 */
module LevelGraph {
  import opened Graph
  import opened FlowNetwork
  import opened FordFulkerson

  /** The fixed input of a phase: the network, the sources (never entered), the targets, and the seeds the search starts from. */
  datatype Instance = Instance(N: Network, src: seq<bool>, tgt: seq<bool>, front: seq<int>)
  {
    ghost predicate Valid()
    {
      && N.Valid() && |src| == |tgt| == N.NodeCount()
      && InRange(front, N.NodeCount()) && Distinct(front)
      && (forall k :: 0 <= k < |front| ==> src[front[k]])
    }
  }

  /**
   * The state of the breadth-first search: the queue so far, the ghost
   * depth and first arc of each pushed node, the pushed and blocked flags,
   * and whether a target was seen (with the arc it was seen over).
   */
  datatype Search = Search(queue: seq<int>, depth: seq<int>, pushed: seq<bool>, parent: seq<int>, blocked: seq<bool>, reached: bool, hit: int)

  ghost predicate Sized(I: Instance, sat: seq<bool>, S: Search)
    requires I.Valid()
  {
    && |sat| == I.N.ArcCount() && |S.blocked| == I.N.ArcCount()
    && |S.depth| == |S.pushed| == |S.parent| == I.N.NodeCount()
  }

  /** The queue holds the seeds and then every pushed node once; pushed nodes are neither sources nor targets. */
  ghost predicate QueueOk(I: Instance, S: Search)
    requires I.Valid() && |S.depth| == |S.pushed| == I.N.NodeCount()
  {
    && |I.front| <= |S.queue| && S.queue[..|I.front|] == I.front
    && Distinct(S.queue) && InRange(S.queue, I.N.NodeCount())
    && (forall k :: |I.front| <= k < |S.queue| ==> S.pushed[S.queue[k]])
    && (forall u :: 0 <= u < I.N.NodeCount() && S.pushed[u] ==> u in S.queue && !I.src[u] && !I.tgt[u] && S.depth[u] >= 1)
    && (forall k :: 0 <= k < |I.front| ==> S.depth[I.front[k]] == 0)
  }

  /**
   * The queue is in level order while level `ell` is scanned: the entries
   * before `begin` are shallower, those up to `levelEnd` are at level `ell`,
   * the rest one deeper; no entry is deeper than its position.
   */
  ghost predicate Layers(S: Search, begin: int, levelEnd: int, ell: int)
  {
    && InRange(S.queue, |S.depth|)
    && 0 <= begin <= levelEnd <= |S.queue| && 0 <= ell
    && forall k :: 0 <= k < |S.queue| ==>
         && 0 <= S.depth[S.queue[k]] <= k && S.depth[S.queue[k]] <= ell + 1
         && (S.depth[S.queue[k]] < ell <==> k < begin)
         && (S.depth[S.queue[k]] <= ell <==> k < levelEnd)
  }

  /** Each pushed node was reached over an unsaturated arc from a queued node one level up. */
  ghost predicate ParentOk(I: Instance, sat: seq<bool>, S: Search)
    requires I.Valid() && Sized(I, sat, S)
  {
    forall u {:trigger S.parent[u]} :: 0 <= u < I.N.NodeCount() && S.pushed[u] ==>
      && 0 <= S.parent[u] < I.N.ArcCount() && I.N.head[S.parent[u]] == u && !sat[S.parent[u]]
      && I.N.tail[S.parent[u]] in S.queue && S.depth[I.N.tail[S.parent[u]]] + 1 == S.depth[u]
  }

  /** An unsaturated arc into a target that is not a source. */
  ghost predicate TargetArc(I: Instance, sat: seq<bool>, a: int)
    requires I.Valid() && |sat| == I.N.ArcCount() && 0 <= a < I.N.ArcCount()
  {
    !sat[a] && I.tgt[I.N.head[a]] && !I.src[I.N.head[a]]
  }

  /**
   * What scanning the arc `a` leaves behind. It is blocked iff it is
   * saturated, or its head is a source or a node at most as deep as its
   * tail. An unsaturated arc to any other node that is not a target has its
   * head pushed at most one level deeper. One to a target that is not a
   * source records that a target was reached.
   */
  ghost predicate Rule(I: Instance, sat: seq<bool>, S: Search, a: int)
    requires I.Valid() && Sized(I, sat, S) && 0 <= a < I.N.ArcCount()
  {
    var x, y := I.N.tail[a], I.N.head[a];
    && (S.blocked[a] <==> sat[a] || I.src[y] || (S.pushed[y] && S.depth[y] <= S.depth[x]))
    && (!sat[a] && !I.src[y] && !I.tgt[y] ==> S.pushed[y] && S.depth[y] <= S.depth[x] + 1)
    && (TargetArc(I, sat, a) ==> S.reached)
  }

  /** The arcs scanned once the first `i` queue entries and the first `j` out-arcs of entry `i` are done. */
  ghost predicate ScannedArc(I: Instance, Q: seq<int>, i: int, j: int, a: int)
    requires I.Valid() && 0 <= a < I.N.ArcCount()
  {
    || (0 <= i <= |Q| && I.N.tail[a] in Q[..i])
    || (0 <= i < |Q| && I.N.tail[a] == Q[i] && 0 <= Q[i] < I.N.NodeCount()
        && 0 <= j <= |I.N.outArcs[Q[i]]| && a in I.N.outArcs[Q[i]][..j])
  }

  /** Appending to the queue does not change which arcs count as scanned before an existing entry. */
  lemma ScannedGrow(I: Instance, Q: seq<int>, y: int, i: int, j: int)
    requires I.Valid() && 0 <= i < |Q|
    ensures forall b :: 0 <= b < I.N.ArcCount() ==> (ScannedArc(I, Q + [y], i, j, b) <==> ScannedArc(I, Q, i, j, b))
  {
    assert (Q + [y])[..i] == Q[..i];
  }

  ghost predicate Scanned(I: Instance, sat: seq<bool>, S: Search, i: int, j: int)
    requires I.Valid() && Sized(I, sat, S) && 0 <= i <= |S.queue|
  {
    forall a :: 0 <= a < I.N.ArcCount() && ScannedArc(I, S.queue, i, j, a) ==> Rule(I, sat, S, a)
  }

  /** Only scanned arcs are blocked. */
  ghost predicate Untouched(I: Instance, S: Search, i: int, j: int)
    requires I.Valid() && |S.blocked| == I.N.ArcCount() && 0 <= i <= |S.queue|
  {
    forall a :: 0 <= a < I.N.ArcCount() && S.blocked[a] ==> ScannedArc(I, S.queue, i, j, a)
  }

  /** A reached target is witnessed by an arc out of a queued node. */
  ghost predicate HitOk(I: Instance, sat: seq<bool>, S: Search)
    requires I.Valid() && |sat| == I.N.ArcCount()
  {
    S.reached ==> 0 <= S.hit < I.N.ArcCount() && I.N.tail[S.hit] in S.queue && TargetArc(I, sat, S.hit)
  }

  /** The search while it scans out-arc `j` of queue entry `i` on level `ell`, which spans `begin..levelEnd-1`. */
  ghost predicate BfsAt(I: Instance, sat: seq<bool>, S: Search, begin: int, levelEnd: int, ell: int, i: int, j: int)
    requires I.Valid()
  {
    && Sized(I, sat, S) && QueueOk(I, S) && Layers(S, begin, levelEnd, ell) && ParentOk(I, sat, S)
    && begin <= i <= levelEnd
    && (i < levelEnd ==> 0 <= j <= |I.N.outArcs[S.queue[i]]|) && (i == levelEnd ==> j == 0)
    && Scanned(I, sat, S, i, j) && Untouched(I, S, i, j) && HitOk(I, sat, S)
  }

  /** The level flags while level `ell` is scanned: the sources and the pushed nodes at most `ell` deep. */
  ghost predicate Marked(I: Instance, S: Search, level: seq<bool>, ell: int)
    requires I.Valid() && |S.depth| == |S.pushed| == I.N.NodeCount()
  {
    |level| == I.N.NodeCount() && forall u :: 0 <= u < I.N.NodeCount() ==> (level[u] <==> I.src[u] || (S.pushed[u] && S.depth[u] <= ell))
  }

  /** The search before it starts: only the seeds are queued, nothing is pushed or blocked. */
  ghost function Start(I: Instance): (S: Search)
    requires I.Valid()
  {
    Search(I.front, seq(I.N.NodeCount(), _ => 0), seq(I.N.NodeCount(), _ => false), seq(I.N.NodeCount(), _ => 0),
           seq(I.N.ArcCount(), _ => false), false, 0)
  }

  lemma StartOk(I: Instance, sat: seq<bool>)
    requires I.Valid() && |sat| == I.N.ArcCount()
    ensures BfsAt(I, sat, Start(I), 0, |I.front|, 0, 0, 0)
    ensures Marked(I, Start(I), I.src, -1)
  {
    var S := Start(I);
    forall a | 0 <= a < I.N.ArcCount() ensures !ScannedArc(I, S.queue, 0, 0, a) {
      assert |S.queue[..0]| == 0;
      if 0 < |S.queue| {
        assert |I.N.outArcs[S.queue[0]][..0]| == 0;
      }
    }
  }

  /**
   * The outcome of scanning the out-arc `a` of a node on level `ell`:
   * block it, note the target, push its head one level deeper, or nothing.
   */
  ghost function ScanArc(I: Instance, sat: seq<bool>, S: Search, a: int, ell: int): Search
    requires I.Valid() && Sized(I, sat, S) && 0 <= a < I.N.ArcCount()
  {
    var y := I.N.head[a];
    if sat[a] || I.src[y] || (S.pushed[y] && S.depth[y] <= ell) then S.(blocked := S.blocked[a := true])
    else if I.tgt[y] then S.(reached := true, hit := a)
    else if !S.pushed[y] then S.(queue := S.queue + [y], pushed := S.pushed[y := true], depth := S.depth[y := ell + 1], parent := S.parent[y := a])
    else S
  }

  /** What scanning out-arc `j` of queue entry `i` on level `ell` needs. */
  ghost predicate ScanReady(I: Instance, sat: seq<bool>, S: Search, ell: int, i: int, j: int)
    requires I.Valid()
  {
    && Sized(I, sat, S) && QueueOk(I, S)
    && 0 <= i < |S.queue| && 0 <= j < |I.N.outArcs[S.queue[i]]| && S.depth[S.queue[i]] == ell
  }

  /** Scanning an arc pushes only to level `ell + 1`, so the level flags of `ell` stay as they are. */
  lemma ScanMarked(I: Instance, sat: seq<bool>, S: Search, level: seq<bool>, a: int, ell: int)
    requires I.Valid() && Sized(I, sat, S) && 0 <= a < I.N.ArcCount() && Marked(I, S, level, ell)
    ensures Marked(I, ScanArc(I, sat, S, a, ell), level, ell)
  {
  }

  lemma ReadyAt(I: Instance, sat: seq<bool>, S: Search, begin: int, levelEnd: int, ell: int, i: int, j: int)
    requires I.Valid() && BfsAt(I, sat, S, begin, levelEnd, ell, i, j) && i < levelEnd && j < |I.N.outArcs[S.queue[i]]|
    ensures ScanReady(I, sat, S, ell, i, j)
  {
  }

  /** The arcs scanned before `out[x][j]` do not include it. */
  lemma FreshArc(I: Instance, S: Search, i: int, j: int)
    requires I.Valid() && Distinct(S.queue) && InRange(S.queue, I.N.NodeCount()) && 0 <= i < |S.queue|
    requires 0 <= j < |I.N.outArcs[S.queue[i]]|
    ensures 0 <= I.N.outArcs[S.queue[i]][j] < I.N.ArcCount()
    ensures !ScannedArc(I, S.queue, i, j, I.N.outArcs[S.queue[i]][j])
    ensures forall b :: 0 <= b < I.N.ArcCount() && ScannedArc(I, S.queue, i, j + 1, b) ==> ScannedArc(I, S.queue, i, j, b) || b == I.N.outArcs[S.queue[i]][j]
  {
    var x := S.queue[i];
    var a := I.N.outArcs[x][j];
    assert I.N.tail[a] == x;
    forall k | 0 <= k < i ensures S.queue[..i][k] != x {
      assert S.queue[k] != S.queue[i];
    }
    assert Distinct(I.N.outArcs[x]);
    assert I.N.outArcs[x][..j + 1] == I.N.outArcs[x][..j] + [a];
  }

  /** Scanning one arc keeps the search state. */
  lemma ScanArcStep(I: Instance, sat: seq<bool>, S: Search, begin: int, levelEnd: int, ell: int, i: int, j: int)
    requires I.Valid() && BfsAt(I, sat, S, begin, levelEnd, ell, i, j) && i < levelEnd && j < |I.N.outArcs[S.queue[i]]|
    ensures 0 <= I.N.outArcs[S.queue[i]][j] < I.N.ArcCount()
    ensures BfsAt(I, sat, ScanArc(I, sat, S, I.N.outArcs[S.queue[i]][j], ell), begin, levelEnd, ell, i, j + 1)
  {
    var x := S.queue[i];
    var a := I.N.outArcs[x][j];
    var y := I.N.head[a];
    FreshArc(I, S, i, j);
    assert S.depth[x] == ell;
    var S' := ScanArc(I, sat, S, a, ell);
    if sat[a] || I.src[y] || (S.pushed[y] && S.depth[y] <= ell) {
      BlockStep(I, sat, S, begin, levelEnd, ell, i, j);
    } else if I.tgt[y] {
      HitStep(I, sat, S, begin, levelEnd, ell, i, j);
    } else if !S.pushed[y] {
      PushStep(I, sat, S, begin, levelEnd, ell, i, j);
    } else {
      forall b | 0 <= b < I.N.ArcCount() && ScannedArc(I, S'.queue, i, j + 1, b) ensures Rule(I, sat, S', b) {
        if b != a {
          assert ScannedArc(I, S.queue, i, j, b);
        }
      }
    }
  }

  lemma BlockStep(I: Instance, sat: seq<bool>, S: Search, begin: int, levelEnd: int, ell: int, i: int, j: int)
    requires I.Valid() && BfsAt(I, sat, S, begin, levelEnd, ell, i, j) && i < levelEnd && j < |I.N.outArcs[S.queue[i]]|
    requires var a := I.N.outArcs[S.queue[i]][j];
      (0 <= a < I.N.ArcCount() && (sat[a] || I.src[I.N.head[a]] || (S.pushed[I.N.head[a]] && S.depth[I.N.head[a]] <= ell)))
    ensures BfsAt(I, sat, S.(blocked := S.blocked[I.N.outArcs[S.queue[i]][j] := true]), begin, levelEnd, ell, i, j + 1)
  {
    assert S.depth[S.queue[i]] == ell;
    BlockRules(I, sat, S, ell, i, j);
  }

  /** Blocking the arc being scanned keeps the rules of the arcs scanned so far and gives it its own. */
  lemma BlockRules(I: Instance, sat: seq<bool>, S: Search, ell: int, i: int, j: int)
    requires I.Valid() && Sized(I, sat, S) && QueueOk(I, S)
    requires 0 <= i < |S.queue| && 0 <= j < |I.N.outArcs[S.queue[i]]| && S.depth[S.queue[i]] == ell
    requires Scanned(I, sat, S, i, j) && Untouched(I, S, i, j)
    requires var a := I.N.outArcs[S.queue[i]][j];
      (0 <= a < I.N.ArcCount() && (sat[a] || I.src[I.N.head[a]] || (S.pushed[I.N.head[a]] && S.depth[I.N.head[a]] <= ell)))
    ensures var S' := S.(blocked := S.blocked[I.N.outArcs[S.queue[i]][j] := true]);
      Scanned(I, sat, S', i, j + 1) && Untouched(I, S', i, j + 1)
  {
    var x := S.queue[i];
    var a := I.N.outArcs[x][j];
    var S' := S.(blocked := S.blocked[a := true]);
    FreshArc(I, S, i, j);
    forall b | 0 <= b < I.N.ArcCount() && ScannedArc(I, S.queue, i, j + 1, b) ensures Rule(I, sat, S', b) {
      if b != a {
        assert Rule(I, sat, S, b);
      }
    }
    assert I.N.outArcs[x][..j + 1] == I.N.outArcs[x][..j] + [a];
    forall b | 0 <= b < I.N.ArcCount() && S'.blocked[b] ensures ScannedArc(I, S.queue, i, j + 1, b) {
      if b != a {
        assert ScannedArc(I, S.queue, i, j, b);
      }
    }
  }

  lemma HitStep(I: Instance, sat: seq<bool>, S: Search, begin: int, levelEnd: int, ell: int, i: int, j: int)
    requires I.Valid() && BfsAt(I, sat, S, begin, levelEnd, ell, i, j) && i < levelEnd && j < |I.N.outArcs[S.queue[i]]|
    requires var a := I.N.outArcs[S.queue[i]][j];
      (0 <= a < I.N.ArcCount() && !(sat[a] || I.src[I.N.head[a]] || (S.pushed[I.N.head[a]] && S.depth[I.N.head[a]] <= ell)) && I.tgt[I.N.head[a]])
    ensures BfsAt(I, sat, S.(reached := true, hit := I.N.outArcs[S.queue[i]][j]), begin, levelEnd, ell, i, j + 1)
  {
    var x := S.queue[i];
    var a := I.N.outArcs[x][j];
    var S' := S.(reached := true, hit := a);
    FreshArc(I, S, i, j);
    assert I.N.tail[a] in S.queue;
    forall b | 0 <= b < I.N.ArcCount() && ScannedArc(I, S'.queue, i, j + 1, b) ensures Rule(I, sat, S', b) {
      if b != a {
        assert ScannedArc(I, S.queue, i, j, b);
        assert Rule(I, sat, S, b);
      }
    }
  }

  lemma PushStep(I: Instance, sat: seq<bool>, S: Search, begin: int, levelEnd: int, ell: int, i: int, j: int)
    requires I.Valid() && BfsAt(I, sat, S, begin, levelEnd, ell, i, j) && i < levelEnd && j < |I.N.outArcs[S.queue[i]]|
    requires var a := I.N.outArcs[S.queue[i]][j];
      (0 <= a < I.N.ArcCount() && !(sat[a] || I.src[I.N.head[a]] || (S.pushed[I.N.head[a]] && S.depth[I.N.head[a]] <= ell)) && !I.tgt[I.N.head[a]] && !S.pushed[I.N.head[a]])
    ensures var a := I.N.outArcs[S.queue[i]][j]; var y := I.N.head[a];
      BfsAt(I, sat, S.(queue := S.queue + [y], pushed := S.pushed[y := true], depth := S.depth[y := ell + 1], parent := S.parent[y := a]),
            begin, levelEnd, ell, i, j + 1)
  {
    var x := S.queue[i];
    var a := I.N.outArcs[x][j];
    var y := I.N.head[a];
    var S' := S.(queue := S.queue + [y], pushed := S.pushed[y := true], depth := S.depth[y := ell + 1], parent := S.parent[y := a]);
    FreshArc(I, S, i, j);
    assert S.depth[x] == ell;
    PushFresh(I, S, y);
    PushQueue(I, S, S', y, ell);
    PushLayers(S, S', begin, levelEnd, ell, y);
    PushParent(I, sat, S, S', i, a, ell);
    PushRules(I, sat, S, S', ell, i, j);
    assert HitOk(I, sat, S') by {
      assert S'.queue[..|S.queue|] == S.queue;
    }
  }

  /** The node pushed is not yet queued. */
  lemma PushFresh(I: Instance, S: Search, y: int)
    requires I.Valid() && |S.depth| == |S.pushed| == I.N.NodeCount() && QueueOk(I, S)
    requires 0 <= y < I.N.NodeCount() && !I.src[y] && !S.pushed[y]
    ensures y !in S.queue
  {
    forall k | 0 <= k < |S.queue| ensures S.queue[k] != y {
      if k < |I.front| {
        assert S.queue[..|I.front|][k] == I.front[k];
      }
    }
  }

  lemma PushQueue(I: Instance, S: Search, S': Search, y: int, ell: int)
    requires I.Valid() && |S.depth| == |S.pushed| == I.N.NodeCount() && QueueOk(I, S)
    requires 0 <= y < I.N.NodeCount() && !I.src[y] && !I.tgt[y] && y !in S.queue && 0 <= ell
    requires S'.queue == S.queue + [y] && S'.pushed == S.pushed[y := true] && S'.depth == S.depth[y := ell + 1]
    ensures QueueOk(I, S')
  {
    assert S'.queue[..|I.front|] == I.front by {
      assert S'.queue[..|I.front|] == S.queue[..|I.front|];
    }
    DistinctAppend(S.queue, y);
    assert InRange(S'.queue, I.N.NodeCount());
    forall k | |I.front| <= k < |S'.queue| ensures S'.pushed[S'.queue[k]] {
      if k < |S.queue| {
        assert S.pushed[S.queue[k]];
      }
    }
    forall u | 0 <= u < I.N.NodeCount() && S'.pushed[u] ensures u in S'.queue && !I.src[u] && !I.tgt[u] && S'.depth[u] >= 1 {
      if u != y {
        assert u in S.queue;
      }
    }
    forall k | 0 <= k < |I.front| ensures S'.depth[I.front[k]] == 0 {
      assert S.queue[..|I.front|][k] == I.front[k];
    }
  }

  lemma DistinctAppend(s: seq<int>, y: int)
    requires Distinct(s) && y !in s
    ensures Distinct(s + [y])
  {
  }

  lemma PushLayers(S: Search, S': Search, begin: int, levelEnd: int, ell: int, y: int)
    requires Layers(S, begin, levelEnd, ell) && 0 <= y < |S.depth| && y !in S.queue && levelEnd <= |S.queue|
    requires begin < levelEnd
    requires S'.queue == S.queue + [y] && S'.depth == S.depth[y := ell + 1]
    ensures Layers(S', begin, levelEnd, ell)
    ensures forall k :: 0 <= k < |S.queue| ==> S'.queue[k] == S.queue[k] && S'.depth[S.queue[k]] == S.depth[S.queue[k]]
  {
    assert S.depth[S.queue[begin]] == ell;
  }

  lemma PushParent(I: Instance, sat: seq<bool>, S: Search, S': Search, i: int, a: int, ell: int)
    requires I.Valid() && Sized(I, sat, S) && ParentOk(I, sat, S) && InRange(S.queue, I.N.NodeCount())
    requires 0 <= i < |S.queue| && 0 <= a < I.N.ArcCount() && I.N.tail[a] == S.queue[i] && S.depth[S.queue[i]] == ell
    requires var y := I.N.head[a]; !sat[a] && !S.pushed[y] && y !in S.queue
    requires var y := I.N.head[a];
      S' == S.(queue := S.queue + [y], pushed := S.pushed[y := true], depth := S.depth[y := ell + 1], parent := S.parent[y := a])
    ensures Sized(I, sat, S') && ParentOk(I, sat, S')
  {
    var y := I.N.head[a];
    assert S.queue[i] in S'.queue;
    forall u | 0 <= u < I.N.NodeCount() && S'.pushed[u] && u != y
      ensures I.N.tail[S'.parent[u]] in S'.queue && S'.depth[I.N.tail[S'.parent[u]]] + 1 == S'.depth[u]
    {
      assert I.N.tail[S.parent[u]] in S.queue;
    }
  }

  /** Pushing keeps the rules of the arcs scanned so far and gives the pushing arc its own. */
  lemma PushRules(I: Instance, sat: seq<bool>, S: Search, S': Search, ell: int, i: int, j: int)
    requires I.Valid() && Sized(I, sat, S) && InRange(S.queue, I.N.NodeCount()) && Distinct(S.queue)
    requires 0 <= i < |S.queue| && 0 <= j < |I.N.outArcs[S.queue[i]]| && S.depth[S.queue[i]] == ell
    requires Scanned(I, sat, S, i, j) && Untouched(I, S, i, j)
    requires var a := I.N.outArcs[S.queue[i]][j]; var y := I.N.head[a];
      (0 <= a < I.N.ArcCount() && !sat[a] && !I.src[y] && !I.tgt[y] && !S.pushed[y] && y !in S.queue)
    requires var a := I.N.outArcs[S.queue[i]][j]; var y := I.N.head[a];
      S' == S.(queue := S.queue + [y], pushed := S.pushed[y := true], depth := S.depth[y := ell + 1], parent := S.parent[y := a])
    ensures Scanned(I, sat, S', i, j + 1) && Untouched(I, S', i, j + 1)
  {
    var x := S.queue[i];
    var a := I.N.outArcs[x][j];
    var y := I.N.head[a];
    FreshArc(I, S, i, j);
    ScannedGrow(I, S.queue, y, i, j + 1);
    forall b | 0 <= b < I.N.ArcCount() && S'.blocked[b] ensures ScannedArc(I, S.queue, i, j + 1, b) {
      assert ScannedArc(I, S.queue, i, j, b);
    }
    forall b | 0 <= b < I.N.ArcCount() && ScannedArc(I, S'.queue, i, j + 1, b) ensures Rule(I, sat, S', b) {
      if b != a {
        assert Rule(I, sat, S, b);
        TailQueued(I, S.queue, i, j + 1, b);
      }
    }
  }

  /** The tail of a scanned arc is queued. */
  lemma TailQueued(I: Instance, Q: seq<int>, i: int, j: int, b: int)
    requires I.Valid() && 0 <= b < I.N.ArcCount() && ScannedArc(I, Q, i, j, b)
    ensures I.N.tail[b] in Q
  {
    if I.N.tail[b] in Q[..i] {
      var k :| 0 <= k < i && Q[..i][k] == I.N.tail[b];
      assert Q[k] == I.N.tail[b];
    }
  }

  /** A queue entry whose out-arcs are all scanned is done. */
  lemma NodeDone(I: Instance, sat: seq<bool>, S: Search, begin: int, levelEnd: int, ell: int, i: int)
    requires I.Valid() && 0 <= i < levelEnd <= |S.queue| && 0 <= S.queue[i] < I.N.NodeCount()
    requires BfsAt(I, sat, S, begin, levelEnd, ell, i, |I.N.outArcs[S.queue[i]]|)
    ensures BfsAt(I, sat, S, begin, levelEnd, ell, i + 1, 0)
  {
    ScannedNext(I, S.queue, i);
  }

  /** Past the last out-arc of entry `i` the scanned arcs are those of the first `i + 1` entries. */
  lemma ScannedNext(I: Instance, Q: seq<int>, i: int)
    requires I.Valid() && 0 <= i < |Q| && 0 <= Q[i] < I.N.NodeCount()
    ensures forall b :: 0 <= b < I.N.ArcCount() ==> (ScannedArc(I, Q, i + 1, 0, b) <==> ScannedArc(I, Q, i, |I.N.outArcs[Q[i]]|, b))
  {
    var x := Q[i];
    assert Q[..i + 1] == Q[..i] + [x];
    assert I.N.outArcs[x][..|I.N.outArcs[x]|] == I.N.outArcs[x];
    forall b | 0 <= b < I.N.ArcCount() && I.N.tail[b] == x ensures b in I.N.outArcs[x] {
    }
  }

  /** The level is done: the next level spans the nodes pushed while scanning it. */
  lemma LevelDone(I: Instance, sat: seq<bool>, S: Search, begin: int, levelEnd: int, ell: int)
    requires I.Valid() && BfsAt(I, sat, S, begin, levelEnd, ell, levelEnd, 0)
    ensures BfsAt(I, sat, S, levelEnd, |S.queue|, ell + 1, levelEnd, 0)
  {
  }

  /** Marking the level `ell` entries `begin..m-1` of the queue. */
  ghost predicate Marking(I: Instance, S: Search, level: seq<bool>, ell: int, begin: int, m: int)
    requires I.Valid() && |S.depth| == |S.pushed| == I.N.NodeCount()
  {
    && |level| == I.N.NodeCount() && 0 <= begin <= m <= |S.queue|
    && forall u :: 0 <= u < I.N.NodeCount() ==> (level[u] <==> I.src[u] || (S.pushed[u] && S.depth[u] < ell) || u in S.queue[begin..m])
  }

  lemma MarkStart(I: Instance, sat: seq<bool>, S: Search, level: seq<bool>, begin: int, levelEnd: int, ell: int)
    requires I.Valid() && BfsAt(I, sat, S, begin, levelEnd, ell, begin, 0) && Marked(I, S, level, ell - 1)
    ensures Marking(I, S, level, ell, begin, begin)
  {
  }

  lemma MarkStep(I: Instance, S: Search, level: seq<bool>, ell: int, begin: int, m: int)
    requires I.Valid() && |S.depth| == |S.pushed| == I.N.NodeCount() && InRange(S.queue, I.N.NodeCount())
    requires Marking(I, S, level, ell, begin, m) && m < |S.queue|
    ensures Marking(I, S, level[S.queue[m] := true], ell, begin, m + 1)
  {
    assert S.queue[begin..m + 1] == S.queue[begin..m] + [S.queue[m]];
  }

  lemma MarkEnd(I: Instance, sat: seq<bool>, S: Search, level: seq<bool>, begin: int, levelEnd: int, ell: int)
    requires I.Valid() && BfsAt(I, sat, S, begin, levelEnd, ell, begin, 0) && Marking(I, S, level, ell, begin, levelEnd)
    ensures Marked(I, S, level, ell)
  {
    forall u | 0 <= u < I.N.NodeCount() ensures level[u] <==> I.src[u] || (S.pushed[u] && S.depth[u] <= ell) {
      if u in S.queue[begin..levelEnd] {
        MarkedEntry(I, S, begin, levelEnd, ell, u);
      }
      if S.pushed[u] && S.depth[u] == ell {
        MarkedPushed(I, S, begin, levelEnd, ell, u);
      }
    }
  }

  /** A queue entry on level `ell` is a seed or a node pushed at most `ell` deep. */
  lemma MarkedEntry(I: Instance, S: Search, begin: int, levelEnd: int, ell: int, u: int)
    requires I.Valid() && |S.depth| == |S.pushed| == I.N.NodeCount() && QueueOk(I, S) && Layers(S, begin, levelEnd, ell)
    requires u in S.queue[begin..levelEnd]
    ensures I.src[u] || (S.pushed[u] && S.depth[u] <= ell)
  {
    var k' :| 0 <= k' < levelEnd - begin && S.queue[begin..levelEnd][k'] == u;
    var k := begin + k';
    assert S.queue[k] == u;
    if k < |I.front| {
      assert S.queue[..|I.front|][k] == I.front[k];
    }
  }

  /** A node pushed at depth `ell` is a queue entry on level `ell`. */
  lemma MarkedPushed(I: Instance, S: Search, begin: int, levelEnd: int, ell: int, u: int)
    requires I.Valid() && |S.depth| == |S.pushed| == I.N.NodeCount() && QueueOk(I, S) && Layers(S, begin, levelEnd, ell)
    requires 0 <= u < I.N.NodeCount() && S.pushed[u] && S.depth[u] == ell
    ensures u in S.queue[begin..levelEnd]
  {
    var k :| 0 <= k < |S.queue| && S.queue[k] == u;
    assert S.queue[begin..levelEnd][k - begin] == u;
  }

  /**
   * The search at its end: every queued node is scanned. This is the
   * level graph the augmentation runs on.
   */
  ghost predicate Done(I: Instance, sat: seq<bool>, S: Search)
    requires I.Valid()
  {
    && Sized(I, sat, S) && QueueOk(I, S) && ParentOk(I, sat, S)
    && (forall k :: 0 <= k < |S.queue| ==> 0 <= S.depth[S.queue[k]] <= k)
    && Scanned(I, sat, S, |S.queue|, 0) && Untouched(I, S, |S.queue|, 0) && HitOk(I, sat, S)
  }

  lemma SearchDone(I: Instance, sat: seq<bool>, S: Search, ell: int)
    requires I.Valid() && BfsAt(I, sat, S, |S.queue|, |S.queue|, ell, |S.queue|, 0)
    ensures Done(I, sat, S)
  {
  }

  /** Once every level is scanned, the level flags are the sources and the pushed nodes. */
  lemma MarkedAll(I: Instance, sat: seq<bool>, S: Search, level: seq<bool>, ell: int)
    requires I.Valid() && BfsAt(I, sat, S, |S.queue|, |S.queue|, ell, |S.queue|, 0) && Marked(I, S, level, ell - 1)
    ensures |level| == I.N.NodeCount() && forall u :: 0 <= u < I.N.NodeCount() ==> (level[u] <==> I.src[u] || S.pushed[u])
  {
    forall u | 0 <= u < I.N.NodeCount() && S.pushed[u] ensures S.depth[u] <= ell - 1 {
      var k :| 0 <= k < |S.queue| && S.queue[k] == u;
    }
  }

  lemma ScannedAll(I: Instance, S: Search, a: int)
    requires I.Valid() && 0 <= a < I.N.ArcCount() && I.N.tail[a] in S.queue
    ensures ScannedArc(I, S.queue, |S.queue|, 0, a)
  {
    assert S.queue[..|S.queue|] == S.queue;
  }

  /** A queued node that was not pushed is a seed. */
  lemma QueuedSeed(I: Instance, S: Search, u: int)
    requires I.Valid() && |S.depth| == |S.pushed| == I.N.NodeCount() && QueueOk(I, S)
    requires u in S.queue && !S.pushed[u]
    ensures u in I.front
  {
    var k :| 0 <= k < |S.queue| && S.queue[k] == u;
    assert S.queue[..|I.front|][k] == I.front[k];
  }

  /** A queued node is either a seed, hence a source, or pushed, hence not a target. */
  lemma QueuedKind(I: Instance, S: Search, u: int)
    requires I.Valid() && |S.depth| == |S.pushed| == I.N.NodeCount() && QueueOk(I, S) && u in S.queue
    ensures 0 <= u < I.N.NodeCount() && (I.src[u] || (S.pushed[u] && !I.tgt[u]))
  {
    if !S.pushed[u] {
      QueuedSeed(I, S, u);
    }
  }

  /**
   * The result of the search: a target was reached iff some queued node
   * has an unsaturated arc to a target that is not a source.
   */
  lemma ReachedIff(I: Instance, sat: seq<bool>, S: Search)
    requires I.Valid() && Done(I, sat, S)
    ensures S.reached <==> exists a :: 0 <= a < I.N.ArcCount() && I.N.tail[a] in S.queue && TargetArc(I, sat, a)
  {
    if !S.reached {
      forall a | 0 <= a < I.N.ArcCount() && I.N.tail[a] in S.queue ensures !TargetArc(I, sat, a) {
        ScannedAll(I, S, a);
      }
    }
  }

  /**
   * With no target reached, the sources and the pushed nodes are closed under
   * unsaturated arcs out of the non-sources and the seeds: the search is
   * exhausted as `Exhausted` of the Ford–Fulkerson model states it, so no
   * augmenting path exists.
   */
  lemma DoneExhausted(I: Instance, sat: seq<bool>, S: Search, reach: seq<bool>)
    requires I.Valid() && Done(I, sat, S) && !S.reached
    requires |reach| == I.N.NodeCount() && forall u :: 0 <= u < I.N.NodeCount() ==> (reach[u] <==> I.src[u] || S.pushed[u])
    ensures Exhausted(I.N, sat, I.src, I.tgt, I.front, reach)
  {
    forall u | 0 <= u < I.N.NodeCount() && u in S.queue ensures Closed(I.N, sat, reach, u) {
      forall j | 0 <= j < |I.N.outArcs[u]| && !sat[I.N.outArcs[u][j]] ensures reach[I.N.head[I.N.outArcs[u][j]]] {
        var a := I.N.outArcs[u][j];
        ScannedAll(I, S, a);
      }
    }
    forall k | 0 <= k < |I.front| ensures I.front[k] in S.queue {
      assert S.queue[..|I.front|][k] == I.front[k];
    }
  }

  // ------------------------------------------------------------------
  // The augmentation phase

  /** An arc of the level graph: unsaturated, into a target that is not a source or into a pushed node one level deeper. */
  ghost predicate LevelArc(I: Instance, sat: seq<bool>, S: Search, a: int)
    requires I.Valid() && Sized(I, sat, S) && 0 <= a < I.N.ArcCount()
  {
    var x, y := I.N.tail[a], I.N.head[a];
    !sat[a] && !I.src[y] && (I.tgt[y] || (S.pushed[y] && S.depth[y] == S.depth[x] + 1))
  }

  /** Every unblocked arc out of a queued node is an arc of the level graph. */
  ghost predicate LevelArcs(I: Instance, sat: seq<bool>, S: Search, blocked: seq<bool>)
    requires I.Valid() && Sized(I, sat, S) && |blocked| == I.N.ArcCount()
  {
    forall a :: 0 <= a < I.N.ArcCount() && I.N.tail[a] in S.queue && !blocked[a] ==> LevelArc(I, sat, S, a)
  }

  lemma DoneLevelArcs(I: Instance, sat: seq<bool>, S: Search)
    requires I.Valid() && Done(I, sat, S)
    ensures LevelArcs(I, sat, S, S.blocked)
  {
    forall a | 0 <= a < I.N.ArcCount() && I.N.tail[a] in S.queue && !S.blocked[a] ensures LevelArc(I, sat, S, a) {
      ScannedAll(I, S, a);
    }
  }

  /** The arcs the search used to reach `u` from a seed, one per level. */
  ghost function LevelPath(I: Instance, sat: seq<bool>, S: Search, u: int): (p: seq<int>)
    requires I.Valid() && Done(I, sat, S) && u in S.queue
    ensures |p| == S.depth[u]
    ensures forall m :: 0 <= m < |p| ==> 0 <= p[m] < I.N.ArcCount() && I.N.tail[p[m]] in S.queue && !S.blocked[p[m]]
    ensures forall m :: 0 < m < |p| ==> I.N.tail[p[m]] == I.N.head[p[m - 1]]
    ensures |p| > 0 ==> I.N.tail[p[0]] in I.front && I.N.head[p[|p| - 1]] == u
    ensures |p| == 0 ==> u in I.front
    decreases S.depth[u]
  {
    if !S.pushed[u] then
      QueuedSeed(I, S, u);
      var k :| 0 <= k < |I.front| && I.front[k] == u;
      []
    else
      var a := S.parent[u];
      ParentArc(I, sat, S, u);
      LevelPath(I, sat, S, I.N.tail[a]) + [a]
  }

  /** The arc that first reached a pushed node leaves a queued node one level up and stays unblocked. */
  lemma ParentArc(I: Instance, sat: seq<bool>, S: Search, u: int)
    requires I.Valid() && Done(I, sat, S) && u in S.queue && S.pushed[u]
    ensures 0 <= S.parent[u] < I.N.ArcCount() && I.N.head[S.parent[u]] == u
    ensures I.N.tail[S.parent[u]] in S.queue && S.depth[I.N.tail[S.parent[u]]] + 1 == S.depth[u]
    ensures !S.blocked[S.parent[u]]
  {
    ScannedAll(I, S, S.parent[u]);
    assert Rule(I, sat, S, S.parent[u]);
  }

  /**
   * An unblocked chain of arcs from a seed to a target: while no path has
   * been augmented, the one the search found stays unblocked.
   */
  ghost predicate Witness(I: Instance, blocked: seq<bool>, W: seq<int>)
    requires I.Valid() && |blocked| == I.N.ArcCount()
  {
    && |W| > 0
    && (forall m :: 0 <= m < |W| ==> 0 <= W[m] < I.N.ArcCount() && !blocked[W[m]])
    && (forall m :: 0 < m < |W| ==> I.N.tail[W[m]] == I.N.head[W[m - 1]])
    && I.N.tail[W[0]] in I.front && I.tgt[I.N.head[W[|W| - 1]]]
  }

  lemma DoneWitness(I: Instance, sat: seq<bool>, S: Search)
    requires I.Valid() && Done(I, sat, S) && S.reached
    ensures Witness(I, S.blocked, LevelPath(I, sat, S, I.N.tail[S.hit]) + [S.hit])
  {
    var p := LevelPath(I, sat, S, I.N.tail[S.hit]);
    ScannedAll(I, S, S.hit);
    var W := p + [S.hit];
    assert I.N.tail[W[0]] in I.front;
  }

  /** A target reached and not a source is not queued, so the queue leaves out at least one node. */
  lemma DoneRoom(I: Instance, sat: seq<bool>, S: Search)
    requires I.Valid() && Done(I, sat, S) && S.reached
    ensures |S.queue| < I.N.NodeCount()
  {
    var y := I.N.head[S.hit];
    if y in S.queue {
      QueuedKind(I, S, y);
    }
    MissingBound(S.queue, I.N.NodeCount(), y);
  }

  /** Blocking an arc into a node with no unblocked out-arc, other than a target, keeps a witness. */
  lemma WitnessRetreat(I: Instance, blocked: seq<bool>, W: seq<int>, b: int)
    requires I.Valid() && |blocked| == I.N.ArcCount() && Witness(I, blocked, W) && 0 <= b < I.N.ArcCount()
    requires !I.tgt[I.N.head[b]]
    requires forall j :: 0 <= j < |I.N.outArcs[I.N.head[b]]| ==> blocked[I.N.outArcs[I.N.head[b]][j]]
    ensures Witness(I, blocked[b := true], W)
  {
    forall m | 0 <= m < |W| ensures W[m] != b {
      if m < |W| - 1 {
        var e := W[m + 1];
        assert e in I.N.outArcs[I.N.tail[e]];
        assert I.N.head[W[m]] != I.N.head[b];
      }
    }
  }

  /** A node whose out-arcs are all blocked does not start a witness. */
  lemma WitnessStart(I: Instance, blocked: seq<bool>, W: seq<int>, u: int)
    requires I.Valid() && |blocked| == I.N.ArcCount() && Witness(I, blocked, W) && 0 <= u < I.N.NodeCount()
    requires forall j :: 0 <= j < |I.N.outArcs[u]| ==> blocked[I.N.outArcs[u][j]]
    ensures I.N.tail[W[0]] != u
  {
    var e := W[0];
    assert e in I.N.outArcs[I.N.tail[e]];
  }

  /** The current path of the depth-first search: from a seed, one level per arc, over unblocked arcs. */
  ghost predicate PathOk(I: Instance, sat: seq<bool>, S: Search, blocked: seq<bool>, nodes: seq<int>, arcs: seq<int>)
    requires I.Valid() && Sized(I, sat, S) && |blocked| == I.N.ArcCount()
  {
    && |nodes| == |arcs| + 1 && nodes[0] in I.front
    && (forall k :: 0 <= k < |nodes| ==> nodes[k] in S.queue && 0 <= nodes[k] < I.N.NodeCount() && S.depth[nodes[k]] == k)
    && (forall k :: 0 <= k < |arcs| ==>
          0 <= arcs[k] < I.N.ArcCount() && I.N.tail[arcs[k]] == nodes[k] && I.N.head[arcs[k]] == nodes[k + 1] && !blocked[arcs[k]])
  }

  lemma PathStart(I: Instance, sat: seq<bool>, S: Search, blocked: seq<bool>, k: int)
    requires I.Valid() && Sized(I, sat, S) && |blocked| == I.N.ArcCount() && QueueOk(I, S) && 0 <= k < |I.front|
    ensures PathOk(I, sat, S, blocked, [I.front[k]], [])
  {
    assert S.queue[..|I.front|][k] == I.front[k];
  }

  /** No path is longer than the queue. */
  lemma PathBound(I: Instance, sat: seq<bool>, S: Search, blocked: seq<bool>, nodes: seq<int>, arcs: seq<int>)
    requires I.Valid() && Done(I, sat, S) && |blocked| == I.N.ArcCount() && PathOk(I, sat, S, blocked, nodes, arcs)
    ensures |arcs| < |S.queue|
  {
    var u := nodes[|arcs|];
    var k :| 0 <= k < |S.queue| && S.queue[k] == u;
  }

  /** Extending the path by an unblocked level arc into a node that is not a target. */
  lemma PathExtend(I: Instance, sat: seq<bool>, S: Search, blocked: seq<bool>, nodes: seq<int>, arcs: seq<int>, a: int)
    requires I.Valid() && Done(I, sat, S) && |blocked| == I.N.ArcCount() && PathOk(I, sat, S, blocked, nodes, arcs)
    requires LevelArcs(I, sat, S, blocked)
    requires 0 <= a < I.N.ArcCount() && I.N.tail[a] == nodes[|nodes| - 1] && !blocked[a] && !I.tgt[I.N.head[a]]
    ensures PathOk(I, sat, S, blocked, nodes + [I.N.head[a]], arcs + [a])
  {
    assert LevelArc(I, sat, S, a);
  }

  /** Blocking the last arc of the path and dropping it keeps the rest of the path. */
  lemma PathRetreat(I: Instance, sat: seq<bool>, S: Search, blocked: seq<bool>, nodes: seq<int>, arcs: seq<int>)
    requires I.Valid() && Sized(I, sat, S) && |blocked| == I.N.ArcCount() && PathOk(I, sat, S, blocked, nodes, arcs) && |arcs| > 0
    ensures PathOk(I, sat, S, blocked[arcs[|arcs| - 1] := true], nodes[..|nodes| - 1], arcs[..|arcs| - 1])
  {
    var b := arcs[|arcs| - 1];
    forall k | 0 <= k < |arcs| - 1 ensures arcs[k] != b {
      assert S.depth[nodes[k]] != S.depth[nodes[|arcs| - 1]];
    }
  }

  /** The arcs of a path leave distinct nodes, so they are distinct. */
  lemma PathArcsDistinct(I: Instance, sat: seq<bool>, S: Search, blocked: seq<bool>, nodes: seq<int>, arcs: seq<int>, k: int, m: int)
    requires I.Valid() && Sized(I, sat, S) && |blocked| == I.N.ArcCount() && |nodes| == |arcs| + 1
    requires forall k :: 0 <= k < |nodes| ==> 0 <= nodes[k] < I.N.NodeCount() && S.depth[nodes[k]] == k
    requires forall k :: 0 <= k < |arcs| ==> 0 <= arcs[k] < I.N.ArcCount() && I.N.tail[arcs[k]] == nodes[k]
    requires 0 <= k < m < |arcs|
    ensures arcs[k] != arcs[m]
  {
    assert S.depth[nodes[k]] != S.depth[nodes[m]];
  }

  /** The number of unblocked arcs, which every retreat and every augmentation lowers. */
  function Unblocked(blocked: seq<bool>): nat
  {
    if blocked == [] then 0 else Unblocked(blocked[..|blocked| - 1]) + (if blocked[|blocked| - 1] then 0 else 1)
  }

  lemma {:induction false} BlockOne(blocked: seq<bool>, a: int)
    requires 0 <= a < |blocked|
    ensures Unblocked(blocked[a := true]) == if blocked[a] then Unblocked(blocked) else Unblocked(blocked) - 1
  {
    var b' := blocked[a := true];
    if a < |blocked| - 1 {
      assert b'[..|b'| - 1] == blocked[..|blocked| - 1][a := true];
      BlockOne(blocked[..|blocked| - 1], a);
    } else {
      assert b'[..|b'| - 1] == blocked[..|blocked| - 1];
    }
  }
  /** The unblocked arcs only grow blocked: a retreat or an augmentation that blocks an unblocked arc lowers the count. */
  lemma {:induction false} UnblockedShrink(blocked: seq<bool>, blocked': seq<bool>, a: int)
    requires |blocked| == |blocked'| && forall e :: 0 <= e < |blocked| && blocked[e] ==> blocked'[e]
    requires 0 <= a < |blocked| && !blocked[a] && blocked'[a]
    ensures Unblocked(blocked') < Unblocked(blocked)
  {
    var m := |blocked| - 1;
    if a < m {
      UnblockedShrink(blocked[..m], blocked'[..m], a);
    } else {
      UnblockedMono(blocked[..m], blocked'[..m]);
    }
  }

  lemma {:induction false} UnblockedMono(blocked: seq<bool>, blocked': seq<bool>)
    requires |blocked| == |blocked'| && forall e :: 0 <= e < |blocked| && blocked[e] ==> blocked'[e]
    ensures Unblocked(blocked') <= Unblocked(blocked)
  {
    if blocked != [] {
      var m := |blocked| - 1;
      UnblockedMono(blocked[..m], blocked'[..m]);
    }
  }

  /** The blocked flags after blocking the arcs of `p`, one by one. */
  function BlockAll(blocked: seq<bool>, p: seq<int>): (r: seq<bool>)
    requires forall k :: 0 <= k < |p| ==> 0 <= p[k] < |blocked|
    ensures |r| == |blocked| && forall e :: 0 <= e < |blocked| ==> (r[e] <==> blocked[e] || e in p)
  {
    if p == [] then blocked else BlockAll(blocked, p[..|p| - 1])[p[|p| - 1] := true]
  }

  /** No arc of `p` has `e` as its back arc. */
  ghost predicate OffBacks(N: Network, p: seq<int>, e: int)
    requires N.Valid() && forall k :: 0 <= k < |p| ==> 0 <= p[k] < N.ArcCount()
  {
    assert |N.back| == N.ArcCount();
    forall k :: 0 <= k < |p| ==> N.back[p[k]] != e
  }

  /** A chain of arcs from `s` to `t`, each starting where the previous one ends. */
  ghost predicate Chain(N: Network, p: seq<int>, s: int, t: int)
    requires N.Valid()
  {
    && (forall k :: 0 <= k < |p| ==> 0 <= p[k] < N.ArcCount())
    && (forall k :: 0 < k < |p| ==> N.tail[p[k]] == N.head[p[k - 1]])
    && (|p| == 0 ==> s == t)
    && (|p| > 0 ==> N.tail[p[0]] == s && N.head[p[|p| - 1]] == t)
  }

  /** A chain whose arcs are distinct, unsaturated and none the back arc of another. */
  ghost predicate Clean(N: Network, sat: seq<bool>, p: seq<int>)
    requires N.Valid() && |sat| == N.ArcCount() && forall k :: 0 <= k < |p| ==> 0 <= p[k] < N.ArcCount()
  {
    && Distinct(p)
    && (forall k :: 0 <= k < |p| ==> !sat[p[k]] && OffBacks(N, p, p[k]))
  }

  /**
   * Pushing a unit over each arc of a clean chain from `s` to `t` moves one
   * unit of excess from `s` to `t`, keeps arcs and back arcs apart, and
   * changes only the flags of the chain's arcs and their back arcs.
   */
  lemma {:induction false} PushChain(N: Network, sat: seq<bool>, p: seq<int>, s: int, t: int)
    requires N.Valid() && |sat| == N.ArcCount() && Chain(N, p, s, t) && Clean(N, sat, p) && NoAntiparallel(N, sat)
    ensures NoAntiparallel(N, PushAll(N, sat, p))
    ensures forall u :: 0 <= u < N.NodeCount() ==> ExcessAt(N, PushAll(N, sat, p), u) == ExcessAt(N, sat, u) + B(u == t) - B(u == s)
    ensures forall e :: 0 <= e < N.ArcCount() && e !in p && OffBacks(N, p, e) ==> PushAll(N, sat, p)[e] == sat[e]
  {
    if p != [] {
      var m := |p| - 1;
      var q := p[..m];
      var x := N.tail[p[m]];
      ChainFront(N, sat, p, s, t);
      PushChain(N, sat, q, s, x);
      PushChainLast(N, sat, p, s, x, t);
    }
  }

  /** An arc none of whose back arcs is `e` along `p` has none along a prefix of `p`. */
  lemma OffBacksPrefix(N: Network, p: seq<int>, m: int, e: int)
    requires N.Valid() && (forall k :: 0 <= k < |p| ==> 0 <= p[k] < N.ArcCount()) && 0 <= m <= |p|
    requires OffBacks(N, p, e)
    ensures OffBacks(N, p[..m], e)
  {
    forall k | 0 <= k < m ensures N.back[p[..m][k]] != e {
      assert p[..m][k] == p[k];
    }
  }

  /** Dropping the last arc of a clean chain leaves a clean chain to the last arc's tail. */
  lemma ChainFront(N: Network, sat: seq<bool>, p: seq<int>, s: int, t: int)
    requires N.Valid() && |sat| == N.ArcCount() && Chain(N, p, s, t) && Clean(N, sat, p) && p != []
    ensures Chain(N, p[..|p| - 1], s, N.tail[p[|p| - 1]]) && Clean(N, sat, p[..|p| - 1])
    ensures p[|p| - 1] !in p[..|p| - 1] && OffBacks(N, p[..|p| - 1], p[|p| - 1])
  {
    var m := |p| - 1;
    var q := p[..m];
    forall k | 0 <= k < |q| ensures !sat[q[k]] && OffBacks(N, q, q[k]) {
      assert q[k] == p[k];
      OffBacksPrefix(N, p, m, p[k]);
    }
    OffBacksPrefix(N, p, m, p[m]);
  }

  /**
   * Along a clean chain every arc is still unsaturated when its turn comes:
   * the pushes over the arcs before it neither saturate it nor break the
   * separation of arcs and back arcs.
   */
  lemma CleanPrefix(N: Network, sat: seq<bool>, p: seq<int>, s: int, t: int, k: int)
    requires N.Valid() && |sat| == N.ArcCount() && Chain(N, p, s, t) && Clean(N, sat, p) && NoAntiparallel(N, sat)
    requires 0 <= k < |p|
    ensures NoAntiparallel(N, PushAll(N, sat, p[..k])) && !PushAll(N, sat, p[..k])[p[k]]
  {
    var q := p[..k];
    var e := p[k];
    forall j | 0 <= j < |q| ensures !sat[q[j]] && OffBacks(N, q, q[j]) {
      assert q[j] == p[j];
      OffBacksPrefix(N, p, k, p[j]);
    }
    OffBacksPrefix(N, p, k, e);
    if k > 0 {
      assert N.head[q[k - 1]] == N.tail[e];
    }
    assert Chain(N, q, s, N.tail[e]);
    PushChain(N, sat, q, s, N.tail[e]);
  }

  /** The last push of a chain, after the pushes along the rest of it. */
  lemma PushChainLast(N: Network, sat: seq<bool>, p: seq<int>, s: int, x: int, t: int)
    requires N.Valid() && |sat| == N.ArcCount() && p != [] && Chain(N, p, s, t) && Clean(N, sat, p)
    requires x == N.tail[p[|p| - 1]]
    requires var q := p[..|p| - 1];
      && NoAntiparallel(N, PushAll(N, sat, q))
      && (forall u :: 0 <= u < N.NodeCount() ==> ExcessAt(N, PushAll(N, sat, q), u) == ExcessAt(N, sat, u) + B(u == x) - B(u == s))
      && (forall e :: 0 <= e < N.ArcCount() && e !in q && OffBacks(N, q, e) ==> PushAll(N, sat, q)[e] == sat[e])
    requires p[|p| - 1] !in p[..|p| - 1] && OffBacks(N, p[..|p| - 1], p[|p| - 1])
    ensures NoAntiparallel(N, PushAll(N, sat, p))
    ensures forall u :: 0 <= u < N.NodeCount() ==> ExcessAt(N, PushAll(N, sat, p), u) == ExcessAt(N, sat, u) + B(u == t) - B(u == s)
    ensures forall e :: 0 <= e < N.ArcCount() && e !in p && OffBacks(N, p, e) ==> PushAll(N, sat, p)[e] == sat[e]
  {
    var m := |p| - 1;
    var q, a := p[..m], p[m];
    var sq := PushAll(N, sat, q);
    assert sq[a] == sat[a];
    PushUnitEffect(N, sq, a);
    assert PushAll(N, sat, p) == PushUnit(N, sq, a);
    forall e | 0 <= e < N.ArcCount() && e !in p && OffBacks(N, p, e) ensures PushAll(N, sat, p)[e] == sat[e] {
      assert e != a && e != N.back[a] by {
        assert p[m] == a;
      }
      assert e !in q by {
        assert forall k :: 0 <= k < m ==> q[k] == p[k];
      }
      OffBacksPrefix(N, p, m, e);
    }
  }

  /**
   * The depth-first search between augmentations: the search `S` over the
   * flags `sat0` the phase started with is done, the arcs it blocked stay
   * blocked, and every unblocked arc out of a queued node still has its
   * starting flag.
   */
  ghost predicate Phase(I: Instance, sat0: seq<bool>, S: Search, sat: seq<bool>, blocked: seq<bool>)
    requires I.Valid()
  {
    && Done(I, sat0, S) && |sat| == |blocked| == I.N.ArcCount()
    && (forall e :: 0 <= e < I.N.ArcCount() && S.blocked[e] ==> blocked[e])
    && (forall e :: 0 <= e < I.N.ArcCount() && I.N.tail[e] in S.queue && !blocked[e] ==> sat[e] == sat0[e])
  }

  lemma PhaseStart(I: Instance, sat0: seq<bool>, S: Search)
    requires I.Valid() && Done(I, sat0, S)
    ensures Phase(I, sat0, S, sat0, S.blocked)
  {
  }

  lemma PhaseLevelArcs(I: Instance, sat0: seq<bool>, S: Search, sat: seq<bool>, blocked: seq<bool>)
    requires I.Valid() && Phase(I, sat0, S, sat, blocked)
    ensures LevelArcs(I, sat0, S, blocked)
    ensures forall e :: 0 <= e < I.N.ArcCount() && I.N.tail[e] in S.queue && !blocked[e] ==> !sat[e]
  {
    DoneLevelArcs(I, sat0, S);
  }

  /** An unblocked arc out of a queued node into a target means the search reached a target. */
  lemma PhaseReached(I: Instance, sat0: seq<bool>, S: Search, sat: seq<bool>, blocked: seq<bool>, a: int)
    requires I.Valid() && Phase(I, sat0, S, sat, blocked)
    requires 0 <= a < I.N.ArcCount() && I.N.tail[a] in S.queue && !blocked[a] && I.tgt[I.N.head[a]]
    ensures S.reached && TargetArc(I, sat0, a)
  {
    PhaseLevelArcs(I, sat0, S, sat, blocked);
    ScannedAll(I, S, a);
  }

  /** A path node past the seed is a pushed node, so it is not a target. */
  lemma DeepNode(I: Instance, sat0: seq<bool>, S: Search, blocked: seq<bool>, nodes: seq<int>, arcs: seq<int>, k: int)
    requires I.Valid() && Done(I, sat0, S) && |blocked| == I.N.ArcCount() && PathOk(I, sat0, S, blocked, nodes, arcs)
    requires 0 < k < |nodes|
    ensures S.pushed[nodes[k]] && !I.tgt[nodes[k]]
  {
    var u := nodes[k];
    var q :| 0 <= q < |S.queue| && S.queue[q] == u;
    forall m | 0 <= m < |I.front| ensures I.front[m] != u {
      assert S.depth[I.front[m]] == 0;
    }
    assert S.queue[..|I.front|] == I.front;
    assert q >= |I.front|;
  }

  /**
   * The path of the search extended by an unblocked arc `a` into a target is
   * a clean chain from its seed to that target; its back arcs are blocked or
   * leave nodes outside the queue.
   */
  lemma AugmentClean(I: Instance, sat0: seq<bool>, S: Search, sat: seq<bool>, blocked: seq<bool>, nodes: seq<int>, arcs: seq<int>, a: int)
    requires I.Valid() && Phase(I, sat0, S, sat, blocked) && PathOk(I, sat0, S, blocked, nodes, arcs)
    requires 0 <= a < I.N.ArcCount() && I.N.tail[a] == nodes[|nodes| - 1] && !blocked[a] && I.tgt[I.N.head[a]]
    ensures Chain(I.N, arcs + [a], nodes[0], I.N.head[a]) && Clean(I.N, sat, arcs + [a])
    ensures forall e :: 0 <= e < I.N.ArcCount() && I.N.tail[e] in S.queue && !blocked[e] ==> OffBacks(I.N, arcs + [a], e)
  {
    var p := arcs + [a];
    PhaseReached(I, sat0, S, sat, blocked, a);
    TargetOutside(I, S, I.N.head[a]);
    AugmentArcs(I, sat0, S, sat, blocked, nodes, arcs, a);
    forall k | 0 <= k < |p| ensures OffBacks(I.N, p, p[k]) {
      forall j | 0 <= j < |p| ensures I.N.back[p[j]] != p[k] {
        BackOffPath(I, sat0, S, sat, blocked, nodes, arcs, a, j, k);
      }
    }
    forall e | 0 <= e < I.N.ArcCount() && I.N.tail[e] in S.queue && !blocked[e] ensures OffBacks(I.N, p, e) {
      forall j | 0 <= j < |p| ensures I.N.back[p[j]] != e {
        if I.N.tail[I.N.back[p[j]]] in S.queue {
          BackBlocked(I, sat0, S, sat, blocked, nodes, arcs, a, j);
        }
      }
    }
  }

  /** A target that is not a source is not queued. */
  lemma TargetOutside(I: Instance, S: Search, t: int)
    requires I.Valid() && |S.depth| == |S.pushed| == I.N.NodeCount() && QueueOk(I, S)
    requires 0 <= t < I.N.NodeCount() && I.tgt[t] && !I.src[t]
    ensures t !in S.queue
  {
    forall k | 0 <= k < |S.queue| ensures S.queue[k] != t {
      QueuedKind(I, S, S.queue[k]);
    }
  }

  /** The arcs of the extended path: a chain from the seed, distinct, unblocked and unsaturated. */
  lemma AugmentArcs(I: Instance, sat0: seq<bool>, S: Search, sat: seq<bool>, blocked: seq<bool>, nodes: seq<int>, arcs: seq<int>, a: int)
    requires I.Valid() && Phase(I, sat0, S, sat, blocked) && PathOk(I, sat0, S, blocked, nodes, arcs)
    requires 0 <= a < I.N.ArcCount() && I.N.tail[a] == nodes[|nodes| - 1] && !blocked[a]
    ensures Chain(I.N, arcs + [a], nodes[0], I.N.head[a]) && Distinct(arcs + [a])
    ensures forall k :: 0 <= k < |arcs| + 1 ==> !sat[(arcs + [a])[k]]
  {
    var p := arcs + [a];
    PhaseLevelArcs(I, sat0, S, sat, blocked);
    forall k | 0 <= k < |p| ensures I.N.tail[p[k]] == nodes[k] && I.N.tail[p[k]] in S.queue && !blocked[p[k]] {
    }
    forall j, k | 0 <= j < k < |p| ensures p[j] != p[k] {
      assert S.depth[nodes[j]] != S.depth[nodes[k]];
    }
  }

  /** No arc of the extended path is the back arc of another: the back arc of arc `j` ends at depth `j`. */
  lemma BackOffPath(I: Instance, sat0: seq<bool>, S: Search, sat: seq<bool>, blocked: seq<bool>, nodes: seq<int>, arcs: seq<int>, a: int, j: int, k: int)
    requires I.Valid() && Phase(I, sat0, S, sat, blocked) && PathOk(I, sat0, S, blocked, nodes, arcs)
    requires 0 <= a < I.N.ArcCount() && I.N.tail[a] == nodes[|nodes| - 1] && I.tgt[I.N.head[a]] && !I.src[I.N.head[a]]
    requires I.N.head[a] !in S.queue
    requires 0 <= j < |arcs| + 1 && 0 <= k < |arcs| + 1
    ensures (arcs + [a])[k] != I.N.back[(arcs + [a])[j]]
  {
    var p := arcs + [a];
    var e := I.N.back[p[j]];
    assert I.N.head[e] == nodes[j] && I.N.tail[e] == I.N.head[p[j]];
    if I.N.head[p[k]] == nodes[j] {
      if k < |arcs| {
        assert S.depth[nodes[k + 1]] == S.depth[nodes[j]];
        assert j == k + 1;
        assert I.N.tail[p[k]] != I.N.tail[e] by {
          if j < |arcs| {
            assert S.depth[nodes[k]] != S.depth[nodes[j + 1]];
          }
        }
      } else {
        assert I.N.head[p[k]] !in S.queue;
      }
    }
  }

  /** The back arc of a path arc leaves the target or a queued node one level down, which blocks it. */
  lemma BackBlocked(I: Instance, sat0: seq<bool>, S: Search, sat: seq<bool>, blocked: seq<bool>, nodes: seq<int>, arcs: seq<int>, a: int, j: int)
    requires I.Valid() && Phase(I, sat0, S, sat, blocked) && PathOk(I, sat0, S, blocked, nodes, arcs)
    requires 0 <= a < I.N.ArcCount() && I.N.tail[a] == nodes[|nodes| - 1] && I.N.head[a] !in S.queue
    requires 0 <= j < |arcs| + 1 && I.N.tail[I.N.back[(arcs + [a])[j]]] in S.queue
    ensures blocked[I.N.back[(arcs + [a])[j]]]
  {
    var p := arcs + [a];
    var e := I.N.back[p[j]];
    assert j < |arcs|;
    assert I.N.tail[e] == nodes[j + 1] && I.N.head[e] == nodes[j];
    QueuedKind(I, S, nodes[j]);
    ScannedAll(I, S, e);
    assert Rule(I, sat0, S, e);
  }

  /**
   * Augmenting along the path and an arc into a target: the flow keeps being
   * conserved with one more unit, the phase state is kept with the path's
   * arcs blocked, and fewer arcs are unblocked.
   */
  lemma PhaseAugment(I: Instance, sat0: seq<bool>, S: Search, sat: seq<bool>, blocked: seq<bool>, nodes: seq<int>, arcs: seq<int>, a: int, flow: int)
    requires I.Valid() && Phase(I, sat0, S, sat, blocked) && PathOk(I, sat0, S, blocked, nodes, arcs)
    requires 0 <= a < I.N.ArcCount() && I.N.tail[a] == nodes[|nodes| - 1] && !blocked[a] && I.tgt[I.N.head[a]]
    requires Conserved(I.N, sat, I.src, I.tgt, flow)
    ensures Conserved(I.N, PushAll(I.N, sat, arcs + [a]), I.src, I.tgt, flow + 1)
    ensures Phase(I, sat0, S, PushAll(I.N, sat, arcs + [a]), BlockAll(blocked, arcs + [a]))
    ensures Unblocked(BlockAll(blocked, arcs + [a])) < Unblocked(blocked)
  {
    var p := arcs + [a];
    var t := I.N.head[a];
    AugmentClean(I, sat0, S, sat, blocked, nodes, arcs, a);
    PushChain(I.N, sat, p, nodes[0], t);
    PhaseReached(I, sat0, S, sat, blocked, a);
    var k :| 0 <= k < |I.front| && I.front[k] == nodes[0];
    ConservedShift(I.N, sat, PushAll(I.N, sat, p), I.src, I.tgt, flow, nodes[0], t);
    UnblockedShrink(blocked, BlockAll(blocked, p), a);
  }

  /**
   * Retreating over the last arc of the path, whose head has no unblocked
   * out-arc left: the phase and the rest of the path are kept, fewer arcs are
   * unblocked, and a witness stays unblocked.
   */
  lemma RetreatStep(I: Instance, sat0: seq<bool>, S: Search, sat: seq<bool>, blocked: seq<bool>, nodes: seq<int>, arcs: seq<int>,
                    W: seq<int>, live: bool, blocked': seq<bool>, nodes': seq<int>, arcs': seq<int>)
    requires I.Valid() && Phase(I, sat0, S, sat, blocked) && PathOk(I, sat0, S, blocked, nodes, arcs) && |arcs| > 0
    requires forall j :: 0 <= j < |I.N.outArcs[nodes[|arcs|]]| ==> blocked[I.N.outArcs[nodes[|arcs|]][j]]
    requires live ==> Witness(I, blocked, W)
    requires blocked' == blocked[arcs[|arcs| - 1] := true] && nodes' == nodes[..|arcs|] && arcs' == arcs[..|arcs| - 1]
    ensures Phase(I, sat0, S, sat, blocked') && PathOk(I, sat0, S, blocked', nodes', arcs')
    ensures Unblocked(blocked') < Unblocked(blocked) && (live ==> Witness(I, blocked', W))
    ensures forall e :: 0 <= e < |blocked| && blocked[e] ==> blocked'[e]
  {
    var b := arcs[|arcs| - 1];
    PathRetreat(I, sat0, S, blocked, nodes, arcs);
    BlockOne(blocked, b);
    if live {
      DeepNode(I, sat0, S, blocked, nodes, arcs, |arcs|);
      WitnessRetreat(I, blocked, W, b);
    }
  }

  /**
   * An unblocked arc out of the end of the path leaves room for one more
   * node on the path, and extends the path unless it enters a target.
   */
  lemma ExtendStep(I: Instance, sat0: seq<bool>, S: Search, sat: seq<bool>, blocked: seq<bool>, nodes: seq<int>, arcs: seq<int>, a: int)
    requires I.Valid() && Phase(I, sat0, S, sat, blocked) && PathOk(I, sat0, S, blocked, nodes, arcs)
    requires 0 <= a < I.N.ArcCount() && I.N.tail[a] == nodes[|arcs|] && !blocked[a]
    ensures |arcs| + 1 < I.N.NodeCount()
    ensures !I.tgt[I.N.head[a]] ==> PathOk(I, sat0, S, blocked, nodes + [I.N.head[a]], arcs + [a])
  {
    CountBound(S.queue, I.N.NodeCount());
    if I.tgt[I.N.head[a]] {
      PhaseReached(I, sat0, S, sat, blocked, a);
      DoneRoom(I, sat0, S);
      PathBound(I, sat0, S, blocked, nodes, arcs);
    } else {
      PhaseLevelArcs(I, sat0, S, sat, blocked);
      PathExtend(I, sat0, S, blocked, nodes, arcs, a);
      PathBound(I, sat0, S, blocked, nodes + [I.N.head[a]], arcs + [a]);
    }
  }

  /**
   * Augmenting along the path `p`, the current path and an unblocked arc
   * into a target, then starting again from the seed `k`: one more unit of
   * flow, the phase kept, fewer arcs unblocked and none unblocked again.
   */
  lemma PhaseAugmentStep(I: Instance, sat0: seq<bool>, S: Search, sat: seq<bool>, blocked: seq<bool>, nodes: seq<int>, arcs: seq<int>,
                         a: int, flow: int, k: int, p: seq<int>, sat': seq<bool>, blocked': seq<bool>)
    requires I.Valid() && Phase(I, sat0, S, sat, blocked) && PathOk(I, sat0, S, blocked, nodes, arcs)
    requires 0 <= a < I.N.ArcCount() && I.N.tail[a] == nodes[|arcs|] && !blocked[a] && I.tgt[I.N.head[a]]
    requires Conserved(I.N, sat, I.src, I.tgt, flow) && 0 <= k < |I.front|
    requires p == arcs + [a] && sat' == PushAll(I.N, sat, p) && blocked' == BlockAll(blocked, p)
    ensures Conserved(I.N, sat', I.src, I.tgt, flow + 1) && Phase(I, sat0, S, sat', blocked')
    ensures Unblocked(blocked') < Unblocked(blocked) && PathOk(I, sat0, S, blocked', [I.front[k]], [])
    ensures forall e :: 0 <= e < |blocked| && blocked[e] ==> blocked'[e]
  {
    PhaseAugment(I, sat0, S, sat, blocked, nodes, arcs, a, flow);
    PathStart(I, sat0, S, blocked', k);
  }

  /**
   * What stays fixed during the depth-first search from one seed: the flags
   * `sat0` and the search `S` the phase started from, the seed `f`, the
   * blocked flags `blocked0` and the flow `flow0` at the start, and a witness
   * path `W` that is unblocked while `live` holds and nothing was augmented.
   */
  datatype Seed = Seed(sat0: seq<bool>, S: Search, f: int, blocked0: seq<bool>, flow0: int, W: seq<int>, live: bool)

  /**
   * The state of the depth-first search from the seed: the flow is conserved
   * and has not dropped, the phase is kept, the path is a level path from the
   * seed over unblocked arcs, no arc was unblocked, and while nothing was
   * augmented the witness stays unblocked.
   */
  ghost predicate Walk(I: Instance, D: Seed, sat: seq<bool>, blocked: seq<bool>, nodes: seq<int>, arcs: seq<int>, flow: int)
    requires I.Valid()
  {
    && Phase(I, D.sat0, D.S, sat, blocked) && Conserved(I.N, sat, I.src, I.tgt, flow) && flow >= D.flow0
    && PathOk(I, D.sat0, D.S, blocked, nodes, arcs) && nodes[0] == D.f
    && |D.blocked0| == |blocked| && (forall e :: 0 <= e < |D.blocked0| && D.blocked0[e] ==> blocked[e])
    && (D.live && flow == D.flow0 ==> Witness(I, blocked, D.W))
  }

  /** The walk from the `k`-th seed starts with the path holding just the seed. */
  lemma WalkSeed(I: Instance, D: Seed, sat: seq<bool>, blocked: seq<bool>, flow: int, k: int)
    requires I.Valid() && 0 <= k < |I.front| && D.f == I.front[k] && D.blocked0 == blocked && D.flow0 == flow
    requires Phase(I, D.sat0, D.S, sat, blocked) && Conserved(I.N, sat, I.src, I.tgt, flow)
    requires D.live ==> Witness(I, blocked, D.W)
    ensures Walk(I, D, sat, blocked, [D.f], [], flow)
  {
    PathStart(I, D.sat0, D.S, blocked, k);
  }

  /** What a walk back at its seed says of the flags: the phase is kept, the flow conserved, no arc unblocked, and the witness kept while nothing was augmented. */
  lemma WalkEnd(I: Instance, D: Seed, sat0: seq<bool>, S: Search, blocked0: seq<bool>, sat: seq<bool>, blocked: seq<bool>, flow: int)
    requires I.Valid() && Walk(I, D, sat, blocked, [D.f], [], flow)
    requires D.sat0 == sat0 && D.S == S && D.blocked0 == blocked0
    ensures Phase(I, sat0, S, sat, blocked) && Conserved(I.N, sat, I.src, I.tgt, flow) && flow >= D.flow0
    ensures forall e :: 0 <= e < |blocked0| && blocked0[e] ==> blocked[e]
    ensures D.live && flow == D.flow0 ==> Witness(I, blocked, D.W)
  {
  }

  /** Retreating over the last arc of the path, when every out-arc of its end is blocked, keeps the walk and blocks one more arc. */
  lemma WalkRetreat(I: Instance, D: Seed, sat: seq<bool>, blocked: seq<bool>, nodes: seq<int>, arcs: seq<int>, flow: int,
                    blocked': seq<bool>, nodes': seq<int>, arcs': seq<int>)
    requires I.Valid() && Walk(I, D, sat, blocked, nodes, arcs, flow) && |arcs| > 0
    requires forall j :: 0 <= j < |I.N.outArcs[nodes[|arcs|]]| ==> blocked[I.N.outArcs[nodes[|arcs|]][j]]
    requires blocked' == blocked[arcs[|arcs| - 1] := true] && nodes' == nodes[..|arcs|] && arcs' == arcs[..|arcs| - 1]
    ensures Walk(I, D, sat, blocked', nodes', arcs', flow)
    ensures Unblocked(blocked') < Unblocked(blocked)
  {
    RetreatStep(I, D.sat0, D.S, sat, blocked, nodes, arcs, D.W, D.live && flow == D.flow0, blocked', nodes', arcs');
  }

  /** An unblocked out-arc `a` of the end of the path leaves room for one more node, and extends the walk unless it enters a target. */
  lemma WalkExtend(I: Instance, D: Seed, sat: seq<bool>, blocked: seq<bool>, nodes: seq<int>, arcs: seq<int>, flow: int, a: int)
    requires I.Valid() && Walk(I, D, sat, blocked, nodes, arcs, flow)
    requires 0 <= a < I.N.ArcCount() && I.N.tail[a] == nodes[|arcs|] && !blocked[a]
    ensures |arcs| + 1 < I.N.NodeCount()
    ensures !I.tgt[I.N.head[a]] ==> Walk(I, D, sat, blocked, nodes + [I.N.head[a]], arcs + [a], flow)
  {
    ExtendStep(I, D.sat0, D.S, sat, blocked, nodes, arcs, a);
  }

  /**
   * An arc `a` out of the end of the path into a target completes an
   * augmenting path `p`: pushing a unit over it and blocking its arcs raises
   * the flow by one and restarts the walk at the seed, the `k`-th of the front.
   */
  lemma WalkAugment(I: Instance, D: Seed, sat: seq<bool>, blocked: seq<bool>, nodes: seq<int>, arcs: seq<int>, flow: int, a: int, k: int,
                    p: seq<int>, sat': seq<bool>, blocked': seq<bool>)
    requires I.Valid() && Walk(I, D, sat, blocked, nodes, arcs, flow)
    requires 0 <= a < I.N.ArcCount() && I.N.tail[a] == nodes[|arcs|] && !blocked[a] && I.tgt[I.N.head[a]]
    requires 0 <= k < |I.front| && I.front[k] == D.f
    requires p == arcs + [a] && sat' == PushAll(I.N, sat, p) && blocked' == BlockAll(blocked, p)
    ensures Walk(I, D, sat', blocked', [D.f], [], flow + 1)
    ensures Unblocked(blocked') < Unblocked(blocked)
  {
    PhaseAugmentStep(I, D.sat0, D.S, sat, blocked, nodes, arcs, a, flow, k, p, sat', blocked');
  }

  /** The augmenting path of `WalkAugment` is a clean chain from the seed to the target, over a flow that keeps arcs and back arcs apart. */
  lemma WalkAugmentClean(I: Instance, D: Seed, sat: seq<bool>, blocked: seq<bool>, nodes: seq<int>, arcs: seq<int>, flow: int, a: int)
    requires I.Valid() && Walk(I, D, sat, blocked, nodes, arcs, flow)
    requires 0 <= a < I.N.ArcCount() && I.N.tail[a] == nodes[|arcs|] && !blocked[a] && I.tgt[I.N.head[a]]
    ensures Chain(I.N, arcs + [a], D.f, I.N.head[a]) && Clean(I.N, sat, arcs + [a]) && NoAntiparallel(I.N, sat)
  {
    AugmentClean(I, D.sat0, D.S, sat, blocked, nodes, arcs, a);
  }

  /** Once the search from the seed `i` has blocked all its out-arcs, the seeds before it stay blocked too. */
  lemma SeedsBlocked(I: Instance, blocked: seq<bool>, blocked': seq<bool>, i: int)
    requires I.Valid() && |blocked| == |blocked'| == I.N.ArcCount() && 0 <= i < |I.front|
    requires forall k, j :: 0 <= k < i && 0 <= j < |I.N.outArcs[I.front[k]]| ==> blocked[I.N.outArcs[I.front[k]][j]]
    requires forall e :: 0 <= e < |blocked| && blocked[e] ==> blocked'[e]
    requires forall j :: 0 <= j < |I.N.outArcs[I.front[i]]| ==> blocked'[I.N.outArcs[I.front[i]][j]]
    ensures forall k, j :: 0 <= k < i + 1 && 0 <= j < |I.N.outArcs[I.front[k]]| ==> blocked'[I.N.outArcs[I.front[k]][j]]
  {
    forall k, j | 0 <= k < i + 1 && 0 <= j < |I.N.outArcs[I.front[k]]|
      ensures blocked'[I.N.outArcs[I.front[k]][j]]
    {
      if k < i {
        OutArcsValid(I.N, I.front[k]);
        assert blocked[I.N.outArcs[I.front[k]][j]];
      }
    }
  }
}
