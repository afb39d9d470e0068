/**
 * The unit-capacity flow networks of src/ford_fulkerson.h and src/dinic.h.
 * Every arc has a back arc (the arc in the opposite direction); the flow is a
 * saturated flag per arc, and a unit of flow over an arc whose back arc is
 * saturated cancels that back arc instead. The excess of a node is computed
 * as `excess_at_node` does: over its out-arcs, +1 per saturated back arc and
 * -1 per saturated arc.
 */
module FlowNetwork {
  import opened Graph

  /** `tail`, `head` and `back_arc` per arc; `outArcs[u]` is `inv_tail(u)`, the arcs leaving `u`. */
  datatype Network = Network(tail: seq<int>, head: seq<int>, back: seq<int>, outArcs: seq<seq<int>>)
  {
    function NodeCount(): nat { |outArcs| }

    function ArcCount(): nat { |head| }

    ghost predicate Valid()
    {
      && |tail| == |head| == |back|
      && (forall a :: 0 <= a < |head| ==> 0 <= tail[a] < |outArcs| && 0 <= head[a] < |outArcs| && 0 <= back[a] < |head|)
      && (forall a :: 0 <= a < |head| ==> back[a] != a && back[back[a]] == a && tail[back[a]] == head[a] && head[back[a]] == tail[a])
      && (forall u :: 0 <= u < |outArcs| ==> Distinct(outArcs[u]))
      && (forall u, i :: 0 <= u < |outArcs| && 0 <= i < |outArcs[u]| ==> 0 <= outArcs[u][i] < |head| && tail[outArcs[u][i]] == u)
      && (forall a :: 0 <= a < |head| ==> a in outArcs[tail[a]])
    }
  }

  function B(b: bool): int { if b then 1 else 0 }

  /** No arc is saturated together with its back arc. */
  ghost predicate NoAntiparallel(N: Network, sat: seq<bool>)
    requires N.Valid() && |sat| == N.ArcCount()
  {
    forall a :: 0 <= a < N.ArcCount() ==> !(sat[a] && sat[N.back[a]])
  }

  predicate ArcsOf(N: Network, L: seq<int>)
  {
    forall i :: 0 <= i < |L| ==> 0 <= L[i] < |N.head| && 0 <= L[i] < |N.back| && 0 <= N.back[L[i]] < |N.head|
  }

  /** The excess contributed by the arcs of `L`: +1 per saturated back arc, -1 per saturated arc. */
  function ListExcess(N: Network, sat: seq<bool>, L: seq<int>): int
    requires |sat| == N.ArcCount() && ArcsOf(N, L)
  {
    if L == [] then 0 else ListExcess(N, sat, L[..|L| - 1]) + B(sat[N.back[L[|L| - 1]]]) - B(sat[L[|L| - 1]])
  }

  /** `excess_at_node(u)`. */
  function ExcessAt(N: Network, sat: seq<bool>, u: int): int
    requires N.Valid() && |sat| == N.ArcCount() && 0 <= u < N.NodeCount()
  {
    OutArcsValid(N, u);
    ListExcess(N, sat, N.outArcs[u])
  }

  lemma OutArcsValid(N: Network, u: int)
    requires N.Valid() && 0 <= u < N.NodeCount()
    ensures ArcsOf(N, N.outArcs[u])
  {
  }

  lemma Distribute(d: int, x: int, y: int, p: int, q: int)
    ensures d * (x + p - (y + q)) == d * (x - y) + d * p - d * q
  {
  }

  /** Changing the flag of arc `b` changes the excess of a list by that change at `back b` minus at `b`. */
  lemma {:induction false} ListExcessFlip(N: Network, sat: seq<bool>, L: seq<int>, b: int, v: bool)
    requires |N.back| == N.ArcCount() && forall a :: 0 <= a < N.ArcCount() ==> 0 <= N.back[a] < N.ArcCount() && N.back[N.back[a]] == a
    requires |sat| == N.ArcCount() && ArcsOf(N, L) && Distinct(L) && 0 <= b < N.ArcCount()
    ensures ListExcess(N, sat[b := v], L)
      == ListExcess(N, sat, L) + (B(v) - B(sat[b])) * (B(N.back[b] in L) - B(b in L))
  {
    if L != [] {
      var front, a := L[..|L| - 1], L[|L| - 1];
      var d, bb := B(v) - B(sat[b]), N.back[b];
      ListExcessFlip(N, sat, front, b, v);
      FlipAt(N, sat, a, b, v);
      MemberLast(L, bb);
      MemberLast(L, b);
      Distribute(d, B(bb in front), B(b in front), B(a == bb), B(a == b));
    }
  }

  /** The change of one arc's contribution when the flag of arc `b` is set to `v`. */
  lemma FlipAt(N: Network, sat: seq<bool>, a: int, b: int, v: bool)
    requires |sat| == N.ArcCount() && |N.back| == N.ArcCount()
    requires 0 <= a < N.ArcCount() && 0 <= N.back[a] < N.ArcCount() && N.back[N.back[a]] == a
    requires 0 <= b < N.ArcCount() && 0 <= N.back[b] < N.ArcCount() && N.back[N.back[b]] == b
    ensures B(sat[b := v][N.back[a]]) - B(sat[b := v][a])
      == B(sat[N.back[a]]) - B(sat[a]) + (B(v) - B(sat[b])) * (B(a == N.back[b]) - B(a == b))
  {
    if a == b && a == N.back[b] {
    } else if a == b {
      assert N.back[a] != b;
    } else if a == N.back[b] {
      assert N.back[a] == b;
    } else {
      assert N.back[a] != b;
    }
  }

  /** Membership in a duplicate-free list, split at its last element. */
  lemma MemberLast(L: seq<int>, x: int)
    requires L != [] && Distinct(L)
    ensures B(x in L) == B(x in L[..|L| - 1]) + B(L[|L| - 1] == x)
  {
    assert L == L[..|L| - 1] + [L[|L| - 1]];
    if L[|L| - 1] == x {
      assert x !in L[..|L| - 1];
    }
  }

  /** Changing the flag of arc `b` moves its change of flow from `tail b` to `head b`. */
  lemma ExcessFlip(N: Network, sat: seq<bool>, b: int, v: bool, u: int)
    requires N.Valid() && |sat| == N.ArcCount() && 0 <= b < N.ArcCount() && 0 <= u < N.NodeCount()
    ensures ExcessAt(N, sat[b := v], u)
      == ExcessAt(N, sat, u) + (B(v) - B(sat[b])) * (B(N.head[b] == u) - B(N.tail[b] == u))
  {
    OutArcsValid(N, u);
    ListExcessFlip(N, sat, N.outArcs[u], b, v);
    var bb := N.back[b];
    assert bb in N.outArcs[u] <==> N.head[b] == u by {
      if N.head[b] == u {
        assert bb in N.outArcs[N.tail[bb]];
      }
    }
    assert b in N.outArcs[u] <==> N.tail[b] == u by {
      if N.tail[b] == u {
        assert b in N.outArcs[N.tail[b]];
      }
    }
  }

  /** One arc of an augmenting path: cancel a saturated back arc, otherwise saturate the arc. */
  function PushUnit(N: Network, sat: seq<bool>, a: int): seq<bool>
    requires N.Valid() && |sat| == N.ArcCount() && 0 <= a < N.ArcCount()
  {
    if sat[N.back[a]] then sat[N.back[a] := false] else sat[a := true]
  }

  /**
   * Pushing a unit over an unsaturated arc moves one unit of excess from its
   * tail to its head and keeps arcs and back arcs apart.
   */
  lemma PushUnitEffect(N: Network, sat: seq<bool>, a: int)
    requires N.Valid() && |sat| == N.ArcCount() && 0 <= a < N.ArcCount()
    requires NoAntiparallel(N, sat) && !sat[a]
    ensures NoAntiparallel(N, PushUnit(N, sat, a))
    ensures forall u :: 0 <= u < N.NodeCount() ==>
      ExcessAt(N, PushUnit(N, sat, a), u) == ExcessAt(N, sat, u) + B(N.head[a] == u) - B(N.tail[a] == u)
  {
    var s' := PushUnit(N, sat, a);
    var bb := N.back[a];
    forall u | 0 <= u < N.NodeCount()
      ensures ExcessAt(N, s', u) == ExcessAt(N, sat, u) + B(N.head[a] == u) - B(N.tail[a] == u)
    {
      if sat[bb] {
        ExcessFlip(N, sat, bb, false, u);
      } else {
        ExcessFlip(N, sat, a, true, u);
      }
    }
    forall e | 0 <= e < N.ArcCount() ensures !(s'[e] && s'[N.back[e]]) {
      if !sat[bb] {
        if e == a {
          assert s'[N.back[e]] == sat[bb];
        } else if N.back[e] == a {
          assert e == bb;
        }
      }
    }
  }

  /** The excess summed over the nodes `u < k` flagged in `mask`. */
  function NodeSum(N: Network, sat: seq<bool>, mask: seq<bool>, k: nat): int
    requires N.Valid() && |sat| == N.ArcCount() && |mask| == N.NodeCount() && k <= N.NodeCount()
  {
    if k == 0 then 0 else NodeSum(N, sat, mask, k - 1) + (if mask[k - 1] then ExcessAt(N, sat, k - 1) else 0)
  }

  /** A unit of excess moved from `s` to `t` moves the masked sum accordingly. */
  lemma {:induction false} NodeSumShift(N: Network, sat: seq<bool>, sat': seq<bool>, mask: seq<bool>, s: int, t: int, k: nat)
    requires N.Valid() && |sat| == |sat'| == N.ArcCount() && |mask| == N.NodeCount() && k <= N.NodeCount()
    requires forall u :: 0 <= u < N.NodeCount() ==> ExcessAt(N, sat', u) == ExcessAt(N, sat, u) + B(u == t) - B(u == s)
    ensures NodeSum(N, sat', mask, k) == NodeSum(N, sat, mask, k) + B(0 <= t < k && mask[t]) - B(0 <= s < k && mask[s])
  {
    if k > 0 {
      NodeSumShift(N, sat, sat', mask, s, t, k - 1);
    }
  }

  /** What `verify_flow_conservation` checks: its flags for the source sum and the target sum. */
  function TargetMask(isSource: seq<bool>, isTarget: seq<bool>): (m: seq<bool>)
    requires |isSource| == |isTarget|
    ensures |m| == |isSource| && forall u :: 0 <= u < |m| ==> (m[u] <==> !isSource[u] && isTarget[u])
  {
    seq(|isSource|, u requires 0 <= u < |isSource| => !isSource[u] && isTarget[u])
  }

  /**
   * Flow conservation of a flow of value `flow`: excess 0 at every node that is
   * neither source nor target, sum -flow over the sources and +flow over the
   * remaining targets; never an arc and its back arc both saturated.
   */
  ghost predicate Conserved(N: Network, sat: seq<bool>, isSource: seq<bool>, isTarget: seq<bool>, flow: int)
    requires N.Valid() && |sat| == N.ArcCount() && |isSource| == |isTarget| == N.NodeCount()
  {
    && NoAntiparallel(N, sat)
    && (forall u :: 0 <= u < N.NodeCount() && !isSource[u] && !isTarget[u] ==> ExcessAt(N, sat, u) == 0)
    && NodeSum(N, sat, isSource, N.NodeCount()) == -flow
    && NodeSum(N, sat, TargetMask(isSource, isTarget), N.NodeCount()) == flow
  }

  /** The empty flow: every excess is 0. */
  lemma {:induction false} ZeroExcess(N: Network, sat: seq<bool>, L: seq<int>)
    requires |sat| == N.ArcCount() && ArcsOf(N, L) && forall a :: 0 <= a < |sat| ==> !sat[a]
    ensures ListExcess(N, sat, L) == 0
  {
    if L != [] {
      ZeroExcess(N, sat, L[..|L| - 1]);
    }
  }

  lemma {:induction false} ZeroNodeSum(N: Network, sat: seq<bool>, mask: seq<bool>, k: nat)
    requires N.Valid() && |sat| == N.ArcCount() && |mask| == N.NodeCount() && k <= N.NodeCount()
    requires forall a :: 0 <= a < |sat| ==> !sat[a]
    ensures NodeSum(N, sat, mask, k) == 0
  {
    if k > 0 {
      ZeroNodeSum(N, sat, mask, k - 1);
      OutArcsValid(N, k - 1);
      ZeroExcess(N, sat, N.outArcs[k - 1]);
    }
  }

  /** No saturated arc is a conserved flow of value 0. */
  lemma ZeroConserved(N: Network, sat: seq<bool>, isSource: seq<bool>, isTarget: seq<bool>)
    requires N.Valid() && |sat| == N.ArcCount() && |isSource| == |isTarget| == N.NodeCount()
    requires forall a :: 0 <= a < |sat| ==> !sat[a]
    ensures Conserved(N, sat, isSource, isTarget, 0)
  {
    forall u | 0 <= u < N.NodeCount() ensures ExcessAt(N, sat, u) == 0 {
      OutArcsValid(N, u);
      ZeroExcess(N, sat, N.outArcs[u]);
    }
    ZeroNodeSum(N, sat, isSource, N.NodeCount());
    ZeroNodeSum(N, sat, TargetMask(isSource, isTarget), N.NodeCount());
  }

  /**
   * A unit moved from a source `s` to a target `t` that is not a source turns a
   * conserved flow of value `flow` into one of value `flow + 1`.
   */
  lemma ConservedShift(N: Network, sat: seq<bool>, sat': seq<bool>, isSource: seq<bool>, isTarget: seq<bool>, flow: int, s: int, t: int)
    requires N.Valid() && |sat| == |sat'| == N.ArcCount() && |isSource| == |isTarget| == N.NodeCount()
    requires Conserved(N, sat, isSource, isTarget, flow) && NoAntiparallel(N, sat')
    requires 0 <= s < N.NodeCount() && isSource[s] && 0 <= t < N.NodeCount() && !isSource[t] && isTarget[t]
    requires forall u :: 0 <= u < N.NodeCount() ==> ExcessAt(N, sat', u) == ExcessAt(N, sat, u) + B(u == t) - B(u == s)
    ensures Conserved(N, sat', isSource, isTarget, flow + 1)
  {
    NodeSumShift(N, sat, sat', isSource, s, t, N.NodeCount());
    NodeSumShift(N, sat, sat', TargetMask(isSource, isTarget), s, t, N.NodeCount());
  }

  // ------------------------------------------------------------------
  // The flow across a cut

  /** The sum of `w` over the arcs of `S` below `m`. */
  ghost function ArcSum(S: set<int>, w: int -> int, m: nat): int
  {
    if m == 0 then 0 else ArcSum(S, w, m - 1) + (if m - 1 in S then w(m - 1) else 0)
  }

  lemma {:induction false} ArcSumAdd(S: set<int>, x: int, w: int -> int, m: nat)
    requires x !in S
    ensures ArcSum(S + {x}, w, m) == ArcSum(S, w, m) + (if 0 <= x < m then w(x) else 0)
  {
    if m > 0 {
      ArcSumAdd(S, x, w, m - 1);
    }
  }

  lemma {:induction false} ArcSumUnion(S: set<int>, T: set<int>, w: int -> int, m: nat)
    requires S !! T
    ensures ArcSum(S + T, w, m) == ArcSum(S, w, m) + ArcSum(T, w, m)
  {
    if m > 0 {
      ArcSumUnion(S, T, w, m - 1);
    }
  }

  /** Sums over sets with the same arcs below `m`, of weights that agree on them, are equal. */
  lemma {:induction false} ArcSumSame(S: set<int>, T: set<int>, w: int -> int, v: int -> int, m: nat)
    requires forall a :: 0 <= a < m ==> (a in S <==> a in T)
    requires forall a :: 0 <= a < m && a in S ==> w(a) == v(a)
    ensures ArcSum(S, w, m) == ArcSum(T, v, m)
  {
    if m > 0 {
      ArcSumSame(S, T, w, v, m - 1);
    }
  }

  lemma {:induction false} ArcSumDiff(S: set<int>, w: int -> int, u: int -> int, v: int -> int, m: nat)
    requires forall a :: 0 <= a < m && a in S ==> w(a) == u(a) - v(a)
    ensures ArcSum(S, w, m) == ArcSum(S, u, m) - ArcSum(S, v, m)
  {
    if m > 0 {
      ArcSumDiff(S, w, u, v, m - 1);
    }
  }

  lemma {:induction false} ArcSumNone(S: set<int>, w: int -> int, m: nat)
    requires forall a :: 0 <= a < m ==> a !in S
    ensures ArcSum(S, w, m) == 0
  {
    if m > 0 {
      ArcSumNone(S, w, m - 1);
    }
  }

  /**
   * Summing over `S` a weight read at the back arc is summing the weight over
   * `T` when the back arcs of `S` are exactly `T`.
   */
  lemma BackSum(N: Network, S: set<int>, T: set<int>, w: int -> int, wb: int -> int)
    requires N.Valid()
    requires forall a :: a in S ==> 0 <= a < N.ArcCount()
    requires forall a :: a in T ==> 0 <= a < N.ArcCount()
    requires forall a :: 0 <= a < N.ArcCount() ==> (a in S <==> N.back[a] in T)
    requires forall a :: 0 <= a < N.ArcCount() ==> wb(a) == w(N.back[a])
    ensures ArcSum(S, wb, N.ArcCount()) == ArcSum(T, w, N.ArcCount())
    decreases |S|
  {
    var m := N.ArcCount();
    if a: int :| a in S {
      var b := N.back[a];
      var S' := S - {a};
      var T' := T - {b};
      forall x | 0 <= x < m
        ensures x in S' <==> N.back[x] in T'
      {
        if N.back[x] == b {
          assert N.back[N.back[x]] == x;
        }
      }
      BackSum(N, S', T', w, wb);
      assert S == S' + {a};
      assert T == T' + {b};
      ArcSumAdd(S', a, wb, m);
      ArcSumAdd(T', b, w, m);
    } else {
      forall t | 0 <= t < m
        ensures t !in T
      {
        assert N.back[N.back[t]] == t;
        assert N.back[t] !in S;
      }
      ArcSumNone(S, wb, m);
      ArcSumNone(T, w, m);
    }
  }

  /** The flags of the arcs as weights. */
  function SatW(sat: seq<bool>): int -> int
  {
    a => if 0 <= a < |sat| then B(sat[a]) else 0
  }

  /** The flags of the back arcs as weights. */
  function BackSatW(N: Network, sat: seq<bool>): int -> int
  {
    a => if 0 <= a < |N.back| && 0 <= N.back[a] < |sat| then B(sat[N.back[a]]) else 0
  }

  /** What an arc adds to the excess of its tail: +1 for a saturated back arc, -1 when saturated. */
  function ExcessW(N: Network, sat: seq<bool>): int -> int
  {
    a => if 0 <= a < |sat| && 0 <= a < |N.back| && 0 <= N.back[a] < |sat| then B(sat[N.back[a]]) - B(sat[a]) else 0
  }

  /** The excess over a duplicate-free list of arcs sums the arcs' weights. */
  lemma {:induction false} ListExcessSum(N: Network, sat: seq<bool>, L: seq<int>)
    requires N.Valid() && |sat| == N.ArcCount() && ArcsOf(N, L) && Distinct(L)
    ensures ListExcess(N, sat, L) == ArcSum(Elems(L), ExcessW(N, sat), N.ArcCount())
  {
    if L != [] {
      var L' := L[..|L| - 1];
      var x := L[|L| - 1];
      assert L == L' + [x];
      assert ArcsOf(N, L') && Distinct(L');
      ListExcessSum(N, sat, L');
      assert Elems(L) == Elems(L') + {x};
      assert x !in Elems(L');
      assert 0 <= x < N.ArcCount();
      assert ExcessW(N, sat)(x) == B(sat[N.back[x]]) - B(sat[x]);
      ArcSumAdd(Elems(L'), x, ExcessW(N, sat), N.ArcCount());
    } else {
      ArcSumNone(Elems(L), ExcessW(N, sat), N.ArcCount());
    }
  }

  /** The arcs leaving `u`. */
  ghost function TailSet(N: Network, u: int): set<int>
  {
    set a | 0 <= a < |N.tail| && N.tail[a] == u
  }

  lemma ExcessSum(N: Network, sat: seq<bool>, u: int)
    requires N.Valid() && |sat| == N.ArcCount() && 0 <= u < N.NodeCount()
    ensures ExcessAt(N, sat, u) == ArcSum(TailSet(N, u), ExcessW(N, sat), N.ArcCount())
  {
    OutArcsValid(N, u);
    ListExcessSum(N, sat, N.outArcs[u]);
    forall a | 0 <= a < N.ArcCount()
      ensures a in Elems(N.outArcs[u]) <==> a in TailSet(N, u)
    {
      if N.tail[a] == u {
        assert a in N.outArcs[N.tail[a]];
      }
    }
    ArcSumSame(Elems(N.outArcs[u]), TailSet(N, u), ExcessW(N, sat), ExcessW(N, sat), N.ArcCount());
  }

  /** The arcs whose tail is a flagged node below `k`. */
  ghost function MaskTails(N: Network, mask: seq<bool>, k: int): set<int>
  {
    set a | 0 <= a < |N.tail| && 0 <= N.tail[a] < k && N.tail[a] < |mask| && mask[N.tail[a]]
  }

  /** The masked sum of node excesses is the sum over the arcs leaving the masked nodes. */
  lemma {:induction false} NodeSumArcs(N: Network, sat: seq<bool>, mask: seq<bool>, k: nat)
    requires N.Valid() && |sat| == N.ArcCount() && |mask| == N.NodeCount() && k <= N.NodeCount()
    ensures NodeSum(N, sat, mask, k) == ArcSum(MaskTails(N, mask, k), ExcessW(N, sat), N.ArcCount())
  {
    var m := N.ArcCount();
    if k == 0 {
      ArcSumNone(MaskTails(N, mask, k), ExcessW(N, sat), m);
    } else {
      NodeSumArcs(N, sat, mask, k - 1);
      var more := if mask[k - 1] then TailSet(N, k - 1) else {};
      assert MaskTails(N, mask, k) == MaskTails(N, mask, k - 1) + more;
      ArcSumUnion(MaskTails(N, mask, k - 1), more, ExcessW(N, sat), m);
      if mask[k - 1] {
        ExcessSum(N, sat, k - 1);
      } else {
        ArcSumNone(more, ExcessW(N, sat), m);
      }
    }
  }

  /** The arcs from a flagged node to an unflagged one. */
  ghost function LeavingSet(N: Network, side: seq<bool>): set<int>
  {
    set a | 0 <= a < |N.tail| && 0 <= a < |N.head| && 0 <= N.tail[a] < |side| && 0 <= N.head[a] < |side|
                   && side[N.tail[a]] && !side[N.head[a]]
  }

  /** The number of arcs below `m` that leave the flagged side. */
  function LeavingCount(N: Network, side: seq<bool>, m: int): nat
    requires N.Valid() && |side| == N.NodeCount() && 0 <= m <= N.ArcCount()
  {
    if m == 0 then 0
    else LeavingCount(N, side, m - 1) + (if side[N.tail[m - 1]] && !side[N.head[m - 1]] then 1 else 0)
  }

  lemma {:induction false} LeavingCountSum(N: Network, side: seq<bool>, k: nat)
    requires N.Valid() && |side| == N.NodeCount() && k <= N.ArcCount()
    ensures ArcSum(LeavingSet(N, side), a => 1, k) == LeavingCount(N, side, k)
  {
    if k > 0 {
      LeavingCountSum(N, side, k - 1);
    }
  }

  /** A side and its complement are left by equally many arcs: the back arcs pair them up. */
  lemma LeavingComplement(N: Network, side: seq<bool>, other: seq<bool>)
    requires N.Valid() && |side| == |other| == N.NodeCount()
    requires forall u :: 0 <= u < N.NodeCount() ==> other[u] == !side[u]
    ensures LeavingCount(N, other, N.ArcCount()) == LeavingCount(N, side, N.ArcCount())
  {
    LeavingCountSum(N, side, N.ArcCount());
    LeavingCountSum(N, other, N.ArcCount());
    BackSum(N, LeavingSet(N, side), LeavingSet(N, other), a => 1, a => 1);
  }

  lemma LeavingMember(N: Network, side: seq<bool>, a: int)
    requires N.Valid() && |side| == N.NodeCount() && 0 <= a < N.ArcCount()
    ensures a in LeavingSet(N, side) <==> side[N.tail[a]] && !side[N.head[a]]
  {
  }

  /** Arcs each of weight -1 over the leaving arcs sum to minus their count. */
  lemma {:induction false} LeavingExcess(N: Network, w: int -> int, side: seq<bool>, k: nat)
    requires N.Valid() && |side| == N.NodeCount() && k <= N.ArcCount()
    requires forall a :: 0 <= a < N.ArcCount() && a in LeavingSet(N, side) ==> w(a) == -1
    ensures ArcSum(LeavingSet(N, side), w, k) + LeavingCount(N, side, k) == 0
  {
    if k > 0 {
      var S := LeavingSet(N, side);
      LeavingExcess(N, w, side, k - 1);
      LeavingMember(N, side, k - 1);
      assert ArcSum(S, w, k) == ArcSum(S, w, k - 1) + (if k - 1 in S then w(k - 1) else 0);
      assert LeavingCount(N, side, k) == LeavingCount(N, side, k - 1) + (if k - 1 in S then 1 else 0);
    }
  }

  /** Over the nodes of a side, the excess sum equals the sources' sum when the side holds every source and no other terminal. */
  lemma {:induction false} SideSum(N: Network, sat: seq<bool>, isSource: seq<bool>, isTarget: seq<bool>, side: seq<bool>, flow: int, k: nat)
    requires N.Valid() && |sat| == N.ArcCount() && |isSource| == |isTarget| == |side| == N.NodeCount() && k <= N.NodeCount()
    requires Conserved(N, sat, isSource, isTarget, flow)
    requires forall u :: 0 <= u < N.NodeCount() && isSource[u] ==> side[u]
    requires forall u :: 0 <= u < N.NodeCount() && side[u] && !isSource[u] ==> !isTarget[u]
    ensures NodeSum(N, sat, side, k) == NodeSum(N, sat, isSource, k)
  {
    if k > 0 {
      SideSum(N, sat, isSource, isTarget, side, flow, k - 1);
    }
  }

  /** The arcs with both ends on the flagged side. */
  ghost function InnerSet(N: Network, side: seq<bool>): set<int>
  {
    set a | 0 <= a < |N.tail| && 0 <= a < |N.head| && 0 <= N.tail[a] < |side| && 0 <= N.head[a] < |side|
                   && side[N.tail[a]] && side[N.head[a]]
  }

  /** Over the arcs inside a side, each unit of flow leaves one node and enters another. */
  lemma InnerExcess(N: Network, sat: seq<bool>, side: seq<bool>)
    requires N.Valid() && |sat| == N.ArcCount() && |side| == N.NodeCount()
    ensures ArcSum(InnerSet(N, side), ExcessW(N, sat), N.ArcCount()) == 0
  {
    var m, inner := N.ArcCount(), InnerSet(N, side);
    ArcSumDiff(inner, ExcessW(N, sat), BackSatW(N, sat), SatW(sat), m);
    forall a | 0 <= a < m
      ensures a in inner <==> N.back[a] in inner
    {
    }
    BackSum(N, inner, inner, SatW(sat), BackSatW(N, sat));
  }

  /** The arcs leaving the nodes of a side are those inside it and those leaving it. */
  lemma SideArcs(N: Network, sat: seq<bool>, side: seq<bool>)
    requires N.Valid() && |sat| == N.ArcCount() && |side| == N.NodeCount()
    ensures NodeSum(N, sat, side, N.NodeCount())
         == ArcSum(InnerSet(N, side), ExcessW(N, sat), N.ArcCount()) + ArcSum(LeavingSet(N, side), ExcessW(N, sat), N.ArcCount())
  {
    NodeSumArcs(N, sat, side, N.NodeCount());
    assert MaskTails(N, side, N.NodeCount()) == InnerSet(N, side) + LeavingSet(N, side);
    ArcSumUnion(InnerSet(N, side), LeavingSet(N, side), ExcessW(N, sat), N.ArcCount());
  }

  /**
   * Max-flow min-cut for the unit-capacity networks: for a conserved flow of
   * value `flow`, a side that holds every source, no target besides them,
   * and every head of an unsaturated arc leaving it, is left by exactly
   * `flow` arcs.
   */
  lemma CutCarriesFlow(N: Network, sat: seq<bool>, isSource: seq<bool>, isTarget: seq<bool>, flow: int, side: seq<bool>)
    requires N.Valid() && |sat| == N.ArcCount() && |isSource| == |isTarget| == |side| == N.NodeCount()
    requires Conserved(N, sat, isSource, isTarget, flow)
    requires forall u :: 0 <= u < N.NodeCount() && isSource[u] ==> side[u]
    requires forall u :: 0 <= u < N.NodeCount() && side[u] && !isSource[u] ==> !isTarget[u]
    requires forall a :: 0 <= a < N.ArcCount() && side[N.tail[a]] && !sat[a] ==> side[N.head[a]]
    ensures LeavingCount(N, side, N.ArcCount()) == flow
  {
    var m := N.ArcCount();
    SideSum(N, sat, isSource, isTarget, side, flow, N.NodeCount());
    SideArcs(N, sat, side);
    InnerExcess(N, sat, side);
    forall a | 0 <= a < m && a in LeavingSet(N, side)
      ensures ExcessW(N, sat)(a) == -1
    {
      assert !(sat[a] && sat[N.back[a]]);
    }
    LeavingExcess(N, ExcessW(N, sat), side, m);
  }
}
