/**
 * src/preorder.h: `compute_preorder`, a depth-first preorder of all nodes with
 * an explicit stack. Roots are tried in increasing id; each root that is not
 * yet seen starts a new block of the order, which the search from it fills.
 */
module Preorder {
  import opened Graph

  /** `seen` flags exactly the nodes written to `s`. */
  ghost predicate Written(seen: seq<bool>, s: seq<int>)
  {
    forall v :: 0 <= v < |seen| ==> (seen[v] <==> v in s)
  }

  /** Every arc an iterator has already passed leads to a seen node. */
  ghost predicate Passed(out: seq<seq<int>>, seen: seq<bool>, next: seq<int>)
    requires |seen| == |out| == |next| && IsAdjacency(out)
  {
    forall v, k :: 0 <= v < |out| && seen[v] && 0 <= k < next[v] && k < |out[v]| ==> seen[out[v][k]]
  }

  /** The nodes written to `s` have all their out-neighbours in `s`. */
  ghost predicate Closed(out: seq<seq<int>>, s: seq<int>)
  {
    forall j, k :: 0 <= j < |s| && 0 <= s[j] < |out| && 0 <= k < |out[s[j]]| ==> out[s[j]][k] in s
  }

  /** `v` is an out-neighbour of `u`. */
  predicate Arc(out: seq<seq<int>>, u: int, v: int)
  {
    0 <= u < |out| && v in out[u]
  }

  /** The node at position `j` has an in-arc from an earlier position `i` of the same block. */
  ghost predicate HasParent(out: seq<seq<int>>, s: seq<int>, starts: seq<int>, j: int)
    requires 0 <= j < |s|
  {
    exists i :: 0 <= i < j && Arc(out, s[i], s[j])
      && forall k :: 0 <= k < |starts| ==> !(i < starts[k] <= j)
  }

  /** The node at position `j` has an in-arc from a position in `lo..j-1`. */
  ghost predicate ParentFrom(out: seq<seq<int>>, s: seq<int>, lo: int, j: int)
    requires 0 <= lo && j < |s|
  {
    exists i :: lo <= i < j && Arc(out, s[i], s[j])
  }

  /** Every position after `lo` has an in-arc from a position in `lo..` before it. */
  ghost predicate ParentsFrom(out: seq<seq<int>>, s: seq<int>, lo: int)
  {
    0 <= lo && forall j :: lo < j < |s| ==> ParentFrom(out, s, lo, j)
  }

  /**
   * `starts` are the positions where the blocks of `s` begin: increasing, the
   * first at 0; the node that opens a block is the smallest id missing from
   * the blocks before it, which are closed under out-arcs; every other node is
   * reached by an arc from an earlier node of its own block.
   */
  ghost predicate Blocks(out: seq<seq<int>>, s: seq<int>, starts: seq<int>)
  {
    && (forall k :: 0 <= k < |starts| ==> 0 <= starts[k] < |s|)
    && (forall k, l :: 0 <= k < l < |starts| ==> starts[k] < starts[l])
    && (|s| > 0 ==> |starts| > 0 && starts[0] == 0)
    && (forall k :: 0 <= k < |starts| ==> forall v :: 0 <= v < s[starts[k]] ==> v in s[..starts[k]])
    && (forall k :: 0 <= k < |starts| ==> Closed(out, s[..starts[k]]))
    && (forall j :: 0 <= j < |s| && j !in starts ==> HasParent(out, s, starts, j))
  }

  /** The state of `compute_preorder` before root `r`: the nodes written so far are fully explored. */
  ghost predicate Between(out: seq<seq<int>>, p: seq<int>, seen: seq<bool>, next: seq<int>, id: int, r: int, starts: seq<int>)
    requires IsAdjacency(out) && |p| == |seen| == |next| == |out|
  {
    var n := |out|;
    && 0 <= r <= n && 0 <= id <= n
    && Distinct(p[..id]) && InRange(p[..id], n)
    && Written(seen, p[..id])
    && (forall v :: 0 <= v < n ==> next[v] == if seen[v] then |out[v]| else 0)
    && Passed(out, seen, next)
    && (forall v :: 0 <= v < r ==> seen[v])
    && Blocks(out, p[..id], starts)
  }

  /**
   * `compute_preorder(out)`: the order `p` and the number of roots. `p` lists
   * every node once; `starts` (not computed by the source) marks its blocks.
   * On a symmetric graph the blocks are the connected components.
   */
  method ComputePreorder(out: seq<seq<int>>) returns (p: array<int>, count: nat, ghost starts: seq<int>)
    requires IsAdjacency(out)
    ensures fresh(p) && IsPermutation(p[..], |out|)
    ensures Blocks(out, p[..], starts)
    ensures count == |starts|
    ensures Symmetric(out) ==>
      forall i, j :: 0 <= i < |out| && 0 <= j < |out| ==> (SameBlock(starts, i, j) <==> Connected(out, p[i], p[j]))
  {
    var n := |out|;
    p := new int[n];
    var seen := new bool[n](_ => false);
    var next := new int[n](_ => 0);
    var stack := new int[n];
    var id := 0;
    count := 0;
    starts := [];
    var r := 0;
    assert Written(seen[..], p[..0]);
    while r < n
      invariant Between(out, p[..], seen[..], next[..], id, r, starts)
      invariant count == |starts|
    {
      if !seen[r] {
        count := count + 1;
        id, starts := VisitRoot(out, p, seen, next, stack, id, r, starts);
      }
      r := r + 1;
    }
    BetweenDone(out, p[..], seen[..], next[..], id, starts);
    assert p[..] == p[..][..id];
    if Symmetric(out) {
      forall i, j | 0 <= i < |out| && 0 <= j < |out|
        ensures SameBlock(starts, i, j) <==> Connected(out, p[i], p[j])
      {
        BlocksAreComponents(out, p[..], starts, i, j);
      }
    }
  }

  /** The block of root `r`: the search from it, recorded as a new block start. */
  method VisitRoot(out: seq<seq<int>>, p: array<int>, seen: array<bool>, next: array<int>, stack: array<int>,
                   id: int, r: int, ghost starts: seq<int>)
    returns (id': int, ghost starts': seq<int>)
    requires IsAdjacency(out)
    requires p.Length == seen.Length == next.Length == stack.Length == |out|
    requires p != stack && p != next && next != stack
    requires Between(out, p[..], seen[..], next[..], id, r, starts) && r < |out| && !seen[r]
    modifies p, seen, next, stack
    ensures Between(out, p[..], seen[..], next[..], id', r + 1, starts') && |starts'| == |starts| + 1
  {
    ghost var before := p[..id];
    ghost var seen0 := seen[..];
    forall v | 0 <= v < r ensures v in before {
      assert seen[v];
    }
    SeenClosed(out, seen[..], next[..], before);
    id' := Explore(out, p, seen, next, stack, id, r);
    assert p[..id'][..id] == before;
    BlocksExtend(out, before, p[..id'], starts, r);
    starts' := starts + [id];
    forall v | 0 <= v < r + 1 ensures seen[v] {
      if v < r {
        assert seen0[v] && v in before;
        assert v in p[..id'];
      } else {
        assert p[..id'][id] == r;
      }
    }
  }

  /** After the last root every node is written: `p` is a permutation with its blocks. */
  lemma BetweenDone(out: seq<seq<int>>, p: seq<int>, seen: seq<bool>, next: seq<int>, id: int, starts: seq<int>)
    requires IsAdjacency(out) && |p| == |seen| == |next| == |out|
    requires Between(out, p, seen, next, id, |out|, starts)
    ensures id == |out| && IsPermutation(p, |out|) && Blocks(out, p, starts)
  {
    forall v | 0 <= v < |out| ensures v in p[..id] {
      assert seen[v];
    }
    CoveredBound(p[..id], |out|);
    assert p == p[..id];
  }

  /** Fully explored seen nodes are closed under out-arcs. */
  lemma SeenClosed(out: seq<seq<int>>, seen: seq<bool>, next: seq<int>, s: seq<int>)
    requires IsAdjacency(out) && |seen| == |out| == |next|
    requires Written(seen, s) && InRange(s, |out|) && Passed(out, seen, next)
    requires forall v :: 0 <= v < |out| ==> next[v] == if seen[v] then |out[v]| else 0
    ensures Closed(out, s)
  {
    forall j, k | 0 <= j < |s| && 0 <= s[j] < |out| && 0 <= k < |out[s[j]]| ensures out[s[j]][k] in s {
      assert seen[s[j]];
      assert seen[out[s[j]][k]];
    }
  }

  /** A duplicate-free sequence of ids below `n` that lists every such id has `n` entries. */
  lemma CoveredBound(s: seq<int>, n: nat)
    requires Distinct(s) && InRange(s, n) && |s| <= n
    requires forall v :: 0 <= v < n ==> v in s
    ensures |s| == n
  {
    ElemsCard(s);
    IdsCard(n);
    forall v | v in Ids(n) ensures v in Elems(s) {
      assert 0 <= v < n;
      assert v in s;
      var i :| 0 <= i < |s| && s[i] == v;
    }
    SubsetCard(Ids(n), Elems(s));
  }

  /** A block searched from root `r` with the smaller ids already written extends the block structure. */
  lemma BlocksExtend(out: seq<seq<int>>, s: seq<int>, t: seq<int>, starts: seq<int>, r: int)
    requires Blocks(out, s, starts) && Closed(out, s)
    requires |t| > |s| && t[..|s|] == s && t[|s|] == r
    requires forall v :: 0 <= v < r ==> v in s
    requires ParentsFrom(out, t, |s|)
    ensures Blocks(out, t, starts + [|s|])
  {
    var st := starts + [|s|];
    forall k | 0 <= k < |starts| ensures t[..starts[k]] == s[..starts[k]] && t[starts[k]] == s[starts[k]] {
      assert t[..starts[k]] == t[..|s|][..starts[k]];
    }
    assert t[..st[|starts|]] == s;
    forall j | 0 <= j < |t| && j !in st ensures HasParent(out, t, st, j) {
      if j < |s| {
        assert j !in starts;
        var i :| 0 <= i < j && Arc(out, s[i], s[j])
          && forall k :: 0 <= k < |starts| ==> !(i < starts[k] <= j);
        assert t[i] == s[i] && t[j] == s[j];
        assert forall k :: 0 <= k < |st| ==> !(i < st[k] <= j);
      } else {
        assert ParentFrom(out, t, |s|, j);
        var i :| |s| <= i < j && Arc(out, t[i], t[j]);
        assert forall k :: 0 <= k < |st| ==> !(i < st[k] <= j) by {
          forall k | 0 <= k < |st| ensures !(i < st[k] <= j) {
            if k < |starts| {
              assert st[k] == starts[k] < |s|;
            }
          }
        }
      }
    }
  }

  lemma ParentsExtend(out: seq<seq<int>>, s: seq<int>, lo: int, i: int, y: int)
    requires ParentsFrom(out, s, lo) && lo <= i < |s| && Arc(out, s[i], y)
    ensures ParentsFrom(out, s + [y], lo)
  {
    var t := s + [y];
    forall j | lo < j < |t| ensures ParentFrom(out, t, lo, j) {
      assert j == |s| || ParentFrom(out, s, lo, j);
      if j < |s| {
        var i' :| lo <= i' < j && Arc(out, s[i'], s[j]);
        assert t[i'] == s[i'] && t[j] == s[j];
        assert Arc(out, t[i'], t[j]);
      } else {
        assert t[i] == s[i] && t[j] == y;
        assert Arc(out, t[i], t[j]);
      }
    }
  }

  /**
   * The state of the search from a root written at `id0`: `x` is the current
   * node (at position `xpos`), `stack[..stackEnd]` the nodes above it on the
   * search path (at positions `spos`), and every seen node off the path has
   * passed all its arcs.
   */
  ghost predicate Searching(out: seq<seq<int>>, p: seq<int>, seen: seq<bool>, next: seq<int>, stack: seq<int>,
                            id0: int, id: int, x: int, xpos: int, stackEnd: int, spos: seq<int>)
    requires IsAdjacency(out) && |p| == |seen| == |next| == |stack| == |out|
  {
    var n := |out|;
    && 0 <= x < n && 0 <= stackEnd
    && 0 <= id0 < id <= n
    && Distinct(p[..id]) && InRange(p[..id], n)
    && Written(seen, p[..id])
    && (forall v :: 0 <= v < n ==> 0 <= next[v] <= |out[v]|)
    && (forall v :: 0 <= v < n && !seen[v] ==> next[v] == 0)
    && Passed(out, seen, next)
    && |spos| == stackEnd
    && (forall a :: 0 <= a < stackEnd ==> id0 + a <= spos[a] < id && stack[a] == p[spos[a]])
    && id0 + stackEnd <= xpos < id && x == p[xpos]
    && (forall v :: 0 <= v < n && seen[v] && v != x && v !in stack[..stackEnd] ==> next[v] == |out[v]|)
    && ParentsFrom(out, p[..id], id0)
    && Pending(out, next, n) >= 0
  }

  /**
   * The search from root `r` (the inner `for(;;)` loop): writes `r` at `id0`
   * and then every newly seen node, each reached by an arc from an earlier
   * node of the block; afterwards every seen node is fully explored.
   */
  method Explore(out: seq<seq<int>>, p: array<int>, seen: array<bool>, next: array<int>, stack: array<int>, id0: int, r: int)
    returns (id: int)
    requires IsAdjacency(out)
    requires p.Length == seen.Length == next.Length == stack.Length == |out|
    requires p != stack && p != next && next != stack
    requires 0 <= id0 <= |out| && Distinct(p[..id0]) && InRange(p[..id0], |out|)
    requires Written(seen[..], p[..id0])
    requires forall v :: 0 <= v < |out| ==> next[v] == if seen[v] then |out[v]| else 0
    requires Passed(out, seen[..], next[..])
    requires 0 <= r < |out| && !seen[r]
    modifies p, seen, next, stack
    ensures id0 < id <= |out| && p[id0] == r && p[..id0] == old(p[..id0])
    ensures Distinct(p[..id]) && InRange(p[..id], |out|)
    ensures Written(seen[..], p[..id])
    ensures forall v :: 0 <= v < |out| ==> next[v] == if seen[v] then |out[v]| else 0
    ensures Passed(out, seen[..], next[..])
    ensures ParentsFrom(out, p[..id], id0)
  {
    var n := |out|;
    MissingBound(p[..id0], n, r);
    ghost var p0, seen0 := p[..], seen[..];
    id := id0;
    seen[r] := true;
    p[id] := r;
    id := id + 1;
    var x := r;
    ghost var xpos := id0;
    var stackEnd := 0;
    ghost var spos: seq<int> := [];
    SearchStart(out, p0, seen0, next[..], stack[..], id0, r);
    assert p[..] == p0[id0 := r] && seen[..] == seen0[r := true];
    while next[x] < |out[x]| || stackEnd > 0
      invariant Searching(out, p[..], seen[..], next[..], stack[..], id0, id, x, xpos, stackEnd, spos)
      invariant p[id0] == r && p[..id0] == old(p[..id0])
      decreases Pending(out, next[..], n), stackEnd
    {
      if next[x] < |out[x]| {
        x, xpos, stackEnd, spos, id := PassArc(out, p, seen, next, stack, id0, id, x, xpos, stackEnd, spos);
      } else {
        SearchPop(out, p[..], seen[..], next[..], stack[..], id0, id, x, xpos, stackEnd, spos);
        stackEnd := stackEnd - 1;
        x := stack[stackEnd];
        xpos := spos[stackEnd];
        spos := spos[..stackEnd];
      }
    }
    SearchDone(out, p[..], seen[..], next[..], stack[..], id0, id, x, xpos, stackEnd, spos);
  }

  /** One arc of the current node: `y := *next_out[x]++`, written and pushed if unseen. */
  method PassArc(out: seq<seq<int>>, p: array<int>, seen: array<bool>, next: array<int>, stack: array<int>,
                 id0: int, id: int, x: int, ghost xpos: int, stackEnd: int, ghost spos: seq<int>)
    returns (x': int, ghost xpos': int, stackEnd': int, ghost spos': seq<int>, id': int)
    requires IsAdjacency(out)
    requires p.Length == seen.Length == next.Length == stack.Length == |out|
    requires p != stack && p != next && next != stack
    requires Searching(out, p[..], seen[..], next[..], stack[..], id0, id, x, xpos, stackEnd, spos)
    requires next[x] < |out[x]|
    modifies p, seen, next, stack
    ensures Searching(out, p[..], seen[..], next[..], stack[..], id0, id', x', xpos', stackEnd', spos')
    ensures Pending(out, next[..], |out|) == old(Pending(out, next[..], |out|)) - 1
    ensures p[id0] == old(p[id0]) && p[..id0] == old(p[..id0])
  {
    ghost var p1, seen1, next1, stack1 := p[..], seen[..], next[..], stack[..];
    var y := out[x][next[x]];
    next[x] := next[x] + 1;
    assert next[..] == next1[x := next1[x] + 1];
    PendingAdvance(out, next1, x, |out|);
    if !seen[y] {
      SearchDiscover(out, p1, seen1, next1, stack1, id0, id, x, xpos, stackEnd, spos);
      seen[y] := true;
      p[id] := y;
      stack[stackEnd] := x;
      assert p[..] == p1[id := y] && seen[..] == seen1[y := true] && stack[..] == stack1[stackEnd := x];
      assert p[..id] == p1[..id];
      x', xpos', stackEnd', spos', id' := y, id, stackEnd + 1, spos + [xpos], id + 1;
    } else {
      SearchPassSeen(out, p1, seen1, next1, stack1, id0, id, x, xpos, stackEnd, spos);
      x', xpos', stackEnd', spos', id' := x, xpos, stackEnd, spos, id;
    }
  }

  lemma SearchStart(out: seq<seq<int>>, p: seq<int>, seen: seq<bool>, next: seq<int>, stack: seq<int>, id0: int, r: int)
    requires IsAdjacency(out) && |p| == |seen| == |next| == |stack| == |out|
    requires 0 <= id0 < |out| && Distinct(p[..id0]) && InRange(p[..id0], |out|)
    requires Written(seen, p[..id0])
    requires forall v :: 0 <= v < |out| ==> next[v] == if seen[v] then |out[v]| else 0
    requires Passed(out, seen, next)
    requires 0 <= r < |out| && !seen[r]
    ensures Searching(out, p[id0 := r], seen[r := true], next, stack, id0, id0 + 1, r, id0, 0, [])
  {
    var p' := p[id0 := r];
    assert p'[..id0 + 1] == p[..id0] + [r];
    PendingNonNegative(out, next, |out|);
  }

  /** Passing an arc to a node already seen. */
  lemma SearchPassSeen(out: seq<seq<int>>, p: seq<int>, seen: seq<bool>, next: seq<int>, stack: seq<int>,
                       id0: int, id: int, x: int, xpos: int, stackEnd: int, spos: seq<int>)
    requires IsAdjacency(out) && |p| == |seen| == |next| == |stack| == |out|
    requires Searching(out, p, seen, next, stack, id0, id, x, xpos, stackEnd, spos)
    requires next[x] < |out[x]| && seen[out[x][next[x]]]
    ensures Searching(out, p, seen, next[x := next[x] + 1], stack, id0, id, x, xpos, stackEnd, spos)
  {
    PendingNonNegative(out, next[x := next[x] + 1], |out|);
  }

  /** Passing an arc to an unseen node `y`: `y` is written at `id`, `x` pushed, and `y` becomes current. */
  lemma SearchDiscover(out: seq<seq<int>>, p: seq<int>, seen: seq<bool>, next: seq<int>, stack: seq<int>,
                       id0: int, id: int, x: int, xpos: int, stackEnd: int, spos: seq<int>)
    requires IsAdjacency(out) && |p| == |seen| == |next| == |stack| == |out|
    requires Searching(out, p, seen, next, stack, id0, id, x, xpos, stackEnd, spos)
    requires next[x] < |out[x]| && !seen[out[x][next[x]]]
    ensures id < |out| && stackEnd < |out|
    ensures var y := out[x][next[x]];
      Searching(out, p[id := y], seen[y := true], next[x := next[x] + 1], stack[stackEnd := x],
                id0, id + 1, y, id, stackEnd + 1, spos + [xpos])
  {
    var y := out[x][next[x]];
    var n := |out|;
    MissingBound(p[..id], n, y);
    var p', seen', next', stack' := p[id := y], seen[y := true], next[x := next[x] + 1], stack[stackEnd := x];
    assert p'[..id + 1] == p[..id] + [y];
    assert Arc(out, p[xpos], y);
    ParentsExtend(out, p[..id], id0, xpos, y);
    assert stack'[..stackEnd + 1] == stack[..stackEnd] + [x];
    PendingNonNegative(out, next', n);
  }

  /** Leaving a node whose arcs are all passed: the top of the stack becomes current. */
  lemma SearchPop(out: seq<seq<int>>, p: seq<int>, seen: seq<bool>, next: seq<int>, stack: seq<int>,
                  id0: int, id: int, x: int, xpos: int, stackEnd: int, spos: seq<int>)
    requires IsAdjacency(out) && |p| == |seen| == |next| == |stack| == |out|
    requires Searching(out, p, seen, next, stack, id0, id, x, xpos, stackEnd, spos)
    requires next[x] >= |out[x]| && stackEnd > 0
    ensures stackEnd <= |out|
    ensures Searching(out, p, seen, next, stack, id0, id, stack[stackEnd - 1], spos[stackEnd - 1], stackEnd - 1, spos[..stackEnd - 1])
  {
    assert stack[..stackEnd] == stack[..stackEnd - 1] + [stack[stackEnd - 1]];
  }

  /** With the stack empty and the current node's arcs passed, every seen node is fully explored. */
  lemma SearchDone(out: seq<seq<int>>, p: seq<int>, seen: seq<bool>, next: seq<int>, stack: seq<int>,
                   id0: int, id: int, x: int, xpos: int, stackEnd: int, spos: seq<int>)
    requires IsAdjacency(out) && |p| == |seen| == |next| == |stack| == |out|
    requires Searching(out, p, seen, next, stack, id0, id, x, xpos, stackEnd, spos)
    requires next[x] >= |out[x]| && stackEnd <= 0
    ensures forall v :: 0 <= v < |out| ==> next[v] == if seen[v] then |out[v]| else 0
  {
  }

  // ------------------------------------------------------------------
  // On a symmetric graph the blocks are the connected components

  /** Every arc has its reverse. */
  ghost predicate Symmetric(out: seq<seq<int>>)
  {
    forall u, v :: Arc(out, u, v) ==> Arc(out, v, u)
  }

  /** `path` walks along arcs. */
  ghost predicate IsPath(out: seq<seq<int>>, path: seq<int>)
  {
    forall t :: 0 <= t < |path| - 1 ==> Arc(out, path[t], path[t + 1])
  }

  /** Some path leads from `u` to `v`. */
  ghost predicate Connected(out: seq<seq<int>>, u: int, v: int)
  {
    exists path :: |path| > 0 && path[0] == u && path[|path| - 1] == v && IsPath(out, path)
  }

  /** Positions `i` and `j` lie in the same block: no block starts after one of them and not after the other. */
  ghost predicate SameBlock(starts: seq<int>, i: int, j: int)
  {
    forall k :: 0 <= k < |starts| ==> (starts[k] <= i <==> starts[k] <= j)
  }

  /** On a symmetric graph a path can be walked backwards. */
  lemma ConnectedBack(out: seq<seq<int>>, u: int, v: int)
    requires Symmetric(out) && Connected(out, u, v)
    ensures Connected(out, v, u)
  {
    var path :| |path| > 0 && path[0] == u && path[|path| - 1] == v && IsPath(out, path);
    var L := |path|;
    var back := seq(L, t requires 0 <= t < L => path[L - 1 - t]);
    forall t | 0 <= t < L - 1
      ensures Arc(out, back[t], back[t + 1])
    {
      assert Arc(out, path[L - 2 - t], path[L - 1 - t]);
    }
    assert back[0] == v && back[L - 1] == u && IsPath(out, back);
  }

  /** A path from `u` to `v` followed by one from `v` to `w` leads from `u` to `w`. */
  lemma ConnectedChain(out: seq<seq<int>>, u: int, v: int, w: int)
    requires Connected(out, u, v) && Connected(out, v, w)
    ensures Connected(out, u, w)
  {
    var p1 :| |p1| > 0 && p1[0] == u && p1[|p1| - 1] == v && IsPath(out, p1);
    var p2 :| |p2| > 0 && p2[0] == v && p2[|p2| - 1] == w && IsPath(out, p2);
    var path := p1 + p2[1..];
    forall t | 0 <= t < |path| - 1
      ensures Arc(out, path[t], path[t + 1])
    {
      if t < |p1| - 1 {
        assert path[t] == p1[t] && path[t + 1] == p1[t + 1];
      } else {
        var t2 := t - |p1| + 1;
        assert path[t] == p2[t2] && path[t + 1] == p2[t2 + 1];
      }
    }
    assert path[|path| - 1] == w;
  }

  /** A path that starts in a prefix closed under out-arcs ends in it. */
  lemma {:induction false} PathStaysClosed(out: seq<seq<int>>, P: seq<int>, path: seq<int>)
    requires Closed(out, P) && IsPath(out, path) && |path| > 0 && path[0] in P
    ensures path[|path| - 1] in P
  {
    if |path| > 1 {
      var front := path[..|path| - 1];
      assert IsPath(out, front) by {
        forall t | 0 <= t < |front| - 1
          ensures Arc(out, front[t], front[t + 1])
        {
          assert front[t] == path[t] && front[t + 1] == path[t + 1];
        }
      }
      PathStaysClosed(out, P, front);
      var x, y := path[|path| - 2], path[|path| - 1];
      assert Arc(out, x, y);
      var j :| 0 <= j < |P| && P[j] == x;
      var k :| 0 <= k < |out[x]| && out[x][k] == y;
    }
  }

  /** A node connected from a node before a block start is itself before that start. */
  lemma PathStaysBefore(out: seq<seq<int>>, s: seq<int>, starts: seq<int>, k: int, i: int, j: int)
    requires Blocks(out, s, starts) && Distinct(s) && 0 <= k < |starts|
    requires 0 <= i < starts[k] && 0 <= j < |s| && Connected(out, s[i], s[j])
    ensures j < starts[k]
  {
    var P := s[..starts[k]];
    var path :| |path| > 0 && path[0] == s[i] && path[|path| - 1] == s[j] && IsPath(out, path);
    assert path[0] == P[i];
    PathStaysClosed(out, P, path);
    var t :| 0 <= t < |P| && P[t] == s[j];
    assert s[t] == s[j];
  }

  /** The block start at or before position `i` nearest to it. */
  lemma {:induction false} BlockStartOf(out: seq<seq<int>>, s: seq<int>, starts: seq<int>, i: int, hi: int) returns (kb: int)
    requires Blocks(out, s, starts) && 0 <= i < |s| && 0 < hi <= |starts|
    requires forall k :: hi <= k < |starts| ==> i < starts[k]
    ensures 0 <= kb < |starts| && starts[kb] <= i
    ensures forall k :: 0 <= k < |starts| ==> !(starts[kb] < starts[k] <= i)
    decreases hi
  {
    if starts[hi - 1] <= i || hi == 1 {
      kb := hi - 1;
    } else {
      kb := BlockStartOf(out, s, starts, i, hi - 1);
    }
  }

  /** Every position of a block is reached by a path from the block's start. */
  lemma {:induction false} ReachedFromStart(out: seq<seq<int>>, s: seq<int>, starts: seq<int>, kb: int, j: int)
    requires Blocks(out, s, starts) && 0 <= kb < |starts| && starts[kb] <= j < |s|
    requires forall k :: 0 <= k < |starts| ==> !(starts[kb] < starts[k] <= j)
    ensures Connected(out, s[starts[kb]], s[j])
    decreases j
  {
    if j == starts[kb] {
      assert IsPath(out, [s[j]]);
    } else {
      assert j !in starts;
      var i :| 0 <= i < j && Arc(out, s[i], s[j]) && forall k :: 0 <= k < |starts| ==> !(i < starts[k] <= j);
      ReachedFromStart(out, s, starts, kb, i);
      assert IsPath(out, [s[i], s[j]]);
      ConnectedChain(out, s[starts[kb]], s[i], s[j]);
    }
  }

  /**
   * Of `compute_preorder` on a symmetric graph: two positions of the order
   * lie in the same block exactly when their nodes are connected, so the
   * blocks are the connected components and their count the number of
   * components.
   */
  lemma BlocksAreComponents(out: seq<seq<int>>, s: seq<int>, starts: seq<int>, i: int, j: int)
    requires Blocks(out, s, starts) && Distinct(s) && Symmetric(out)
    requires 0 <= i < |s| && 0 <= j < |s|
    ensures SameBlock(starts, i, j) <==> Connected(out, s[i], s[j])
  {
    if SameBlock(starts, i, j) {
      var kb := BlockStartOf(out, s, starts, i, |starts|);
      assert starts[kb] <= j;
      ReachedFromStart(out, s, starts, kb, i);
      ReachedFromStart(out, s, starts, kb, j);
      ConnectedBack(out, s[starts[kb]], s[i]);
      ConnectedChain(out, s[i], s[starts[kb]], s[j]);
    }
    if Connected(out, s[i], s[j]) {
      ConnectedBack(out, s[i], s[j]);
      forall k | 0 <= k < |starts|
        ensures starts[k] <= i <==> starts[k] <= j
      {
        if i < starts[k] {
          PathStaysBefore(out, s, starts, k, i, j);
        }
        if j < starts[k] {
          PathStaysBefore(out, s, starts, k, j, i);
        }
      }
    }
  }
}
