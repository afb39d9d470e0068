/**
 * The id-function helpers the graph code composes: `count_true`, `keep_if`,
 * `chain` and `inverse_permutation`. Their own source files are not part of
 * this model; they are defined here by what they compute, and the facts the
 * graph code relies on are proved about them.
 */
module IdFunc {
  import opened Graph

  /** Number of set flags (`count_true`). */
  function CountTrue(flag: seq<bool>): nat
  {
    if flag == [] then 0 else CountTrue(flag[..|flag| - 1]) + (if flag[|flag| - 1] then 1 else 0)
  }

  /** The positions of the set flags, in increasing order. */
  function KeptIndices(flag: seq<bool>): (r: seq<int>)
    ensures |r| == CountTrue(flag)
    ensures forall k :: 0 <= k < |r| ==> 0 <= r[k] < |flag| && flag[r[k]]
    ensures forall k, l :: 0 <= k < l < |r| ==> r[k] < r[l]
    ensures forall i :: 0 <= i < |flag| && flag[i] ==> i in r
  {
    if flag == [] then []
    else
      var front := KeptIndices(flag[..|flag| - 1]);
      assert forall i :: 0 <= i < |flag| - 1 ==> flag[..|flag| - 1][i] == flag[i];
      if flag[|flag| - 1] then front + [|flag| - 1] else front
  }

  /** `chain(p, s)`: the function `k -> s(p(k))`. */
  function Chain<T>(p: seq<int>, s: seq<T>): (r: seq<T>)
    requires InRange(p, |s|)
  {
    seq(|p|, k requires 0 <= k < |p| => s[p[k]])
  }

  /** `keep_if(flag, count_true(flag), s)`: the entries of `s` whose flag is set, in their order. */
  function KeepIf<T>(flag: seq<bool>, s: seq<T>): (r: seq<T>)
    requires |flag| == |s|
  {
    Chain(KeptIndices(flag), s)
  }

  /**
   * Filtering keeps exactly the flagged entries, in their order, and the new
   * length is the number of set flags: entry `k` of the result is the entry
   * of `s` at the `k`-th flagged position, and every flagged position is kept.
   */
  lemma KeepIfKeeps<T>(flag: seq<bool>, s: seq<T>)
    requires |flag| == |s|
    ensures |KeepIf(flag, s)| == CountTrue(flag)
    ensures forall i :: 0 <= i < |s| && flag[i] ==> exists k :: 0 <= k < |KeepIf(flag, s)| && KeptIndices(flag)[k] == i && KeepIf(flag, s)[k] == s[i]
    ensures forall k :: 0 <= k < |KeepIf(flag, s)| ==> flag[KeptIndices(flag)[k]] && KeepIf(flag, s)[k] == s[KeptIndices(flag)[k]]
  {
    var idx := KeptIndices(flag);
    forall i | 0 <= i < |s| && flag[i]
      ensures exists k :: 0 <= k < |KeepIf(flag, s)| && idx[k] == i && KeepIf(flag, s)[k] == s[i]
    {
      var k :| 0 <= k < |idx| && idx[k] == i;
      assert KeepIf(flag, s)[k] == s[i];
    }
  }

  /** Filtering with every flag set changes nothing; with none set it empties the sequence. */
  lemma {:induction false} KeepIfExtremes<T>(flag: seq<bool>, s: seq<T>)
    requires |flag| == |s|
    ensures (forall i :: 0 <= i < |flag| ==> flag[i]) ==> KeepIf(flag, s) == s
    ensures (forall i :: 0 <= i < |flag| ==> !flag[i]) ==> KeepIf(flag, s) == []
  {
    var idx := KeptIndices(flag);
    if forall i :: 0 <= i < |flag| ==> flag[i] {
      AllKept(flag);
      assert |idx| == |s|;
      forall k | 0 <= k < |s|
        ensures idx[k] == k
      {
        IncreasingFull(idx, |s|, k);
      }
    }
    if forall i :: 0 <= i < |flag| ==> !flag[i] {
      NoneKept(flag);
    }
  }

  lemma {:induction false} NoneKept(flag: seq<bool>)
    requires forall i :: 0 <= i < |flag| ==> !flag[i]
    ensures CountTrue(flag) == 0
  {
    if flag != [] {
      NoneKept(flag[..|flag| - 1]);
    }
  }

  lemma {:induction false} AllKept(flag: seq<bool>)
    requires forall i :: 0 <= i < |flag| ==> flag[i]
    ensures CountTrue(flag) == |flag|
  {
    if flag != [] {
      AllKept(flag[..|flag| - 1]);
    }
  }

  /** An increasing sequence of `n` ids below `n` is `0, 1, ..., n-1`. */
  lemma {:induction false} IncreasingFull(s: seq<int>, n: nat, k: nat)
    requires |s| == n && k < n
    requires forall j :: 0 <= j < n ==> 0 <= s[j] < n
    requires forall j, l :: 0 <= j < l < n ==> s[j] < s[l]
    ensures s[k] == k
  {
    LowerBound(s, n, k);
    UpperBound(s, n, k);
  }

  lemma {:induction false} LowerBound(s: seq<int>, n: nat, k: nat)
    requires |s| == n && k < n
    requires forall j :: 0 <= j < n ==> 0 <= s[j]
    requires forall j, l :: 0 <= j < l < n ==> s[j] < s[l]
    ensures s[k] >= k
  {
    if k > 0 {
      LowerBound(s, n, k - 1);
    }
  }

  lemma {:induction false} UpperBound(s: seq<int>, n: nat, k: nat)
    requires |s| == n && k < n
    requires forall j :: 0 <= j < n ==> s[j] < n
    requires forall j, l :: 0 <= j < l < n ==> s[j] < s[l]
    ensures s[k] <= k
    decreases n - k
  {
    if k < n - 1 {
      UpperBound(s, n, k + 1);
    }
  }

  /** The position of `v` in the permutation `p`. */
  function IndexOf(p: seq<int>, v: int): (k: int)
    requires IsPermutation(p, |p|) && 0 <= v < |p|
    ensures 0 <= k < |p| && p[k] == v
  {
    PermutationCovers(p, |p|, v);
    var k :| 0 <= k < |p| && p[k] == v;
    k
  }

  /** `inverse_permutation(p)`: the permutation that undoes `p`. */
  function InversePermutation(p: seq<int>): (q: seq<int>)
    requires IsPermutation(p, |p|)
    ensures IsPermutation(q, |p|)
    ensures forall k :: 0 <= k < |p| ==> q[p[k]] == k
    ensures forall v :: 0 <= v < |p| ==> p[q[v]] == v
  {
    var q := seq(|p|, v requires 0 <= v < |p| => IndexOf(p, v));
    assert forall k :: 0 <= k < |p| ==> q[p[k]] == k by {
      forall k | 0 <= k < |p|
        ensures q[p[k]] == k
      {
        assert p[q[p[k]]] == p[k];
      }
    }
    q
  }

  /** Chaining two permutations of the same ids gives a permutation. */
  lemma ChainPermutation(p: seq<int>, s: seq<int>, n: nat)
    requires IsPermutation(p, |s|) && IsPermutation(s, n)
    ensures IsPermutation(Chain(p, s), n)
  {
  }
}
