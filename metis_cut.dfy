/**
 * metis_cut.py: the gpmetis invocation for a given imbalance, the running
 * time read from its "  Partitioning:" line, and the merge with the
 * console's `examine_node_color_cut` report (`examine_cut`).
 */
module MetisCut {
  import opened Wrappers
  import opened Text
  import opened Numbers
  import opened PyDict
  import opened MetricsLog

  /** `examine_cut` reads the cut report with no blank-line skip and no rename. */
  const ExamineCutLog := Variant(false, KeepTime)

  /** gpmetis rejects a zero imbalance, so 0 is replaced by 0.001. */
  function EffectiveEpsilon(epsilon: real): real
  {
    if epsilon == 0.0 then 0.001 else epsilon
  }

  /** The `-ufactor` value: `int(epsilon * 1000)`, in thousandths. */
  function UFactor(epsilon: real): int
  {
    Trunc(EffectiveEpsilon(epsilon) * 1000.0)
  }

  /** Arguments after the gpmetis binary: always "tmp.graph" and two parts. */
  function MetisArgs(epsilon: real): (args: seq<string>)
  {
    ["tmp.graph", "2", "-ufactor=" + IntToString(UFactor(epsilon))]
  }

  /** The invocation bisects "tmp.graph" with the imbalance in thousandths, rounded down. */
  lemma MetisArgsShape(epsilon: real)
    requires epsilon >= 0.0
    ensures |MetisArgs(epsilon)| == 3 && MetisArgs(epsilon)[0] == "tmp.graph" && MetisArgs(epsilon)[1] == "2"
    ensures StartsWith(MetisArgs(epsilon)[2], "-ufactor=")
    ensures epsilon == 0.0 ==> UFactor(epsilon) == 1
    ensures epsilon > 0.0 ==> UFactor(epsilon) as real <= epsilon * 1000.0 < UFactor(epsilon) as real + 1.0
  {
    assert MetisArgs(epsilon)[2][..9] == "-ufactor=";
  }

  /** The ufactor of every imbalance the cut experiments use. */
  lemma UFactorOfImbalances()
    ensures UFactor(0.0) == 1 && UFactor(0.01) == 10 && UFactor(0.03) == 30 && UFactor(0.05) == 50
    ensures UFactor(0.1) == 100 && UFactor(0.2) == 200 && UFactor(0.3) == 300
    ensures UFactor(0.5) == 500 && UFactor(0.7) == 700 && UFactor(0.9) == 900
  {
  }

  // ---------------------------------------------------------------------
  // re.search(r"([0-9.]+) sec", l)

  /** The pattern matches at position `i`: the longest digit/dot run from `i`, then " sec". */
  predicate SecAt(l: string, i: int)
  {
    0 <= i < |l| && ValuePrefix(l[i..]) > 0 && StartsWith(l[i + ValuePrefix(l[i..])..], " sec")
  }

  /** `re.search` from position `from`: the leftmost match and its group. */
  function SearchSec(l: string, from: nat): (r: Option<string>)
    ensures r.None? <==> forall i :: from <= i < |l| ==> !SecAt(l, i)
    ensures r.Some? ==> |r.value| > 0 && AllValue(r.value)
    ensures r.Some? ==> exists i :: from <= i < |l| && SecAt(l, i)
                          && r.value == l[i..i + ValuePrefix(l[i..])]
                          && forall j :: from <= j < i ==> !SecAt(l, j)
    decreases |l| - from
  {
    if from >= |l| then None
    else if SecAt(l, from) then
      assert l[from..from + ValuePrefix(l[from..])] == l[from..][..ValuePrefix(l[from..])];
      Some(l[from..from + ValuePrefix(l[from..])])
    else SearchSec(l, from + 1)
  }

  /** `float(g)` for a run of digits and dots. */
  function FloatOf(g: string): Result<real, LogError>
    requires AllValue(g)
  {
    match TypeValue(g)
    case Ok(x) => Ok(AsReal(x))
    case Err(e) => Err(e)
  }

  /** What one line of gpmetis output contributes to `row_dict`. */
  function TimeStep(l: string): Step
  {
    if StartsWith(l, "  Partitioning:") then SecStep(SearchSec(l, 0)) else Ok(None)
  }

  /** A found group becomes the running time, or the error `float` raises. */
  function SecStep(g: Option<string>): Step
    requires g.Some? ==> AllValue(g.value)
  {
    if g.None? then Ok(None)
    else
      match FloatOf(g.value)
      case Err(e) => Err(e)
      case Ok(t) => Ok(Some(("running_time", FloatV(t))))
  }

  function TimeSteps(lines: seq<string>): (r: seq<Step>)
    ensures |r| == |lines| && forall i :: 0 <= i < |lines| ==> r[i] == TimeStep(lines[i])
  {
    seq(|lines|, i requires 0 <= i < |lines| => TimeStep(lines[i]))
  }

  /** The gpmetis output loop of `metis_cut`. */
  method PartitioningTime(lines: seq<string>) returns (r: Result<Dict<Value>, LogError>)
    ensures r == Fold(TimeSteps(lines))
  {
    ghost var steps := TimeSteps(lines);
    var rowDict := Empty();
    var i := 0;
    while i < |lines|
      invariant 0 <= i <= |lines|
      invariant Fold(steps[..i]) == Ok(rowDict)
    {
      assert steps[..i + 1][..i] == steps[..i];
      var e := TimeStep(lines[i]);
      if e.Err? {
        assert Fold(steps[..i + 1]) == Err(e.error);
        FoldErrPersists(steps, i + 1);
        assert steps[..|lines|] == steps;
        return Err(e.error);
      }
      if e.value.Some? {
        rowDict := rowDict.Set(e.value.value.0, e.value.value.1);
      }
      i := i + 1;
    }
    assert steps[..i] == steps;
    r := Ok(rowDict);
  }

  /** The row `metis_cut` returns: the time, then `row_dict.update(metrics)`. */
  function MetisRow(metisOutput: seq<string>, examineOutput: seq<string>): Result<Dict<Value>, LogError>
  {
    match Fold(TimeSteps(metisOutput))
    case Err(e) => Err(e)
    case Ok(times) =>
      match Parse(examineOutput, ExamineCutLog)
      case Err(e) => Err(e)
      case Ok(metrics) => Ok(times.Update(metrics))
  }

  method MetisCut(epsilon: real, metisOutput: seq<string>, examineOutput: seq<string>)
    returns (args: seq<string>, r: Result<Dict<Value>, LogError>)
    ensures args == MetisArgs(epsilon)
    ensures r == MetisRow(metisOutput, examineOutput)
  {
    args := ["tmp.graph"];
    args := args + ["2"];
    var eps := epsilon;
    if eps == 0.0 {
      eps := 0.001;
    }
    var flag := "-ufactor=" + IntToString(Trunc(eps * 1000.0));
    assert flag == MetisArgs(epsilon)[2];
    args := args + [flag];
    var times := PartitioningTime(metisOutput);
    if times.Err? {
      return args, Err(times.error);
    }
    var metrics := ParseLog(examineOutput, ExamineCutLog);
    if metrics.Err? {
      return args, Err(metrics.error);
    }
    r := Ok(times.value.Update(metrics.value));
  }

  /**
   * In the merged row, the report's metrics win; "running_time" comes from the
   * last "  Partitioning:" line with a "<number> sec" unless the report has
   * its own, and no other key is added.
   */
  lemma MetisRowKeys(metisOutput: seq<string>, examineOutput: seq<string>, k: string)
    requires MetisRow(metisOutput, examineOutput).Ok?
    ensures var row := MetisRow(metisOutput, examineOutput).value;
      var metrics := Parse(examineOutput, ExamineCutLog).value;
      var times := Fold(TimeSteps(metisOutput)).value;
      row.Get(k) == (if k in metrics.Keys() then metrics.Get(k) else times.Get(k))
      && (k != "running_time" && k !in metrics.Keys() ==> row.Get(k).None?)
  {
    var metrics := Parse(examineOutput, ExamineCutLog).value;
    var times := Fold(TimeSteps(metisOutput)).value;
    ParseValid(examineOutput, ExamineCutLog);
    GetUpdate(times, metrics, k);
    if k != "running_time" && times.Get(k).Some? {
      FoldKeys(TimeSteps(metisOutput), k);
    }
  }
}
