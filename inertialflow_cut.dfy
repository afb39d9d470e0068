/**
 * inertialflow_cut.py: one inertial-flow bisection through the console and
 * the parse of its report, in which every "running_time" metric is turned
 * into seconds but keeps its name.
 */
module InertialFlowCut {
  import opened Wrappers
  import opened Text
  import opened PyDict
  import opened MetricsLog

  /** The report of `inertialflow_cut`: no blank-line skip, times rescaled in place. */
  const InertialFlowCutLog := Variant(false, RescaleTime)

  /** The same report read without any rescaling, as `examine_cut` does. */
  const PlainLog := Variant(false, KeepTime)

  /** The console commands after the binary: load, symmetrise, shuffle, time only the cut. */
  function InertialFlowCutArgs(graphPath: string, balance: string): seq<string>
  {
    ["load_routingkit_unweighted_graph", graphPath + "first_out", graphPath + "head",
     "load_routingkit_longitude", graphPath + "longitude",
     "load_routingkit_latitude", graphPath + "latitude",
     "add_back_arcs", "remove_multi_arcs", "remove_loops",
     "flow_cutter_set", "random_seed", "5489",
     "reorder_nodes_at_random", "reorder_nodes_in_preorder", "sort_arcs",
     "report_time", "inertial_flow_cut", balance, "do_not_report_time",
     "examine_node_color_cut"]
  }

  /** The in-place conversion: microseconds to seconds for time metrics only. */
  function Seconds(name: string, x: Value): Value
  {
    if Contains(name, "running_time") then FloatV(AsReal(x) / 1000000.0) else x
  }

  function MapStep(s: Step): Step
  {
    match s
    case Ok(Some(kv)) => Ok(Some((kv.0, Seconds(kv.0, kv.1))))
    case _ => s
  }

  function MapSteps(steps: seq<Step>): (r: seq<Step>)
    ensures |r| == |steps| && forall i :: 0 <= i < |steps| ==> r[i] == MapStep(steps[i])
  {
    seq(|steps|, i requires 0 <= i < |steps| => MapStep(steps[i]))
  }

  /** One line read with the rescale is the plain reading, converted. */
  lemma EntryRescale(line: string)
    ensures Entry(line, InertialFlowCutLog) == MapStep(Entry(line, PlainLog))
  {
    match Match(line)
    case None =>
    case Some(g) =>
      ValueGroupChars(line);
      match TypeValue(g.valueGroup)
      case Err(e) =>
      case Ok(x) =>
        var name := Normalise(g.labelGroup);
        assert Entry(line, PlainLog) == Ok(Some((name, x)));
  }

  /** Converting each assignment is converting the finished dictionary. */
  lemma {:induction false} FoldMapSteps(steps: seq<Step>)
    ensures Fold(MapSteps(steps)) == match Fold(steps)
                                     case Err(e) => Err(e)
                                     case Ok(d) => Ok(d.MapValues(Seconds))
    decreases |steps|
  {
    if steps != [] {
      var n := |steps| - 1;
      assert MapSteps(steps)[..n] == MapSteps(steps[..n]);
      FoldMapSteps(steps[..n]);
      match Fold(steps[..n])
      case Err(e) =>
      case Ok(d) =>
        match steps[n]
        case Err(e) =>
        case Ok(None) =>
        case Ok(Some(kv)) =>
          MapValuesSet(d, Seconds, kv.0, kv.1);
    }
  }

  /**
   * The rescaling parse fails exactly where the plain one does, has the same
   * keys in the same order, and divides every "running_time" value by 10^6.
   */
  lemma RescaleIsPlainThenSeconds(lines: seq<string>, k: string)
    ensures Parse(lines, InertialFlowCutLog).Err? <==> Parse(lines, PlainLog).Err?
    ensures Parse(lines, PlainLog).Ok? ==>
      var plain := Parse(lines, PlainLog).value;
      var scaled := Parse(lines, InertialFlowCutLog).value;
      scaled.Keys() == plain.Keys()
      && scaled.Get(k) == if plain.Get(k).Some? then Some(Seconds(k, plain.Get(k).value)) else None
  {
    forall i | 0 <= i < |lines|
      ensures Steps(lines, InertialFlowCutLog)[i] == MapSteps(Steps(lines, PlainLog))[i]
    {
      EntryRescale(lines[i]);
    }
    assert Steps(lines, InertialFlowCutLog) == MapSteps(Steps(lines, PlainLog));
    FoldMapSteps(Steps(lines, PlainLog));
    if Parse(lines, PlainLog).Ok? {
      GetMapValues(Parse(lines, PlainLog).value, Seconds, k);
    }
  }

  /** No key is renamed: a time metric keeps its own name and becomes a float. */
  lemma TimesStayNamed(lines: seq<string>, k: string)
    requires Parse(lines, InertialFlowCutLog).Ok?
    requires Parse(lines, InertialFlowCutLog).value.Get(k).Some?
    requires Contains(k, "running_time")
    ensures Parse(lines, InertialFlowCutLog).value.Get(k).value.FloatV?
  {
    RescaleIsPlainThenSeconds(lines, k);
  }
}
