/**
 * The four order scripts (inertialflowcutter_order.py, flowcutter_order.py,
 * inertialflow_order.py, kahip_order.py): where each writes its order and
 * log, the partitioner name each reports, and the summary line
 * `P,G,round(order_running_time, 3)` printed from the parsed log.
 */
module OrderScripts {
  import opened Wrappers
  import opened Text
  import opened Numbers
  import opened PyDict
  import opened MetricsLog

  /** Order logs: every line must match, and the time is renamed and rescaled. */
  const OrderLog := Variant(false, RenameAndRescaleTime)

  function OrderPath(g: string, p: string): string { g + "." + p + ".order" }
  function LogPath(g: string, p: string): string { OrderPath(g, p) + ".log" }
  function GraphPath(g: string): string { g + "/" }

  function InertialFlowCutterName(cutters: int): string { "inertialflowcutter" + IntToString(cutters) }
  function FlowCutterName(q: int): string { "flowcutter" + IntToString(q) }
  const InertialFlowName := "inertial_flow"
  const KahipName := "kahip_v2_11"

  /** flowcutter_order.py builds its paths from the cutter count directly. */
  function FlowCutterOrderPath(g: string, q: int): string { g + ".flowcutter" + IntToString(q) + ".order" }
  function FlowCutterLogPath(g: string, q: int): string { FlowCutterOrderPath(g, q) + ".log" }
  function InertialFlowOrderPath(g: string): string { g + ".inertial_flow.order" }
  function InertialFlowLogPath(g: string): string { InertialFlowOrderPath(g) + ".log" }
  function KahipOrderPath(g: string): string { g + ".kahip_v2_11.order" }
  function KahipLogPath(g: string): string { KahipOrderPath(g) + ".log" }

  /**
   * Every script writes its order exactly where `G.P.order` puts it for the
   * partitioner name it reports, which is where the order experiments look.
   */
  lemma ScriptPathsAgree(g: string, q: int)
    ensures FlowCutterOrderPath(g, q) == OrderPath(g, FlowCutterName(q))
    ensures FlowCutterLogPath(g, q) == LogPath(g, FlowCutterName(q))
    ensures InertialFlowOrderPath(g) == OrderPath(g, InertialFlowName)
    ensures InertialFlowLogPath(g) == LogPath(g, InertialFlowName)
    ensures KahipOrderPath(g) == OrderPath(g, KahipName)
    ensures KahipLogPath(g) == LogPath(g, KahipName)
  {
    Assoc(g, ".", "flowcutter", IntToString(q), ".order");
    Assoc(g, ".", "inertial_flow", "", ".order");
    Assoc(g, ".", "kahip_v2_11", "", ".order");
  }

  lemma Assoc(a: string, b: string, c: string, d: string, e: string)
    ensures a + (b + c) + d + e == a + b + (c + d) + e
  {
  }

  /** The names differ for different cutter counts, so the orders do not overwrite each other. */
  lemma NamesInjective(a: int, b: int)
    requires InertialFlowCutterName(a) == InertialFlowCutterName(b) || FlowCutterName(a) == FlowCutterName(b)
    ensures a == b
  {
    var ifc := "inertialflowcutter";
    var fc := "flowcutter";
    if InertialFlowCutterName(a) == InertialFlowCutterName(b) {
      PrefixCancel(ifc, IntToString(a), IntToString(b));
    } else {
      PrefixCancel(fc, IntToString(a), IntToString(b));
    }
    IntToStringInjective(a, b);
  }

  lemma PrefixCancel(p: string, x: string, y: string)
    requires p + x == p + y
    ensures x == y
  {
    assert x == (p + x)[|p|..];
    assert y == (p + y)[|p|..];
  }

  datatype SummaryError = LogFailed(e: LogError) | NoOrderTime

  /** `parse_order_log(...)["order_running_time"]`: a `KeyError` when no line is a time. */
  function OrderTime(log: seq<string>): Result<real, SummaryError>
  {
    match Parse(log, OrderLog)
    case Err(e) => Err(LogFailed(e))
    case Ok(d) =>
      match d.Get("order_running_time")
      case None => Err(NoOrderTime)
      case Some(v) => Ok(AsReal(v))
  }

  /**
   * `print(P, G, round(t, 3), sep=',')`; `render` is Python's `str` of the
   * rounded float.
   */
  function SummaryLine(p: string, g: string, log: seq<string>, render: real -> string): Result<string, SummaryError>
  {
    match OrderTime(log)
    case Err(e) => Err(e)
    case Ok(t) => Ok(Join([p, g, render(Round(t, 3))], ','))
  }

  /** A line of the log that reports a running time, in microseconds. */
  predicate TimeLine(line: string)
  {
    && Entry(line, OrderLog).Ok?
    && Entry(line, OrderLog).value.Some?
    && Contains(Entry(line, OrderLog).value.value.0, "running_time")
  }

  /** Under the rename a line names "order_running_time" iff it reports a time. */
  lemma NamesOrderTime(line: string)
    ensures StepNames(Entry(line, OrderLog), "order_running_time") <==> TimeLine(line)
  {
    if Entry(line, OrderLog).Ok? && Entry(line, OrderLog).value.Some? {
      EntryRenames(line, false);
      assert Contains("order_running_time", "running_time") by {
        assert "order_running_time"[6..][..12] == "running_time";
        ContainsAt("order_running_time", "running_time", 6);
      }
    }
  }

  lemma {:induction false} ContainsAt(s: string, t: string, i: nat)
    requires i <= |s| && StartsWith(s[i..], t)
    ensures Contains(s, t)
    decreases i
  {
    if i > 0 {
      assert s[1..][i - 1..] == s[i..];
      ContainsAt(s[1..], t, i - 1);
    }
  }

  /**
   * The reported time is the LAST time line's value in seconds; the script
   * fails when the log parses but has no time line.
   */
  lemma OrderTimeIsLastTimeLine(log: seq<string>)
    requires Parse(log, OrderLog).Ok?
    ensures OrderTime(log).Err? <==> forall i :: 0 <= i < |log| ==> !TimeLine(log[i])
    ensures OrderTime(log).Ok? ==>
      exists i :: 0 <= i < |log| && TimeLine(log[i])
        && Entry(log[i], OrderLog).value.value.1 == FloatV(OrderTime(log).value)
        && forall j :: i < j < |log| ==> !TimeLine(log[j])
  {
    forall i | 0 <= i < |log| { NamesOrderTime(log[i]); }
    ParseLastWins(log, OrderLog, "order_running_time");
    var d := Parse(log, OrderLog).value;
    if d.Get("order_running_time").Some? {
      var i :| 0 <= i < |log| && StepNames(Entry(log[i], OrderLog), "order_running_time")
                && Entry(log[i], OrderLog).value.value.1 == d.Get("order_running_time").value
                && forall j :: i < j < |log| ==> !StepNames(Entry(log[j], OrderLog), "order_running_time");
      EntryRenames(log[i], false);
    }
  }

  /**
   * The summary is three comma-separated fields: the partitioner, the graph
   * and the time rounded to three decimals (within half a millisecond).
   */
  lemma SummaryFields(p: string, g: string, log: seq<string>, render: real -> string)
    requires SummaryLine(p, g, log, render).Ok?
    requires ',' !in p && ',' !in g && ',' !in render(Round(OrderTime(log).value, 3))
    ensures Split(SummaryLine(p, g, log, render).value, ',') == [p, g, render(Round(OrderTime(log).value, 3))]
    ensures var t := OrderTime(log).value; -0.5 / 1000.0 <= Round(t, 3) - t <= 0.5 / 1000.0
  {
    var t := OrderTime(log).value;
    assert SummaryLine(p, g, log, render).value == Join([p, g, render(Round(t, 3))], ',');
    SplitJoin([p, g, render(Round(t, 3))], ',');
    RoundThousandth(t);
  }
}
