/**
 * toplevel_cut_experiments.py: for every graph and partitioner whose cut
 * file is absent, compute one cut row per imbalance. Metis, KaHIP and
 * inertial flow are run once per imbalance; FlowCutter and
 * InertialFlowCutter enumerate a Pareto front of cuts once, and for every
 * imbalance the first cut of the front that is balanced enough is chosen.
 */
module CutExperiments {
  import opened Wrappers
  import opened Text
  import opened PyDict
  import opened MetricsLog

  const Graphs: seq<string> := ["col", "cal", "europe", "usa"]
  const Partitioners: seq<string> := ["metis", "kahip_v2_11", "inertial_flow", "flowcutter3", "flowcutter20",
                                      "inertialflowcutter4", "inertialflowcutter8", "inertialflowcutter12",
                                      "inertialflowcutter16"]
  const Imbalances: seq<real> := [0.0, 0.01, 0.03, 0.05, 0.1, 0.2, 0.3, 0.5, 0.7, 0.9]

  function GraphPath(g: string): string { g + "/" }
  function OutputFile(g: string, p: string): string { g + "." + p + ".cut" }

  /** The imbalances are strictly increasing, so `sort_index()` on them keeps the row order. */
  lemma ImbalancesIncreasing()
    ensures forall i, j :: 0 <= i < j < |Imbalances| ==> Imbalances[i] < Imbalances[j]
  {
  }

  // ---------------------------------------------------------------------
  // compute_cuts: dispatch on the partitioner name

  datatype Partitioner = Metis | Kahip | FlowCutter(cutters: nat) | InertialFlow | InertialFlowCutter(cutters: nat)

  datatype CutError =
    | UnknownPartitioner(name: string)  // the final `assert(false)`
    | NoCutterCount(name: string)       // `re.match(...)` is None
    | MissingMetric(key: string)        // `metrics[key]` raises KeyError
    | ToolFailed(e: LogError)           // the cut tool's output did not parse
    | NoCuts                            // `cuts.iloc[-1]` on an empty front
    | NoCutWithin(epsilon: real)        // `.iloc[0]` of an empty selection

  /** Length of the leading run of digits. */
  function DigitPrefix(s: string): (k: nat)
    ensures k <= |s| && AllDigits(s[..k]) && (k < |s| ==> !IsDigit(s[k]))
  {
    if s == [] || !IsDigit(s[0]) then 0
    else
      var k := 1 + DigitPrefix(s[1..]);
      assert forall i :: 1 <= i < k ==> s[..k][i] == s[1..][..k - 1][i - 1];
      k
  }

  /** `int(re.match(prefix + "([0-9]+)", name).group(1))`. */
  function CutterCount(name: string, prefix: string): Result<nat, CutError>
    requires StartsWith(name, prefix)
  {
    var rest := name[|prefix|..];
    var k := DigitPrefix(rest);
    if k == 0 then Err(NoCutterCount(name)) else Ok(DigitsValue(rest[..k]))
  }

  function Dispatch(p: string): (r: Result<Partitioner, CutError>)
  {
    if p == "metis" then Ok(Metis)
    else if p == "kahip_v2_11" then Ok(Kahip)
    else if StartsWith(p, "flowcutter") then
      match CutterCount(p, "flowcutter")
      case Err(e) => Err(e)
      case Ok(n) => Ok(FlowCutter(n))
    else if p == "inertial_flow" then Ok(InertialFlow)
    else if StartsWith(p, "inertialflowcutter") then
      match CutterCount(p, "inertialflowcutter")
      case Err(e) => Err(e)
      case Ok(n) => Ok(InertialFlowCutter(n))
    else Err(UnknownPartitioner(p))
  }

  /** The name has the prefix and a digit right after it. */
  predicate Counted(p: string, prefix: string)
  {
    StartsWith(p, prefix) && |p| > |prefix| && IsDigit(p[|prefix|])
  }

  lemma DigitPrefixOfDigits(s: string)
    requires AllDigits(s)
    ensures DigitPrefix(s) == |s|
  {
    if s != [] {
      DigitPrefixOfDigits(s[1..]);
    }
  }

  /** Naming a FlowCutter with n cutters dispatches back to n cutters. */
  lemma DispatchFlowCutter(n: nat)
    ensures Dispatch("flowcutter" + NatToString(n)) == Ok(FlowCutter(n))
  {
    var p := "flowcutter" + NatToString(n);
    assert p[..10] == "flowcutter";
    assert p[10..] == NatToString(n);
    NatToStringValue(n);
    DigitPrefixOfDigits(NatToString(n));
    assert NatToString(n)[..|NatToString(n)|] == NatToString(n);
    assert p != "metis" && p != "kahip_v2_11" by { assert p[0] == 'f'; }
  }

  /** Naming an InertialFlowCutter with n cutters dispatches back to n cutters. */
  lemma DispatchInertialFlowCutter(n: nat)
    ensures Dispatch("inertialflowcutter" + NatToString(n)) == Ok(InertialFlowCutter(n))
  {
    var p := "inertialflowcutter" + NatToString(n);
    assert p[..18] == "inertialflowcutter";
    assert p[18..] == NatToString(n);
    NatToStringValue(n);
    DigitPrefixOfDigits(NatToString(n));
    assert NatToString(n)[..|NatToString(n)|] == NatToString(n);
    assert p != "metis" && p != "kahip_v2_11" && p != "inertial_flow" && !StartsWith(p, "flowcutter") by {
      assert p[0] == 'i' && p[8..10] == "fl";
    }
  }

  /**
   * Dispatch fails exactly for names that are none of the three exact names
   * and carry no cutter count after either prefix.
   */
  lemma DispatchFails(p: string)
    ensures Dispatch(p).Err? <==>
      p != "metis" && p != "kahip_v2_11" && p != "inertial_flow"
      && !Counted(p, "flowcutter") && !(!StartsWith(p, "flowcutter") && Counted(p, "inertialflowcutter"))
  {
    if StartsWith(p, "flowcutter") {
      assert p != "metis" && p != "kahip_v2_11" by { assert p[0] == 'f'; }
      assert Counted(p, "flowcutter") <==> DigitPrefix(p[10..]) > 0 by {
        if |p| > 10 { assert p[10..][0] == p[10]; }
      }
    } else if StartsWith(p, "inertialflowcutter") {
      assert Counted(p, "inertialflowcutter") <==> DigitPrefix(p[18..]) > 0 by {
        if |p| > 18 { assert p[18..][0] == p[18]; }
      }
    }
  }

  /** Every listed partitioner dispatches, to the kind and count its name says. */
  lemma DispatchListed()
    ensures Dispatch("metis") == Ok(Metis) && Dispatch("kahip_v2_11") == Ok(Kahip)
    ensures Dispatch("inertial_flow") == Ok(InertialFlow)
    ensures Dispatch("flowcutter3") == Ok(FlowCutter(3)) && Dispatch("flowcutter20") == Ok(FlowCutter(20))
    ensures Dispatch("inertialflowcutter4") == Ok(InertialFlowCutter(4))
    ensures Dispatch("inertialflowcutter8") == Ok(InertialFlowCutter(8))
    ensures Dispatch("inertialflowcutter12") == Ok(InertialFlowCutter(12))
    ensures Dispatch("inertialflowcutter16") == Ok(InertialFlowCutter(16))
  {
    assert !StartsWith("inertial_flow", "flowcutter") by { assert "inertial_flow"[0] == 'i'; }
    ListedFlowCutters();
    ListedInertialFlowCutters(4, "4", "inertialflowcutter4");
    ListedInertialFlowCutters(8, "8", "inertialflowcutter8");
    ListedInertialFlowCutters(12, "12", "inertialflowcutter12");
    ListedInertialFlowCutters(16, "16", "inertialflowcutter16");
  }

  lemma ListedFlowCutters()
    ensures Dispatch("flowcutter3") == Ok(FlowCutter(3)) && Dispatch("flowcutter20") == Ok(FlowCutter(20))
  {
    ListedCount("flowcutter", 3, "3");
    assert "flowcutter" + "3" == "flowcutter3";
    ListedCount("flowcutter", 20, "20");
    assert "flowcutter" + "20" == "flowcutter20";
  }

  lemma ListedInertialFlowCutters(n: nat, digits: string, name: string)
    requires 0 < n < 100 && digits == if n < 10 then [DigitChar(n)] else [DigitChar(n / 10), DigitChar(n % 10)]
    requires name == "inertialflowcutter" + digits
    ensures Dispatch(name) == Ok(InertialFlowCutter(n))
  {
    ListedCount("inertialflowcutter", n, digits);
  }

  lemma ListedCount(prefix: string, n: nat, digits: string)
    requires prefix == "flowcutter" || prefix == "inertialflowcutter"
    requires 0 < n < 100 && digits == if n < 10 then [DigitChar(n)] else [DigitChar(n / 10), DigitChar(n % 10)]
    ensures Dispatch(prefix + digits) == if prefix == "flowcutter" then Ok(FlowCutter(n)) else Ok(InertialFlowCutter(n))
  {
    assert NatToString(n) == digits;
    if prefix == "flowcutter" {
      DispatchFlowCutter(n);
    } else {
      DispatchInertialFlowCutter(n);
    }
  }

  // ---------------------------------------------------------------------
  // Cut rows

  /** One row of a cut table: `epsilon` is its index, the rest its columns. */
  datatype CutRow = CutRow(epsilon: real, achievedEpsilon: Value, cutSize: Value, runningTime: Value, connected: bool)

  /** `metrics[key]`. */
  function Metric(m: Dict<Value>, key: string): (r: Result<Value, CutError>)
    ensures r.Err? <==> key !in m.Keys()
    ensures r.Ok? ==> m.Get(key) == Some(r.value)
  {
    match m.Get(key)
    case None => Err(MissingMetric(key))
    case Some(v) => Ok(v)
  }

  /**
   * `metrics["left_components"] == 1 and metrics["right_components"] == 1`:
   * Python's `and` looks up the right side only when the left one is 1.
   */
  function Connected(m: Dict<Value>): Result<bool, CutError>
  {
    match Metric(m, "left_components")
    case Err(e) => Err(e)
    case Ok(left) =>
      if AsReal(left) != 1.0 then Ok(false)
      else
        match Metric(m, "right_components")
        case Err(e) => Err(e)
        case Ok(right) => Ok(AsReal(right) == 1.0)
  }

  /** Connected iff both sides are one component; it fails only on a lookup it makes. */
  lemma ConnectedIff(m: Dict<Value>)
    ensures Connected(m) == Ok(true) <==>
      m.Get("left_components").Some? && AsReal(m.Get("left_components").value) == 1.0
      && m.Get("right_components").Some? && AsReal(m.Get("right_components").value) == 1.0
    ensures Connected(m).Err? <==>
      m.Get("left_components").None?
      || (AsReal(m.Get("left_components").value) == 1.0 && m.Get("right_components").None?)
  {
  }

  /** The row a one-shot partitioner's metrics give, looked up in the script's order. */
  function OneShotRow(epsilon: real, m: Dict<Value>): Result<CutRow, CutError>
  {
    match Metric(m, "epsilon")
    case Err(e) => Err(e)
    case Ok(achieved) =>
      match Metric(m, "cut_size")
      case Err(e) => Err(e)
      case Ok(cut) =>
        match Metric(m, "running_time")
        case Err(e) => Err(e)
        case Ok(time) =>
          match Connected(m)
          case Err(e) => Err(e)
          case Ok(c) => Ok(CutRow(epsilon, achieved, cut, time, c))
  }

  /** The metrics a one-shot tool reports for one imbalance, or the parse failure. */
  type OneShotTool = real -> Result<Dict<Value>, LogError>

  function OneShotResult(epsilon: real, tool: OneShotTool): Result<CutRow, CutError>
  {
    match tool(epsilon)
    case Err(e) => Err(ToolFailed(e))
    case Ok(m) => OneShotRow(epsilon, m)
  }

  /** The rows of a loop over the imbalances, stopping at the first failure. */
  function Collect(rs: seq<Result<CutRow, CutError>>): Result<seq<CutRow>, CutError>
  {
    if rs == [] then Ok([])
    else
      match Collect(rs[..|rs| - 1])
      case Err(e) => Err(e)
      case Ok(rows) =>
        match rs[|rs| - 1]
        case Err(e) => Err(e)
        case Ok(row) => Ok(rows + [row])
  }

  lemma {:induction false} CollectErrPersists(rs: seq<Result<CutRow, CutError>>, i: nat)
    requires i <= |rs| && Collect(rs[..i]).Err?
    ensures Collect(rs) == Collect(rs[..i])
    decreases |rs|
  {
    if i < |rs| {
      assert rs[..|rs| - 1][..i] == rs[..i];
      CollectErrPersists(rs[..|rs| - 1], i);
    } else {
      assert rs[..i] == rs;
    }
  }

  /** One more successful step appends its row. */
  lemma CollectStep(rs: seq<Result<CutRow, CutError>>, i: nat, rows: seq<CutRow>, row: CutRow)
    requires i < |rs| && Collect(rs[..i]) == Ok(rows) && rs[i] == Ok(row)
    ensures Collect(rs[..i + 1]) == Ok(rows + [row])
  {
    assert rs[..i + 1][..i] == rs[..i];
  }

  /** A failing step ends the loop with its error. */
  lemma CollectStop(rs: seq<Result<CutRow, CutError>>, i: nat, e: CutError)
    requires i < |rs| && Collect(rs[..i]).Ok? && rs[i] == Err(e)
    ensures Collect(rs) == Err(e)
  {
    assert rs[..i + 1][..i] == rs[..i];
    CollectErrPersists(rs, i + 1);
    assert rs[..|rs|] == rs;
  }

  /**
   * The loop succeeds iff every step does, with one row per step in order;
   * otherwise it fails with the first failing step's error.
   */
  lemma {:induction false} CollectIff(rs: seq<Result<CutRow, CutError>>)
    ensures Collect(rs).Ok? <==> forall i :: 0 <= i < |rs| ==> rs[i].Ok?
    ensures Collect(rs).Ok? ==>
              |Collect(rs).value| == |rs| && forall i :: 0 <= i < |rs| ==> Collect(rs).value[i] == rs[i].value
    ensures Collect(rs).Err? ==>
              exists i :: 0 <= i < |rs| && rs[i] == Err(Collect(rs).error) && forall j :: 0 <= j < i ==> rs[j].Ok?
    decreases |rs|
  {
    if rs != [] {
      var front := rs[..|rs| - 1];
      CollectIff(front);
      assert forall i :: 0 <= i < |front| ==> front[i] == rs[i];
    }
  }

  function OneShotResults(tool: OneShotTool): (r: seq<Result<CutRow, CutError>>)
    ensures |r| == |Imbalances| && forall i :: 0 <= i < |r| ==> r[i] == OneShotResult(Imbalances[i], tool)
  {
    seq(|Imbalances|, i requires 0 <= i < |Imbalances| => OneShotResult(Imbalances[i], tool))
  }

  /** `compute_metis_cuts`, `compute_kahip_cuts` and `compute_inertial_flow_cuts`. */
  method OneShotCuts(tool: OneShotTool) returns (r: Result<seq<CutRow>, CutError>)
    ensures r == Collect(OneShotResults(tool))
  {
    ghost var rs := OneShotResults(tool);
    var rows := [];
    var i := 0;
    while i < |Imbalances|
      invariant 0 <= i <= |Imbalances|
      invariant Collect(rs[..i]) == Ok(rows)
    {
      var epsilon := Imbalances[i];
      assert rs[i] == OneShotResult(epsilon, tool);
      var metrics := tool(epsilon);
      if metrics.Err? {
        CollectStop(rs, i, ToolFailed(metrics.error));
        return Err(ToolFailed(metrics.error));
      }
      var row := OneShotRow(epsilon, metrics.value);
      if row.Err? {
        CollectStop(rs, i, row.error);
        return Err(row.error);
      }
      CollectStep(rs, i, rows, row.value);
      rows := rows + [row.value];
      i := i + 1;
    }
    assert rs[..i] == rs;
    r := Ok(rows);
  }

  /** One row per imbalance, indexed by it, with its connectivity as reported. */
  lemma OneShotShape(tool: OneShotTool)
    requires Collect(OneShotResults(tool)).Ok?
    ensures var rows := Collect(OneShotResults(tool)).value;
      |rows| == |Imbalances|
      && forall i :: 0 <= i < |rows| ==>
           rows[i].epsilon == Imbalances[i]
           && tool(Imbalances[i]).Ok?
           && Ok(rows[i].connected) == Connected(tool(Imbalances[i]).value)
  {
    var rs := OneShotResults(tool);
    CollectIff(rs);
    forall i | 0 <= i < |rs|
      ensures rs[i].value.epsilon == Imbalances[i] && tool(Imbalances[i]).Ok?
      ensures Ok(rs[i].value.connected) == Connected(tool(Imbalances[i]).value)
    {
      OneShotResultShape(Imbalances[i], tool);
    }
  }

  lemma OneShotResultShape(epsilon: real, tool: OneShotTool)
    requires OneShotResult(epsilon, tool).Ok?
    ensures OneShotResult(epsilon, tool).value.epsilon == epsilon && tool(epsilon).Ok?
    ensures Ok(OneShotResult(epsilon, tool).value.connected) == Connected(tool(epsilon).value)
  {
  }

  /** Inertial flow is asked for the smaller side's share, `(1 - epsilon) / 2`. */
  function InertialBalance(epsilon: real): (b: real)
    ensures 0.0 <= epsilon <= 1.0 ==> 0.0 <= b <= 0.5
    ensures epsilon == 0.0 ==> b == 0.5
  {
    (1.0 - epsilon) / 2.0
  }

  // ---------------------------------------------------------------------
  // Pareto fronts

  /** One cut of an enumerated front, as the cutter's CSV reports it. */
  datatype EnumCut = EnumCut(cutSize: int, smallSideSize: nat, largeSideSize: nat, time: real)

  /** Half the node count, rounded up: `(node_count + 1) // 2`. */
  function Half(front: seq<EnumCut>): nat
    requires |front| > 0
  {
    (front[|front| - 1].smallSideSize + front[|front| - 1].largeSideSize + 1) / 2
  }

  /** `large / half - 1`. */
  function Imbalance(c: EnumCut, half: nat): real
    requires half > 0
  {
    c.largeSideSize as real / half as real - 1.0
  }

  /**
   * `cuts.imbalance <= epsilon`. With `half == 0` pandas divides to
   * infinity or NaN, and neither is at most epsilon.
   */
  predicate Within(c: EnumCut, half: nat, epsilon: real)
  {
    half > 0 && Imbalance(c, half) <= epsilon
  }

  /** `cuts[cuts.imbalance <= epsilon].iloc[0]`, searched from position `from`. */
  function FirstWithin(front: seq<EnumCut>, half: nat, epsilon: real, from: nat): (r: Option<nat>)
    ensures r.Some? ==> from <= r.value < |front| && Within(front[r.value], half, epsilon)
                        && forall j :: from <= j < r.value ==> !Within(front[j], half, epsilon)
    ensures r.None? ==> forall j :: from <= j < |front| ==> !Within(front[j], half, epsilon)
    decreases |front| - from
  {
    if from >= |front| then None
    else if Within(front[from], half, epsilon) then Some(from)
    else FirstWithin(front, half, epsilon, from + 1)
  }

  /** A looser bound never picks a later cut of the front. */
  lemma FirstWithinMonotone(front: seq<EnumCut>, half: nat, e1: real, e2: real)
    requires e1 <= e2 && FirstWithin(front, half, e1, 0).Some?
    ensures FirstWithin(front, half, e2, 0).Some?
    ensures FirstWithin(front, half, e2, 0).value <= FirstWithin(front, half, e1, 0).value
  {
    var i := FirstWithin(front, half, e1, 0).value;
    assert Within(front[i], half, e2);
  }

  function EnumRow(epsilon: real, front: seq<EnumCut>): Result<CutRow, CutError>
    requires |front| > 0
  {
    match FirstWithin(front, Half(front), epsilon, 0)
    case None => Err(NoCutWithin(epsilon))
    case Some(i) =>
      var c := front[i];
      Ok(CutRow(epsilon, FloatV(Imbalance(c, Half(front))), IntV(c.cutSize), FloatV(c.time * 0.000001), true))
  }

  function EnumResults(front: seq<EnumCut>): (r: seq<Result<CutRow, CutError>>)
    requires |front| > 0
    ensures |r| == |Imbalances| && forall i :: 0 <= i < |r| ==> r[i] == EnumRow(Imbalances[i], front)
  {
    seq(|Imbalances|, i requires 0 <= i < |Imbalances| => EnumRow(Imbalances[i], front))
  }

  function EnumCuts(front: seq<EnumCut>): Result<seq<CutRow>, CutError>
  {
    if front == [] then Err(NoCuts) else Collect(EnumResults(front))
  }

  /** `compute_flow_cutter_cuts` and `compute_inertial_flow_cutter_cuts`. */
  method EnumeratedCuts(front: seq<EnumCut>) returns (r: Result<seq<CutRow>, CutError>)
    ensures r == EnumCuts(front)
  {
    if |front| == 0 {
      return Err(NoCuts);
    }
    var last := front[|front| - 1];
    var half := (last.smallSideSize + last.largeSideSize + 1) / 2;
    ghost var rs := EnumResults(front);
    var rows := [];
    var i := 0;
    assert half == Half(front);
    while i < |Imbalances|
      invariant 0 <= i <= |Imbalances|
      invariant Collect(rs[..i]) == Ok(rows)
    {
      var epsilon := Imbalances[i];
      assert rs[i] == EnumRow(epsilon, front);
      var chosen := FirstWithin(front, half, epsilon, 0);
      if chosen.None? {
        CollectStop(rs, i, NoCutWithin(epsilon));
        return Err(NoCutWithin(epsilon));
      }
      var c := front[chosen.value];
      var imbalance := c.largeSideSize as real / half as real - 1.0;
      var row := CutRow(epsilon, FloatV(imbalance), IntV(c.cutSize), FloatV(c.time * 0.000001), true);
      assert imbalance == Imbalance(c, Half(front));
      CollectStep(rs, i, rows, row);
      rows := rows + [row];
      i := i + 1;
    }
    assert rs[..i] == rs;
    r := Ok(rows);
  }

  /**
   * An enumerated front gives one connected row per imbalance whose achieved
   * imbalance is within it, chosen as the first balanced-enough cut; looser
   * imbalances choose no later cut.
   */
  lemma EnumShape(front: seq<EnumCut>)
    requires EnumCuts(front).Ok?
    ensures var rows := EnumCuts(front).value;
      |rows| == |Imbalances|
      && forall i :: 0 <= i < |rows| ==>
           rows[i].epsilon == Imbalances[i] && rows[i].connected
           && rows[i].achievedEpsilon.FloatV? && rows[i].achievedEpsilon.r <= Imbalances[i]
           && rows[i].cutSize.IntV?
  {
    CollectIff(EnumResults(front));
  }

  /** The front fails only when it is empty or some imbalance is met by no cut. */
  lemma EnumFails(front: seq<EnumCut>)
    ensures EnumCuts(front).Err? <==>
      front == [] || exists i :: 0 <= i < |Imbalances| && FirstWithin(front, Half(front), Imbalances[i], 0).None?
  {
    if front != [] {
      CollectIff(EnumResults(front));
    }
  }

  // ---------------------------------------------------------------------
  // compute_cuts and main

  /**
   * The cut tools, one per kind of partitioner, as functions of the graph
   * directory and the imbalance (for inertial flow: the balance it is
   * given), or of the graph directory and the cutter count.
   */
  datatype Tools = Tools(
    metis: (string, real) -> Result<Dict<Value>, LogError>,
    kahip: (string, real) -> Result<Dict<Value>, LogError>,
    inertialFlow: (string, real) -> Result<Dict<Value>, LogError>,
    flowCutter: (string, nat) -> seq<EnumCut>,
    inertialFlowCutter: (string, nat) -> seq<EnumCut>)

  function MetisTool(t: Tools, g: string): OneShotTool { epsilon => t.metis(GraphPath(g), epsilon) }
  function KahipTool(t: Tools, g: string): OneShotTool { epsilon => t.kahip(GraphPath(g), epsilon) }
  function InertialFlowTool(t: Tools, g: string): OneShotTool
  {
    epsilon => t.inertialFlow(GraphPath(g), InertialBalance(epsilon))
  }

  /** `compute_cuts(G, P)`. */
  function Cuts(g: string, p: string, t: Tools): Result<seq<CutRow>, CutError>
  {
    match Dispatch(p)
    case Err(e) => Err(e)
    case Ok(Metis) => Collect(OneShotResults(MetisTool(t, g)))
    case Ok(Kahip) => Collect(OneShotResults(KahipTool(t, g)))
    case Ok(InertialFlow) => Collect(OneShotResults(InertialFlowTool(t, g)))
    case Ok(FlowCutter(n)) => EnumCuts(t.flowCutter(GraphPath(g), n))
    case Ok(InertialFlowCutter(n)) => EnumCuts(t.inertialFlowCutter(GraphPath(g), n))
  }

  method ComputeCuts(g: string, p: string, t: Tools) returns (r: Result<seq<CutRow>, CutError>)
    ensures r == Cuts(g, p, t)
  {
    var kind := Dispatch(p);
    if kind.Err? {
      return Err(kind.error);
    }
    match kind.value
    case Metis => r := OneShotCuts(MetisTool(t, g));
    case Kahip => r := OneShotCuts(KahipTool(t, g));
    case InertialFlow => r := OneShotCuts(InertialFlowTool(t, g));
    case FlowCutter(n) => r := EnumeratedCuts(t.flowCutter(GraphPath(g), n));
    case InertialFlowCutter(n) => r := EnumeratedCuts(t.inertialFlowCutter(GraphPath(g), n));
  }

  /** `compute_cuts` as the loops of `main` call it: the rows for a graph and a partitioner, or the failure. */
  type CutFn = (string, string) -> Result<seq<CutRow>, CutError>

  function CutsOf(t: Tools): CutFn { (g, p) => Cuts(g, p, t) }

  /** The cut files written, in order, and the pair whose computation failed, if one did. */
  datatype Outcome = Outcome(written: seq<(string, seq<CutRow>)>, failure: Option<(string, string, CutError)>)

  function Prepend(w: seq<(string, seq<CutRow>)>, o: Outcome): Outcome
  {
    Outcome(w + o.written, o.failure)
  }

  function Files(w: seq<(string, seq<CutRow>)>): (r: set<string>)
    ensures forall i :: 0 <= i < |w| ==> w[i].0 in r
    ensures forall f :: f in r ==> exists i :: 0 <= i < |w| && w[i].0 == f
  {
    if w == [] then {} else {w[0].0} + Files(w[1..])
  }

  /** The inner loop of `main` for graph `g`: skip a present file, else compute and write it. */
  function RunRow(g: string, ps: seq<string>, present: set<string>, cuts: CutFn): Outcome
    decreases |ps|
  {
    if ps == [] then Outcome([], None)
    else if OutputFile(g, ps[0]) in present then RunRow(g, ps[1..], present, cuts)
    else
      match cuts(g, ps[0])
      case Err(e) => Outcome([], Some((g, ps[0], e)))
      case Ok(rows) => Prepend([(OutputFile(g, ps[0]), rows)], RunRow(g, ps[1..], present + {OutputFile(g, ps[0])}, cuts))
  }

  /** The outer loop of `main`; a failure ends the script. */
  function RunAll(gs: seq<string>, ps: seq<string>, present: set<string>, cuts: CutFn): Outcome
    decreases |gs|
  {
    if gs == [] then Outcome([], None)
    else
      var o := RunRow(gs[0], ps, present, cuts);
      if o.failure.Some? then o
      else Prepend(o.written, RunAll(gs[1..], ps, present + Files(o.written), cuts))
  }

  lemma FilesAppend(a: seq<(string, seq<CutRow>)>, b: seq<(string, seq<CutRow>)>)
    ensures Files(a + b) == Files(a) + Files(b)
  {
    forall f | f in Files(a + b) ensures f in Files(a) + Files(b) {
      var i :| 0 <= i < |a + b| && (a + b)[i].0 == f;
      if i >= |a| { assert b[i - |a|].0 == f; }
    }
    forall f | f in Files(a) + Files(b) ensures f in Files(a + b) {
      if f in Files(a) {
        var i :| 0 <= i < |a| && a[i].0 == f;
        assert (a + b)[i].0 == f;
      } else {
        var i :| 0 <= i < |b| && b[i].0 == f;
        assert (a + b)[|a| + i].0 == f;
      }
    }
  }

  /** The inner loop of `main` over the partitioners for graph `g`. */
  method RunGraph(g: string, ps: seq<string>, present: set<string>, t: Tools) returns (o: Outcome, after: set<string>)
    ensures o == RunRow(g, ps, present, CutsOf(t))
    ensures after == present + Files(o.written)
  {
    after := present;
    var written := [];
    var pi := 0;
    while pi < |ps|
      invariant 0 <= pi <= |ps|
      invariant after == present + Files(written)
      invariant RunRow(g, ps, present, CutsOf(t)) == Prepend(written, RunRow(g, ps[pi..], after, CutsOf(t)))
    {
      var p := ps[pi];
      var file := OutputFile(g, p);
      if file !in after {
        var cuts := ComputeCuts(g, p, t);
        assert cuts == CutsOf(t)(g, p);
        if cuts.Err? {
          RowFails(g, ps, pi, after, CutsOf(t));
          return Outcome(written, Some((g, p, cuts.error))), after;
        }
        RowWrites(g, ps, pi, after, CutsOf(t));
        PrependOne(written, (file, cuts.value), RunRow(g, ps[pi + 1..], after + {file}, CutsOf(t)));
        FilesAppend(written, [(file, cuts.value)]);
        written := written + [(file, cuts.value)];
        after := after + {file};
      } else {
        RowSkips(g, ps, pi, after, CutsOf(t));
      }
      pi := pi + 1;
    }
    o := Outcome(written, None);
  }

  lemma RowSkips(g: string, ps: seq<string>, i: nat, present: set<string>, cuts: CutFn)
    requires i < |ps| && OutputFile(g, ps[i]) in present
    ensures RunRow(g, ps[i..], present, cuts) == RunRow(g, ps[i + 1..], present, cuts)
  {
    assert ps[i..][1..] == ps[i + 1..];
  }

  lemma RowFails(g: string, ps: seq<string>, i: nat, present: set<string>, cuts: CutFn)
    requires i < |ps| && OutputFile(g, ps[i]) !in present && cuts(g, ps[i]).Err?
    ensures RunRow(g, ps[i..], present, cuts) == Outcome([], Some((g, ps[i], cuts(g, ps[i]).error)))
  {
  }

  lemma RowWrites(g: string, ps: seq<string>, i: nat, present: set<string>, cuts: CutFn)
    requires i < |ps| && OutputFile(g, ps[i]) !in present && cuts(g, ps[i]).Ok?
    ensures RunRow(g, ps[i..], present, cuts)
      == Prepend([(OutputFile(g, ps[i]), cuts(g, ps[i]).value)], RunRow(g, ps[i + 1..], present + {OutputFile(g, ps[i])}, cuts))
  {
    assert ps[i..][1..] == ps[i + 1..];
  }

  lemma PrependOne(w: seq<(string, seq<CutRow>)>, x: (string, seq<CutRow>), o: Outcome)
    ensures Prepend(w, Prepend([x], o)) == Prepend(w + [x], o)
  {
  }

  /**
   * `main`, run over `graphs` and `partitioners` (the script's own lists
   * `Graphs` and `Partitioners`); `existing` is the set of files present
   * when it starts.
   */
  method RunExperiments(graphs: seq<string>, partitioners: seq<string>, existing: set<string>, t: Tools) returns (o: Outcome)
    ensures o == RunAll(graphs, partitioners, existing, CutsOf(t))
  {
    var present := existing;
    var written := [];
    var gi := 0;
    while gi < |graphs|
      invariant 0 <= gi <= |graphs|
      invariant RunAll(graphs, partitioners, existing, CutsOf(t)) == Prepend(written, RunAll(graphs[gi..], partitioners, present, CutsOf(t)))
    {
      assert graphs[gi..][1..] == graphs[gi + 1..];
      var row, after := RunGraph(graphs[gi], partitioners, present, t);
      if row.failure.Some? {
        return Prepend(written, row);
      }
      written := written + row.written;
      present := after;
      gi := gi + 1;
    }
    o := Outcome(written, None);
  }

  /** Files written are absent beforehand, and none is written twice. */
  ghost predicate Fresh(w: seq<(string, seq<CutRow>)>, present: set<string>)
  {
    (forall i :: 0 <= i < |w| ==> w[i].0 !in present)
    && (forall i, k :: 0 <= i < k < |w| ==> w[i].0 != w[k].0)
  }

  /** The entry for pair `(g, p)`: its file name and its computed cuts. */
  ghost predicate EntryOf(e: (string, seq<CutRow>), g: string, p: string, cuts: CutFn)
  {
    cuts(g, p).Ok? && e == (OutputFile(g, p), cuts(g, p).value)
  }

  /** `e` is the entry of one of the pairs `gs` × `ps`. */
  ghost predicate FromLists(e: (string, seq<CutRow>), gs: seq<string>, ps: seq<string>, cuts: CutFn)
  {
    exists a, b :: 0 <= a < |gs| && 0 <= b < |ps| && EntryOf(e, gs[a], ps[b], cuts)
  }

  lemma FromListsTail(e: (string, seq<CutRow>), gs: seq<string>, ps: seq<string>, cuts: CutFn, onGraphs: bool)
    requires onGraphs ==> |gs| > 0 && FromLists(e, gs[1..], ps, cuts)
    requires !onGraphs ==> |ps| > 0 && FromLists(e, gs, ps[1..], cuts)
    ensures FromLists(e, gs, ps, cuts)
  {
    if onGraphs {
      var a, b :| 0 <= a < |gs[1..]| && 0 <= b < |ps| && EntryOf(e, gs[1..][a], ps[b], cuts);
      assert gs[1..][a] == gs[a + 1];
    } else {
      var a, b :| 0 <= a < |gs| && 0 <= b < |ps[1..]| && EntryOf(e, gs[a], ps[1..][b], cuts);
      assert ps[1..][b] == ps[b + 1];
    }
  }

  lemma FromListsHead(e: (string, seq<CutRow>), gs: seq<string>, ps: seq<string>, cuts: CutFn)
    requires |gs| > 0 && FromLists(e, [gs[0]], ps, cuts)
    ensures FromLists(e, gs, ps, cuts)
  {
    var a, b :| 0 <= a < 1 && 0 <= b < |ps| && EntryOf(e, [gs[0]][a], ps[b], cuts);
    assert [gs[0]][a] == gs[0];
  }

  /** Every pair of `gs` × `ps` has its cut file in `files`. */
  ghost predicate Covers(files: set<string>, gs: seq<string>, ps: seq<string>)
  {
    forall a, b :: 0 <= a < |gs| && 0 <= b < |ps| ==> OutputFile(gs[a], ps[b]) in files
  }

  lemma {:induction false} RunRowFresh(g: string, ps: seq<string>, present: set<string>, cuts: CutFn)
    ensures Fresh(RunRow(g, ps, present, cuts).written, present)
    decreases |ps|
  {
    if ps != [] {
      var f := OutputFile(g, ps[0]);
      if f in present {
        RunRowFresh(g, ps[1..], present, cuts);
      } else if cuts(g, ps[0]).Ok? {
        RunRowFresh(g, ps[1..], present + {f}, cuts);
        var o' := RunRow(g, ps[1..], present + {f}, cuts);
        assert RunRow(g, ps, present, cuts).written == [(f, cuts(g, ps[0]).value)] + o'.written;
      }
    }
  }

  lemma {:induction false} RunRowEntries(g: string, ps: seq<string>, present: set<string>, cuts: CutFn)
    ensures forall i :: 0 <= i < |RunRow(g, ps, present, cuts).written| ==>
              FromLists(RunRow(g, ps, present, cuts).written[i], [g], ps, cuts)
    decreases |ps|
  {
    if ps != [] {
      var f := OutputFile(g, ps[0]);
      var tl := ps[1..];
      var w := RunRow(g, ps, present, cuts).written;
      if f in present {
        RunRowEntries(g, tl, present, cuts);
        forall i | 0 <= i < |w| ensures FromLists(w[i], [g], ps, cuts) {
          FromListsTail(w[i], [g], ps, cuts, false);
        }
      } else if cuts(g, ps[0]).Ok? {
        RunRowEntries(g, tl, present + {f}, cuts);
        var w' := RunRow(g, tl, present + {f}, cuts).written;
        assert w == [(f, cuts(g, ps[0]).value)] + w';
        forall i | 0 <= i < |w| ensures FromLists(w[i], [g], ps, cuts) {
          if i == 0 {
            assert EntryOf(w[0], [g][0], ps[0], cuts);
          } else {
            assert w[i] == w'[i - 1];
            FromListsTail(w[i], [g], ps, cuts, false);
          }
        }
      }
    }
  }

  lemma {:induction false} RunRowCovers(g: string, ps: seq<string>, present: set<string>, cuts: CutFn)
    ensures RunRow(g, ps, present, cuts).failure.None? ==>
              Covers(present + Files(RunRow(g, ps, present, cuts).written), [g], ps)
    decreases |ps|
  {
    if ps != [] {
      var f := OutputFile(g, ps[0]);
      var tl := ps[1..];
      var o := RunRow(g, ps, present, cuts);
      if f in present {
        RunRowCovers(g, tl, present, cuts);
      } else if cuts(g, ps[0]).Ok? {
        RunRowCovers(g, tl, present + {f}, cuts);
        var o' := RunRow(g, tl, present + {f}, cuts);
        FilesAppend([(f, cuts(g, ps[0]).value)], o'.written);
      }
      if o.failure.None? {
        forall a, b | 0 <= a < 1 && 0 <= b < |ps|
          ensures OutputFile([g][a], ps[b]) in present + Files(o.written)
        {
          if b > 0 { assert ps[b] == tl[b - 1]; }
        }
      }
    }
  }

  /** `main` computes a pair only when its cut file is absent, and writes each file once. */
  lemma {:induction false} RunAllFresh(gs: seq<string>, ps: seq<string>, present: set<string>, cuts: CutFn)
    ensures Fresh(RunAll(gs, ps, present, cuts).written, present)
    decreases |gs|
  {
    if gs != [] {
      var r := RunRow(gs[0], ps, present, cuts);
      RunRowFresh(gs[0], ps, present, cuts);
      if r.failure.None? {
        var next := present + Files(r.written);
        RunAllFresh(gs[1..], ps, next, cuts);
        var o' := RunAll(gs[1..], ps, next, cuts);
        var o := RunAll(gs, ps, present, cuts);
        assert o.written == r.written + o'.written;
        forall i, k | 0 <= i < k < |o.written|
          ensures o.written[i].0 != o.written[k].0
        {
          if i < |r.written| && k >= |r.written| {
            assert o.written[i].0 in Files(r.written);
            assert o.written[k] == o'.written[k - |r.written|];
          }
        }
      }
    }
  }

  /** Every written file holds the cuts computed for a pair of the two lists. */
  lemma {:induction false} RunAllEntries(gs: seq<string>, ps: seq<string>, present: set<string>, cuts: CutFn)
    ensures forall i :: 0 <= i < |RunAll(gs, ps, present, cuts).written| ==>
              FromLists(RunAll(gs, ps, present, cuts).written[i], gs, ps, cuts)
    decreases |gs|
  {
    if gs != [] {
      var r := RunRow(gs[0], ps, present, cuts);
      RunRowEntries(gs[0], ps, present, cuts);
      if r.failure.None? {
        var next := present + Files(r.written);
        RunAllEntries(gs[1..], ps, next, cuts);
        var w' := RunAll(gs[1..], ps, next, cuts).written;
        assert RunAll(gs, ps, present, cuts).written == r.written + w';
        EntriesJoin(r.written, w', gs, ps, cuts);
      } else {
        EntriesJoin(r.written, [], gs, ps, cuts);
        assert r.written + [] == r.written;
      }
    }
  }

  /** Entries of the first graph followed by entries of the other graphs are entries of all graphs. */
  lemma EntriesJoin(w1: seq<(string, seq<CutRow>)>, w2: seq<(string, seq<CutRow>)>, gs: seq<string>, ps: seq<string>, cuts: CutFn)
    requires |gs| > 0
    requires forall i :: 0 <= i < |w1| ==> FromLists(w1[i], [gs[0]], ps, cuts)
    requires forall i :: 0 <= i < |w2| ==> FromLists(w2[i], gs[1..], ps, cuts)
    ensures forall i :: 0 <= i < |w1 + w2| ==> FromLists((w1 + w2)[i], gs, ps, cuts)
  {
    forall i | 0 <= i < |w1 + w2| ensures FromLists((w1 + w2)[i], gs, ps, cuts) {
      if i < |w1| {
        FromListsHead(w1[i], gs, ps, cuts);
      } else {
        assert (w1 + w2)[i] == w2[i - |w1|];
        FromListsTail(w2[i - |w1|], gs, ps, cuts, true);
      }
    }
  }

  /** Unless a computation fails, every pair of the two lists ends with a cut file. */
  lemma {:induction false} RunAllCovers(gs: seq<string>, ps: seq<string>, present: set<string>, cuts: CutFn)
    ensures RunAll(gs, ps, present, cuts).failure.None? ==>
              Covers(present + Files(RunAll(gs, ps, present, cuts).written), gs, ps)
    decreases |gs|
  {
    if gs != [] {
      var r := RunRow(gs[0], ps, present, cuts);
      RunRowCovers(gs[0], ps, present, cuts);
      if r.failure.None? {
        var next := present + Files(r.written);
        RunAllCovers(gs[1..], ps, next, cuts);
        var o' := RunAll(gs[1..], ps, next, cuts);
        var o := RunAll(gs, ps, present, cuts);
        assert o.written == r.written + o'.written;
        FilesAppend(r.written, o'.written);
        if o'.failure.None? {
          CoversJoin(next, next + Files(o'.written), gs, ps);
        }
      }
    }
  }

  /** The first graph's files and the rest's files cover all graphs. */
  lemma CoversJoin(first: set<string>, all: set<string>, gs: seq<string>, ps: seq<string>)
    requires |gs| > 0 && Covers(first, [gs[0]], ps) && Covers(all, gs[1..], ps) && first <= all
    ensures Covers(all, gs, ps)
  {
    forall a, b | 0 <= a < |gs| && 0 <= b < |ps|
      ensures OutputFile(gs[a], ps[b]) in all
    {
      if a > 0 {
        assert gs[a] == gs[1..][a - 1];
      } else {
        assert OutputFile([gs[0]][0], ps[b]) in first;
      }
    }
  }
}
