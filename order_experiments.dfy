/**
 * order_experiments.py: for every graph and partitioner whose order file
 * exists and that the ledger does not contain yet, examine the order with
 * the console, add the order time, customization and query times, and
 * append the row; then put graph and partitioner first and sort by the
 * positions of graph and partitioner in the script's lists.
 */
module OrderExperiments {
  import opened Wrappers
  import opened PyDict
  import opened MetricsLog
  import opened Ledger
  import OrderScripts

  const Graphs: seq<string> := ["col", "cal", "europe", "usa"]
  const Partitioners: seq<string> := ["metis", "kahip_v0_71", "kahip_v1_00_cut", "kahip_v2_11", "inertial_flow",
                                      "flowcutter3", "flowcutter20", "flowcutter100", "inertialflowcutter4",
                                      "inertialflowcutter8", "inertialflowcutter12", "inertialflowcutter16"]

  /** The console's chordal-supergraph report: blank lines skipped, no rename. */
  const ChordalLog := Variant(true, KeepTime)

  /** The console commands of `parse_order_log`: load, symmetrise, apply the order, examine. */
  function ExamineArgs(g: string, p: string): seq<string>
  {
    ["load_routingkit_unweighted_graph", OrderScripts.GraphPath(g) + "first_out", OrderScripts.GraphPath(g) + "head",
     "add_back_arcs", "remove_multi_arcs", "remove_loops",
     "permutate_nodes_routingkit", OrderScripts.OrderPath(g, p),
     "examine_chordal_supergraph"]
  }

  /** `next(i for i, v in enumerate(xs) if v == x)`: the first position, `None` for StopIteration. */
  function IndexIn(xs: seq<string>, x: string): (r: Option<nat>)
    ensures r.None? <==> x !in xs
    ensures r.Some? ==> r.value < |xs| && xs[r.value] == x && forall j :: 0 <= j < r.value ==> xs[j] != x
  {
    if xs == [] then None
    else if xs[0] == x then Some(0)
    else match IndexIn(xs[1..], x)
      case None => None
      case Some(i) => Some(i + 1)
  }

  lemma IndexInDistinct(xs: seq<string>, i: nat)
    requires i < |xs| && forall a, b :: 0 <= a < b < |xs| ==> xs[a] != xs[b]
    ensures IndexIn(xs, xs[i]) == Some(i)
  {
  }

  datatype LedgerError =
    | LogFailed(e: LogError)                          // the examine report did not parse
    | OrderTimeNotUnique(graph: string, partitioner: string, matches: nat)  // `float(...)` of a selection
    | UnknownName(name: string)                       // `graph_id` / `partitioner_id` StopIteration
    | MissingColumn(column: string)                   // `list.remove` ValueError

  /** One line of order_running_time.csv. */
  datatype OrderTimeRecord = OrderTimeRecord(graph: string, partitioner: string, seconds: real)

  function Matching(times: seq<OrderTimeRecord>, g: string, p: string): (r: seq<real>)
    ensures |r| <= |times|
  {
    if times == [] then []
    else (if times[0].graph == g && times[0].partitioner == p then [times[0].seconds] else [])
         + Matching(times[1..], g, p)
  }

  /** The order time of the pair: `float` of a one-element selection, an error otherwise. */
  function OrderTime(times: seq<OrderTimeRecord>, g: string, p: string): Result<real, LedgerError>
  {
    var m := Matching(times, g, p);
    if |m| == 1 then Ok(m[0]) else Err(OrderTimeNotUnique(g, p, |m|))
  }

  lemma {:induction false} OrderTimeFound(times: seq<OrderTimeRecord>, g: string, p: string)
    ensures OrderTime(times, g, p).Ok? ==>
      exists i :: 0 <= i < |times| && times[i] == OrderTimeRecord(g, p, OrderTime(times, g, p).value)
    ensures (forall i :: 0 <= i < |times| ==> !(times[i].graph == g && times[i].partitioner == p)) ==>
      OrderTime(times, g, p).Err?
  {
    MatchingIn(times, g, p);
  }

  lemma {:induction false} MatchingIn(times: seq<OrderTimeRecord>, g: string, p: string)
    ensures forall x :: x in Matching(times, g, p) ==> exists i :: 0 <= i < |times| && times[i] == OrderTimeRecord(g, p, x)
    ensures (forall i :: 0 <= i < |times| ==> !(times[i].graph == g && times[i].partitioner == p)) ==> Matching(times, g, p) == []
  {
    if times != [] {
      MatchingIn(times[1..], g, p);
      forall x | x in Matching(times, g, p)
        ensures exists i :: 0 <= i < |times| && times[i] == OrderTimeRecord(g, p, x)
      {
        if x !in Matching(times[1..], g, p) {
          assert times[0] == OrderTimeRecord(g, p, x);
        } else {
          var i :| 0 <= i < |times[1..]| && times[1..][i] == OrderTimeRecord(g, p, x);
          assert times[i + 1] == OrderTimeRecord(g, p, x);
        }
      }
    }
  }

  /** What the external tools measure for a pair: the examine report and two timings. */
  datatype Measurement = Measurement(report: seq<string>, customizationTime: real, queryTime: real)

  type Measure = (string, string) -> Measurement

  function Key(g: string, p: string): seq<(string, Cell)>
  {
    [("graph", Text(g)), ("partitioner", Text(p))]
  }

  /** `row_dict` of one experiment, in its assignment order. */
  function NewRow(g: string, p: string, times: seq<OrderTimeRecord>, m: Measurement): Result<Dict<Cell>, LedgerError>
  {
    match Parse(m.report, ChordalLog)
    case Err(e) => Err(LogFailed(e))
    case Ok(metrics) =>
      match OrderTime(times, g, p)
      case Err(e) => Err(e)
      case Ok(seconds) =>
        Ok(Empty().Set("graph", Text(g)).Set("partitioner", Text(p)).Update(Cells(metrics))
             .Set("order_running_time", Number(seconds))
             .Set("median_customization_time", Number(m.customizationTime))
             .Set("avg_query_time", Number(m.queryTime)))
  }

  /** One iteration of the loop: skip a missing order or a contained pair, else append its row. */
  function Step(t: Table, g: string, p: string, orders: set<string>, times: seq<OrderTimeRecord>, measure: Measure)
    : Result<Table, LedgerError>
  {
    if OrderScripts.OrderPath(g, p) !in orders || Contained(t.rows, Key(g, p)) then Ok(t)
    else
      match NewRow(g, p, times, measure(g, p))
      case Err(e) => Err(e)
      case Ok(row) => Ok(Append(t, row))
  }

  /** A pair is appended exactly when its order exists and it is not contained yet. */
  lemma StepEffect(t: Table, g: string, p: string, orders: set<string>, times: seq<OrderTimeRecord>, measure: Measure)
    requires Step(t, g, p, orders, times, measure).Ok?
    ensures var t' := Step(t, g, p, orders, times, measure).value;
      (t' == t <==> OrderScripts.OrderPath(g, p) !in orders || Contained(t.rows, Key(g, p)))
      && (t' != t ==> t'.rows == t.rows + [ToMap(NewRow(g, p, times, measure(g, p)).value)])
  {
    if OrderScripts.OrderPath(g, p) in orders && !Contained(t.rows, Key(g, p)) {
      assert |Step(t, g, p, orders, times, measure).value.rows| == |t.rows| + 1;
    }
  }

  /**
   * After a step the pair is contained whenever its order exists, as long as the
   * examine report does not itself name a `graph` or `partitioner` metric.
   */
  lemma StepContains(t: Table, g: string, p: string, orders: set<string>, times: seq<OrderTimeRecord>, measure: Measure)
    requires Step(t, g, p, orders, times, measure).Ok?
    requires OrderScripts.OrderPath(g, p) in orders
    requires Parse(measure(g, p).report, ChordalLog).Ok? ==>
      "graph" !in Parse(measure(g, p).report, ChordalLog).value.Keys()
      && "partitioner" !in Parse(measure(g, p).report, ChordalLog).value.Keys()
    ensures Contained(Step(t, g, p, orders, times, measure).value.rows, Key(g, p))
  {
    if !Contained(t.rows, Key(g, p)) {
      var m := measure(g, p);
      var row := NewRow(g, p, times, m).value;
      assert Step(t, g, p, orders, times, measure) == Ok(Append(t, row));
      NewRowKey(g, p, times, m);
      KeyContains(t, row, g, p);
    } else {
      assert Step(t, g, p, orders, times, measure) == Ok(t);
    }
  }

  /** Appending a row that carries the graph and the partitioner makes the pair contained. */
  lemma KeyContains(t: Table, row: Dict<Cell>, g: string, p: string)
    requires row.Valid() && row.Get("graph") == Some(Text(g)) && row.Get("partitioner") == Some(Text(p))
    ensures Contained(Append(t, row).rows, Key(g, p))
  {
    var key := Key(g, p);
    forall i | 0 <= i < |key| ensures row.Get(key[i].0) == Some(key[i].1) {
      if i == 0 {
        assert key[i] == ("graph", Text(g));
      } else {
        assert key[i] == ("partitioner", Text(p));
      }
    }
    AppendContains(t, row, key);
  }

  /** The new row has distinct columns and carries its graph and partitioner. */
  lemma NewRowKey(g: string, p: string, times: seq<OrderTimeRecord>, m: Measurement)
    requires NewRow(g, p, times, m).Ok?
    requires Parse(m.report, ChordalLog).Ok? ==>
      "graph" !in Parse(m.report, ChordalLog).value.Keys()
      && "partitioner" !in Parse(m.report, ChordalLog).value.Keys()
    ensures NewRow(g, p, times, m).value.Valid()
    ensures NewRow(g, p, times, m).value.Get("graph") == Some(Text(g))
    ensures NewRow(g, p, times, m).value.Get("partitioner") == Some(Text(p))
  {
    var metrics := Parse(m.report, ChordalLog).value;
    var s := OrderTime(times, g, p).value;
    var d0 := Empty<Cell>().Set("graph", Text(g)).Set("partitioner", Text(p));
    var d1 := d0.Update(Cells(metrics));
    var d2 := d1.Set("order_running_time", Number(s));
    var d3 := d2.Set("median_customization_time", Number(m.customizationTime));
    var row := d3.Set("avg_query_time", Number(m.queryTime));
    assert NewRow(g, p, times, m) == Ok(row);
    ParseValid(m.report, ChordalLog);
    KeyPrefix(g, p, metrics);
    SetValid(d1, "order_running_time", Number(s));
    SetValid(d2, "median_customization_time", Number(m.customizationTime));
    SetValid(d3, "avg_query_time", Number(m.queryTime));
    RowKey(d1, d2, d3, row, g, p, s, m);
  }

  lemma KeyPrefix(g: string, p: string, metrics: Dict<Value>)
    requires metrics.Valid()
    requires "graph" !in metrics.Keys() && "partitioner" !in metrics.Keys()
    ensures var d1 := Empty<Cell>().Set("graph", Text(g)).Set("partitioner", Text(p)).Update(Cells(metrics));
      d1.Valid() && d1.Get("graph") == Some(Text(g)) && d1.Get("partitioner") == Some(Text(p))
  {
    var d0 := Empty<Cell>().Set("graph", Text(g)).Set("partitioner", Text(p));
    CellsValid(metrics);
    GetUpdate(d0, Cells(metrics), "graph");
    GetUpdate(d0, Cells(metrics), "partitioner");
    SetValid(Empty<Cell>(), "graph", Text(g));
    SetValid(Empty<Cell>().Set("graph", Text(g)), "partitioner", Text(p));
    UpdateValid(d0, Cells(metrics));
    GetSet(Empty<Cell>(), "graph", Text(g), "graph");
    GetSet(Empty<Cell>().Set("graph", Text(g)), "partitioner", Text(p), "graph");
    GetSet(Empty<Cell>().Set("graph", Text(g)), "partitioner", Text(p), "partitioner");
  }

  lemma CellsValid(d: Dict<Value>)
    requires d.Valid()
    ensures Cells(d).Valid()
  {
  }

  lemma RowKey(d1: Dict<Cell>, d2: Dict<Cell>, d3: Dict<Cell>, row: Dict<Cell>, g: string, p: string, s: real, m: Measurement)
    requires d2 == d1.Set("order_running_time", Number(s))
    requires d3 == d2.Set("median_customization_time", Number(m.customizationTime))
    requires row == d3.Set("avg_query_time", Number(m.queryTime))
    requires d1.Get("graph") == Some(Text(g)) && d1.Get("partitioner") == Some(Text(p))
    ensures row.Get("graph") == Some(Text(g)) && row.Get("partitioner") == Some(Text(p))
  {
    GetSet(d1, "order_running_time", Number(s), "graph");
    GetSet(d1, "order_running_time", Number(s), "partitioner");
    GetSet(d2, "median_customization_time", Number(m.customizationTime), "graph");
    GetSet(d2, "median_customization_time", Number(m.customizationTime), "partitioner");
    GetSet(d3, "avg_query_time", Number(m.queryTime), "graph");
    GetSet(d3, "avg_query_time", Number(m.queryTime), "partitioner");
  }

  // ---------------------------------------------------------------------
  // main: the two nested loops

  /** The inner loop over the partitioners of one graph, stopping at the first error. */
  function RunPartitioners(t: Table, g: string, ps: seq<string>, orders: set<string>, times: seq<OrderTimeRecord>,
                           measure: Measure): Result<Table, LedgerError>
    decreases |ps|
  {
    if ps == [] then Ok(t)
    else
      match Step(t, g, ps[0], orders, times, measure)
      case Err(e) => Err(e)
      case Ok(t1) => RunPartitioners(t1, g, ps[1..], orders, times, measure)
  }

  function RunGraphs(t: Table, gs: seq<string>, ps: seq<string>, orders: set<string>, times: seq<OrderTimeRecord>,
                     measure: Measure): Result<Table, LedgerError>
    decreases |gs|
  {
    if gs == [] then Ok(t)
    else
      match RunPartitioners(t, gs[0], ps, orders, times, measure)
      case Err(e) => Err(e)
      case Ok(t1) => RunGraphs(t1, gs[1..], ps, orders, times, measure)
  }

  /** `main`: the ledger on disk (or the header-only one), the loops, then the post-processing. */
  function Experiments(existing: Option<Table>, gs: seq<string>, ps: seq<string>, orders: set<string>,
                       times: seq<OrderTimeRecord>, measure: Measure): Result<Table, LedgerError>
  {
    var initial := if existing.Some? then existing.value else InitialLedger;
    match RunGraphs(initial, gs, ps, orders, times, measure)
    case Err(e) => Err(e)
    case Ok(t) => Finish(t, gs, ps)
  }

  /** The loops of `main`, with the tools' measurements and the order files as parameters. */
  method RunOrderExperiments(existing: Option<Table>, gs: seq<string>, ps: seq<string>, orders: set<string>,
                             times: seq<OrderTimeRecord>, measure: Measure)
    returns (r: Result<Table, LedgerError>)
    ensures r == Experiments(existing, gs, ps, orders, times, measure)
  {
    var initial := if existing.Some? then existing.value else InitialLedger;
    var results := initial;
    var i := 0;
    while i < |gs|
      invariant 0 <= i <= |gs|
      invariant RunGraphs(results, gs[i..], ps, orders, times, measure) == RunGraphs(initial, gs, ps, orders, times, measure)
    {
      var g := gs[i];
      ghost var start := results;
      var j := 0;
      while j < |ps|
        invariant 0 <= j <= |ps|
        invariant RunPartitioners(results, g, ps[j..], orders, times, measure) == RunPartitioners(start, g, ps, orders, times, measure)
      {
        var p := ps[j];
        assert ps[j..][1..] == ps[j + 1..];
        if OrderScripts.OrderPath(g, p) in orders && !Contained(results.rows, Key(g, p)) {
          var m := measure(g, p);
          var metrics := ParseLog(m.report, ChordalLog);
          if metrics.Err? {
            return Err(LogFailed(metrics.error));
          }
          var seconds := OrderTime(times, g, p);
          if seconds.Err? {
            return Err(seconds.error);
          }
          var rowDict := Empty<Cell>();
          rowDict := rowDict.Set("graph", Text(g));
          rowDict := rowDict.Set("partitioner", Text(p));
          rowDict := rowDict.Update(Cells(metrics.value));
          rowDict := rowDict.Set("order_running_time", Number(seconds.value));
          rowDict := rowDict.Set("median_customization_time", Number(m.customizationTime));
          rowDict := rowDict.Set("avg_query_time", Number(m.queryTime));
          assert Step(results, g, p, orders, times, measure) == Ok(Append(results, rowDict));
          results := Append(results, rowDict);
        }
        j := j + 1;
      }
      assert gs[i..][1..] == gs[i + 1..];
      i := i + 1;
    }
    return Finish(results, gs, ps);
  }

  lemma RunPartitionersOk(t: Table, g: string, ps: seq<string>, orders: set<string>, times: seq<OrderTimeRecord>,
                          measure: Measure, t1: Table)
    requires ps != [] && Step(t, g, ps[0], orders, times, measure) == Ok(t1)
    ensures RunPartitioners(t, g, ps, orders, times, measure) == RunPartitioners(t1, g, ps[1..], orders, times, measure)
  {
  }

  lemma PrefixTrans(a: seq<Row>, b: seq<Row>, c: seq<Row>)
    requires |a| <= |b| && b[..|a|] == a && |b| <= |c| && c[..|b|] == b
    ensures |a| <= |c| && c[..|a|] == a
  {
    assert c[..|a|] == (c[..|b|])[..|a|];
  }

  /** Rows are only ever appended. */
  lemma {:induction false} RunPartitionersGrows(t: Table, g: string, ps: seq<string>, orders: set<string>,
                                                times: seq<OrderTimeRecord>, measure: Measure)
    requires RunPartitioners(t, g, ps, orders, times, measure).Ok?
    ensures var rows := RunPartitioners(t, g, ps, orders, times, measure).value.rows;
      |t.rows| <= |rows| && rows[..|t.rows|] == t.rows
    decreases |ps|
  {
    if ps != [] {
      var t1 := Step(t, g, ps[0], orders, times, measure).value;
      RunPartitionersOk(t, g, ps, orders, times, measure, t1);
      StepEffect(t, g, ps[0], orders, times, measure);
      RunPartitionersGrows(t1, g, ps[1..], orders, times, measure);
      PrefixTrans(t.rows, t1.rows, RunPartitioners(t1, g, ps[1..], orders, times, measure).value.rows);
    }
  }

  lemma {:induction false} RunGraphsGrows(t: Table, gs: seq<string>, ps: seq<string>, orders: set<string>,
                                          times: seq<OrderTimeRecord>, measure: Measure)
    requires RunGraphs(t, gs, ps, orders, times, measure).Ok?
    ensures var rows := RunGraphs(t, gs, ps, orders, times, measure).value.rows;
      |t.rows| <= |rows| && rows[..|t.rows|] == t.rows
    decreases |gs|
  {
    if gs != [] {
      var t1 := RunPartitioners(t, gs[0], ps, orders, times, measure).value;
      RunPartitionersGrows(t, gs[0], ps, orders, times, measure);
      RunGraphsGrows(t1, gs[1..], ps, orders, times, measure);
      var rows := RunGraphs(t1, gs[1..], ps, orders, times, measure).value.rows;
      assert rows[..|t.rows|] == (rows[..|t1.rows|])[..|t.rows|];
    }
  }

  lemma ContainedPrefix(a: seq<Row>, b: seq<Row>, key: seq<(string, Cell)>)
    requires |a| <= |b| && b[..|a|] == a && Contained(a, key)
    ensures Contained(b, key)
  {
    var i :| 0 <= i < |a| && Ledger.Matches(a[i], key);
    assert b[i] == a[i];
  }

  /** The examine report of a pair does not name a `graph` or `partitioner` metric. */
  predicate NoClash(measure: Measure, g: string, p: string)
  {
    Parse(measure(g, p).report, ChordalLog).Ok? ==>
      "graph" !in Parse(measure(g, p).report, ChordalLog).value.Keys()
      && "partitioner" !in Parse(measure(g, p).report, ChordalLog).value.Keys()
  }

  /** After the inner loop, every partitioner of the graph whose order exists is in the ledger. */
  lemma {:induction false} RunPartitionersCovers(t: Table, g: string, ps: seq<string>, orders: set<string>,
                                                 times: seq<OrderTimeRecord>, measure: Measure, j: nat)
    requires RunPartitioners(t, g, ps, orders, times, measure).Ok?
    requires j < |ps| && OrderScripts.OrderPath(g, ps[j]) in orders && NoClash(measure, g, ps[j])
    ensures Contained(RunPartitioners(t, g, ps, orders, times, measure).value.rows, Key(g, ps[j]))
    decreases |ps|
  {
    var t1 := Step(t, g, ps[0], orders, times, measure).value;
    if j == 0 {
      StepContains(t, g, ps[0], orders, times, measure);
      if ps[1..] != [] {
        RunPartitionersGrows(t1, g, ps[1..], orders, times, measure);
        ContainedPrefix(t1.rows, RunPartitioners(t1, g, ps[1..], orders, times, measure).value.rows, Key(g, ps[0]));
      }
    } else {
      RunPartitionersCovers(t1, g, ps[1..], orders, times, measure, j - 1);
    }
  }

  /**
   * When the loops finish without an error, every listed pair whose order file
   * exists is in the ledger: it was either there already or appended.
   */
  lemma {:induction false} RunGraphsCovers(t: Table, gs: seq<string>, ps: seq<string>, orders: set<string>,
                                           times: seq<OrderTimeRecord>, measure: Measure, i: nat, j: nat)
    requires RunGraphs(t, gs, ps, orders, times, measure).Ok?
    requires i < |gs| && j < |ps| && OrderScripts.OrderPath(gs[i], ps[j]) in orders && NoClash(measure, gs[i], ps[j])
    ensures Contained(RunGraphs(t, gs, ps, orders, times, measure).value.rows, Key(gs[i], ps[j]))
    decreases |gs|
  {
    var t1 := RunPartitioners(t, gs[0], ps, orders, times, measure).value;
    if i == 0 {
      RunPartitionersCovers(t, gs[0], ps, orders, times, measure, j);
      RunGraphsGrows(t1, gs[1..], ps, orders, times, measure);
      ContainedPrefix(t1.rows, RunGraphs(t1, gs[1..], ps, orders, times, measure).value.rows, Key(gs[0], ps[j]));
    } else {
      RunGraphsCovers(t1, gs[1..], ps, orders, times, measure, i - 1, j);
    }
  }

  // ---------------------------------------------------------------------
  // main, after the loops: column order, id columns, sort

  /** The position of the row's name in `names`; `None` for a missing cell or an unlisted name. */
  function IdOf(row: Row, column: string, names: seq<string>): Option<nat>
  {
    if column in row && row[column].Text? then IndexIn(names, row[column].s) else None
  }

  /** `results[idColumn] = results[column].map(position)`: fails if any row's name is unlisted. */
  function AddIds(rows: seq<Row>, column: string, names: seq<string>, idColumn: string): (r: Result<seq<Row>, LedgerError>)
    ensures r.Ok? <==> forall i :: 0 <= i < |rows| ==> IdOf(rows[i], column, names).Some?
    ensures r.Ok? ==> |r.value| == |rows| && forall i :: 0 <= i < |rows| ==>
      r.value[i] == rows[i][idColumn := Number(IdOf(rows[i], column, names).value as real)]
  {
    if rows == [] then Ok([])
    else
      match IdOf(rows[0], column, names)
      case None => Err(UnknownName(column))
      case Some(id) =>
        match AddIds(rows[1..], column, names, idColumn)
        case Err(e) =>
          assert !IdOf(rows[1..][0], column, names).Some? || exists i :: 1 <= i < |rows| && IdOf(rows[i], column, names).None? by {
            var i :| 0 <= i < |rows[1..]| && IdOf(rows[1..][i], column, names).None?;
            assert rows[i + 1] == rows[1..][i];
          }
          Err(e)
        case Ok(tl) =>
          assert forall i :: 1 <= i < |rows| ==> rows[i] == rows[1..][i - 1];
          Ok([rows[0][idColumn := Number(id as real)]] + tl)
  }

  function WithColumn(columns: seq<string>, c: string): (r: seq<string>)
    ensures c in r && |columns| <= |r| && r[..|columns|] == columns
  {
    if c in columns then columns else columns + [c]
  }

  const IdColumns: seq<string> := ["graph_id", "partitioner_id"]

  /** The post-processing of `main`; `drop` returns a copy that is discarded, so the id columns stay. */
  function Finish(t: Table, gs: seq<string>, ps: seq<string>): Result<Table, LedgerError>
  {
    if "graph" !in t.columns then Err(MissingColumn("graph"))
    else if "partitioner" !in t.columns then Err(MissingColumn("partitioner"))
    else
      var columns := ["graph", "partitioner"] + Remove(Remove(t.columns, "graph"), "partitioner");
      match AddIds(t.rows, "graph", gs, "graph_id")
      case Err(e) => Err(e)
      case Ok(rows1) =>
        match AddIds(rows1, "partitioner", ps, "partitioner_id")
        case Err(e) => Err(e)
        case Ok(rows2) =>
          Ok(Table(WithColumn(WithColumn(columns, "graph_id"), "partitioner_id"), Sort(rows2, IdColumns)))
  }

  /** Both names of the row are listed. */
  predicate Named(row: Row, gs: seq<string>, ps: seq<string>)
  {
    IdOf(row, "graph", gs).Some? && IdOf(row, "partitioner", ps).Some?
  }

  /** A row whose id cells are the positions of its graph and partitioner. */
  predicate HasIds(row: Row, gs: seq<string>, ps: seq<string>)
  {
    && Named(row, gs, ps)
    && "graph_id" in row && row["graph_id"] == Number(IdOf(row, "graph", gs).value as real)
    && "partitioner_id" in row && row["partitioner_id"] == Number(IdOf(row, "partitioner", ps).value as real)
  }

  function WithIds(row: Row, gs: seq<string>, ps: seq<string>): (r: Row)
    requires Named(row, gs, ps)
    ensures HasIds(r, gs, ps)
  {
    row["graph_id" := Number(IdOf(row, "graph", gs).value as real)]
       ["partitioner_id" := Number(IdOf(row, "partitioner", ps).value as real)]
  }

  /** The ledger's rows with their id cells set, before sorting. */
  function Identified(rows: seq<Row>, gs: seq<string>, ps: seq<string>): (r: seq<Row>)
    requires forall i :: 0 <= i < |rows| ==> Named(rows[i], gs, ps)
    ensures |r| == |rows| && forall i :: 0 <= i < |rows| ==> r[i] == WithIds(rows[i], gs, ps)
  {
    seq(|rows|, i requires 0 <= i < |rows| && Named(rows[i], gs, ps) => WithIds(rows[i], gs, ps))
  }

  /** The two `map` assignments set both id cells of every row. */
  lemma AddBothIds(rows: seq<Row>, gs: seq<string>, ps: seq<string>)
    requires forall i :: 0 <= i < |rows| ==> Named(rows[i], gs, ps)
    ensures AddIds(rows, "graph", gs, "graph_id").Ok?
    ensures AddIds(AddIds(rows, "graph", gs, "graph_id").value, "partitioner", ps, "partitioner_id")
            == Ok(Identified(rows, gs, ps))
  {
    var rows1 := AddIds(rows, "graph", gs, "graph_id").value;
    assert forall i :: 0 <= i < |rows| ==> IdOf(rows1[i], "partitioner", ps) == IdOf(rows[i], "partitioner", ps);
    var rows2 := AddIds(rows1, "partitioner", ps, "partitioner_id").value;
    assert rows2 == Identified(rows, gs, ps);
  }

  /** Finish fails exactly when a column is missing or some row names an unlisted graph or partitioner. */
  lemma FinishFails(t: Table, gs: seq<string>, ps: seq<string>)
    ensures Finish(t, gs, ps).Err? <==>
      "graph" !in t.columns || "partitioner" !in t.columns || exists i :: 0 <= i < |t.rows| && !Named(t.rows[i], gs, ps)
  {
    if "graph" in t.columns && "partitioner" in t.columns {
      if forall i :: 0 <= i < |t.rows| ==> Named(t.rows[i], gs, ps) {
        AddBothIds(t.rows, gs, ps);
      } else {
        var i :| 0 <= i < |t.rows| && !Named(t.rows[i], gs, ps);
        var rows1 := AddIds(t.rows, "graph", gs, "graph_id");
        if rows1.Ok? {
          assert IdOf(rows1.value[i], "partitioner", ps) == IdOf(t.rows[i], "partitioner", ps);
        }
      }
    }
  }

  /** The rows of a finished ledger: those of the ledger with their ids set, sorted by the ids. */
  lemma FinishRows(t: Table, gs: seq<string>, ps: seq<string>)
    requires Finish(t, gs, ps).Ok?
    ensures forall i :: 0 <= i < |t.rows| ==> Named(t.rows[i], gs, ps)
    ensures Finish(t, gs, ps).value.rows == Sort(Identified(t.rows, gs, ps), IdColumns)
  {
    FinishFails(t, gs, ps);
    AddBothIds(t.rows, gs, ps);
  }

  /**
   * Graph and partitioner lead the columns, no column is lost, the id columns are
   * present, and the rows are a permutation of the ledger's rows with their ids set.
   */
  lemma FinishShape(t: Table, gs: seq<string>, ps: seq<string>)
    requires Finish(t, gs, ps).Ok?
    ensures var r := Finish(t, gs, ps).value;
      && r.columns[..2] == ["graph", "partitioner"]
      && "graph_id" in r.columns && "partitioner_id" in r.columns
      && (forall c :: c in t.columns ==> c in r.columns)
      && multiset(r.rows) == multiset(Identified(t.rows, gs, ps))
  {
    FinishRows(t, gs, ps);
    var columns := ["graph", "partitioner"] + Remove(Remove(t.columns, "graph"), "partitioner");
    assert Finish(t, gs, ps).value.columns == WithColumn(WithColumn(columns, "graph_id"), "partitioner_id");
    FinishColumns(t.columns);
  }

  /** The column list of the post-processed ledger. */
  lemma FinishColumns(cs: seq<string>)
    ensures var columns := ["graph", "partitioner"] + Remove(Remove(cs, "graph"), "partitioner");
      var c2 := WithColumn(WithColumn(columns, "graph_id"), "partitioner_id");
      && c2[..2] == ["graph", "partitioner"]
      && "graph_id" in c2 && "partitioner_id" in c2
      && (forall c :: c in cs ==> c in c2)
  {
    var rest := Remove(Remove(cs, "graph"), "partitioner");
    var columns := ["graph", "partitioner"] + rest;
    var c1 := WithColumn(columns, "graph_id");
    var c2 := WithColumn(c1, "partitioner_id");
    assert c2[..2] == c1[..|c1|][..2] == columns[..2];
    forall c | c in cs ensures c in c2 {
      if c != "graph" && c != "partitioner" {
        assert c in Remove(cs, "graph");
        assert c in rest;
      }
      assert c in columns;
      assert c1[..|columns|] == columns;
      assert c in c1;
      assert c2[..|c1|] == c1;
    }
  }

  /**
   * The sorted ledger lists graphs in the order of `graphs` and, within a graph,
   * partitioners in the order of `partitioners`.
   */
  lemma FinishOrdered(t: Table, gs: seq<string>, ps: seq<string>, i: nat, j: nat)
    requires Finish(t, gs, ps).Ok?
    requires i < j < |Finish(t, gs, ps).value.rows|
    ensures var a, b := Finish(t, gs, ps).value.rows[i], Finish(t, gs, ps).value.rows[j];
      && Named(a, gs, ps) && Named(b, gs, ps)
      && IdOf(a, "graph", gs).value <= IdOf(b, "graph", gs).value
      && (IdOf(a, "graph", gs) == IdOf(b, "graph", gs) ==>
          IdOf(a, "partitioner", ps).value <= IdOf(b, "partitioner", ps).value)
  {
    FinishRows(t, gs, ps);
    var rows := Identified(t.rows, gs, ps);
    var r := Finish(t, gs, ps).value.rows;
    SortSorted(rows, IdColumns);
    var a, b := r[i], r[j];
    SortedHasIds(rows, r, i, gs, ps);
    SortedHasIds(rows, r, j, gs, ps);
    IdKeyOrder(a, b, gs, ps);
  }

  /** On rows with their ids set, the sort key order is the order of the positions. */
  lemma IdKeyOrder(a: Row, b: Row, gs: seq<string>, ps: seq<string>)
    requires HasIds(a, gs, ps) && HasIds(b, gs, ps)
    requires KeyLe(KeyOf(a, IdColumns), KeyOf(b, IdColumns))
    ensures IdOf(a, "graph", gs).value <= IdOf(b, "graph", gs).value
    ensures IdOf(a, "graph", gs) == IdOf(b, "graph", gs) ==>
      IdOf(a, "partitioner", ps).value <= IdOf(b, "partitioner", ps).value
  {
    var ka, kb := KeyOf(a, IdColumns), KeyOf(b, IdColumns);
    assert IdColumns[0] == "graph_id" && IdColumns[1] == "partitioner_id";
    assert ka[0] == Val(IdOf(a, "graph", gs).value as real) && kb[0] == Val(IdOf(b, "graph", gs).value as real);
    assert ka[1..][0] == Val(IdOf(a, "partitioner", ps).value as real);
    assert kb[1..][0] == Val(IdOf(b, "partitioner", ps).value as real);
  }

  lemma SortedHasIds(rows: seq<Row>, r: seq<Row>, k: nat, gs: seq<string>, ps: seq<string>)
    requires forall i :: 0 <= i < |rows| ==> HasIds(rows[i], gs, ps)
    requires multiset(r) == multiset(rows) && k < |r|
    ensures HasIds(r[k], gs, ps)
  {
    assert r[k] in multiset(rows);
  }

  /** Rows with the same graph and partitioner keep their relative order. */
  lemma FinishStable(t: Table, gs: seq<string>, ps: seq<string>, k: seq<KeyElem>)
    requires Finish(t, gs, ps).Ok?
    ensures forall i :: 0 <= i < |t.rows| ==> Named(t.rows[i], gs, ps)
    ensures WithKey(Finish(t, gs, ps).value.rows, IdColumns, k) == WithKey(Identified(t.rows, gs, ps), IdColumns, k)
  {
    FinishRows(t, gs, ps);
    SortStable(Identified(t.rows, gs, ps), IdColumns, k);
  }

  /** `pd.read_csv` of the freshly written "graph,partitioner" header. */
  const InitialLedger := Table(["graph", "partitioner"], [])
}
