/**
 * build_order_table.py: the body of the LaTeX table of order experiments.
 * Four columns are rescaled, float columns rounded to one decimal, graph and
 * partitioner names abbreviated; every row prints its eleven cells, the
 * smallest value of each column among the rows of the same graph in bold,
 * and a `\midrule` with a `\multirow` label opens each new graph.
 */
module OrderTable {
  import opened Wrappers
  import opened Text
  import opened Numbers
  import opened Latex

  /** A numeric pandas column: its dtype is either integer or float for all cells. */
  datatype Column = IntCol(ints: seq<int>) | FloatCol(reals: seq<real>)

  function Len(c: Column): nat
  {
    match c
    case IntCol(xs) => |xs|
    case FloatCol(xs) => |xs|
  }

  function At(c: Column, i: nat): real
    requires i < Len(c)
  {
    match c
    case IntCol(xs) => xs[i] as real
    case FloatCol(xs) => xs[i]
  }

  /** `str(value)`: decimal for integers; floats by the given rendering (Python's `repr`). */
  function Str(c: Column, i: nat, renderFloat: real -> string): string
    requires i < Len(c)
  {
    match c
    case IntCol(xs) => IntToString(xs[i])
    case FloatCol(xs) => renderFloat(xs[i])
  }

  /** `df[column].map(lambda x: x / d)`: true division always gives a float column. */
  function Divide(c: Column, d: real): (r: Column)
    requires d > 0.0
    ensures r.FloatCol? && Len(r) == Len(c) && forall i :: 0 <= i < Len(c) ==> At(r, i) == At(c, i) / d
  {
    FloatCol(seq(Len(c), i requires 0 <= i < Len(c) => At(c, i) / d))
  }

  /** `round(x, 1)` on a float column; an integer column is left as it is. */
  function RoundFloats(c: Column): (r: Column)
    ensures r.FloatCol? == c.FloatCol? && Len(r) == Len(c)
    ensures forall i :: 0 <= i < Len(c) ==> At(r, i) == if c.FloatCol? then Round(At(c, i), 1) else At(c, i)
  {
    match c
    case IntCol(_) => c
    case FloatCol(xs) => FloatCol(seq(|xs|, i requires 0 <= i < |xs| => Round(xs[i], 1)))
  }

  /**
   * The ten numeric columns after `partitioner`, in table order:
   * average_elimination_tree_depth, elimination_tree_height, average_arcs_in_search_space,
   * maximum_arcs_in_search_space, super_graph_upward_arc_count, number_of_triangles_in_super_graph,
   * upper_tree_width_bound, order_running_time, median_customization_time, avg_query_time.
   */
  const MetricCount := 10

  /** The divisor a metric column is rescaled by before rounding, 1 for none. */
  function Divisor(k: nat): real
  {
    if k == 4 || k == 5 then 100000.0 else if k == 2 || k == 3 then 1000.0 else 1.0
  }

  /** The columns of order_experiments.csv the table reads. */
  datatype RawTable = RawTable(graph: seq<string>, partitioner: seq<string>, metrics: seq<Column>)

  predicate Shaped(graphs: nat, partitioners: nat, metrics: seq<Column>)
  {
    graphs == partitioners && |metrics| == MetricCount && forall k :: 0 <= k < |metrics| ==> Len(metrics[k]) == graphs
  }

  /** The table after the column maps; a name without an abbreviation becomes NaN (`None`). */
  datatype Table = Table(graph: seq<Option<string>>, partitioner: seq<Option<string>>, metrics: seq<Column>)

  function GraphName(g: string): Option<string>
  {
    if g == "col" then Some("Col") else if g == "cal" then Some("Cal")
    else if g == "europe" then Some("Eur") else if g == "usa" then Some("USA") else None
  }

  function PartitionerName(p: string): Option<string>
  {
    match p
    case "flowcutter3" => Some("F3")
    case "flowcutter20" => Some("F20")
    case "flowcutter100" => Some("F100")
    case "inertial_flow" => Some("I")
    case "metis" => Some("M")
    case "inertialflowcutter" => Some("IFC")
    case "kahip_v0_71" => Some("K0.61")
    case "kahip_v1_00_cut" => Some("K1.00")
    case "kahip_v2_11" => Some("K2.11")
    case "inertialflowcutter4" => Some("IFC4")
    case "inertialflowcutter8" => Some("IFC8")
    case "inertialflowcutter12" => Some("IFC12")
    case "inertialflowcutter16" => Some("IFC16")
    case _ => None
  }

  /** The metric column `k` after rescaling and rounding. */
  function PrepareMetric(c: Column, k: nat): Column
  {
    if Divisor(k) == 1.0 then RoundFloats(c) else RoundFloats(Divide(c, Divisor(k)))
  }

  function Prepare(raw: RawTable): (t: Table)
    ensures |t.graph| == |raw.graph| && |t.partitioner| == |raw.partitioner| && |t.metrics| == |raw.metrics|
  {
    Table(seq(|raw.graph|, i requires 0 <= i < |raw.graph| => GraphName(raw.graph[i])),
          seq(|raw.partitioner|, i requires 0 <= i < |raw.partitioner| => PartitionerName(raw.partitioner[i])),
          seq(|raw.metrics|, k requires 0 <= k < |raw.metrics| => PrepareMetric(raw.metrics[k], k)))
  }

  /**
   * The rescaled columns hold value / divisor rounded to one decimal; the other
   * columns are rounded if float and untouched if integer.
   */
  lemma PrepareValues(raw: RawTable, k: nat, i: nat)
    requires Shaped(|raw.graph|, |raw.partitioner|, raw.metrics)
    requires k < MetricCount && i < |raw.graph|
    ensures Len(Prepare(raw).metrics[k]) == |raw.graph|
    ensures Divisor(k) != 1.0 ==> At(Prepare(raw).metrics[k], i) == Round(At(raw.metrics[k], i) / Divisor(k), 1)
    ensures Divisor(k) == 1.0 && raw.metrics[k].FloatCol? ==> At(Prepare(raw).metrics[k], i) == Round(At(raw.metrics[k], i), 1)
    ensures raw.metrics[k].IntCol? && Divisor(k) == 1.0 ==> Prepare(raw).metrics[k] == raw.metrics[k]
  {
  }

  datatype TableError = UnknownGraph(row: nat)

  /** The smallest of the values at the masked positions, `None` if no position is masked. */
  function MinWhere(c: Column, mask: seq<bool>, n: nat): (m: Option<real>)
    requires n <= Len(c) && n <= |mask|
    ensures m.None? <==> forall i :: 0 <= i < n ==> !mask[i]
    ensures m.Some? ==> (exists i :: 0 <= i < n && mask[i] && At(c, i) == m.value)
                        && forall i :: 0 <= i < n && mask[i] ==> m.value <= At(c, i)
  {
    if n == 0 then None
    else
      var rest := MinWhere(c, mask, n - 1);
      if !mask[n - 1] then rest
      else if rest.Some? && rest.value <= At(c, n - 1) then rest
      else Some(At(c, n - 1))
  }

  function SameGraph(t: Table, g: string): (mask: seq<bool>)
    ensures |mask| == |t.graph| && forall i :: 0 <= i < |t.graph| ==> mask[i] == (t.graph[i] == Some(g))
  {
    seq(|t.graph|, i requires 0 <= i < |t.graph| => t.graph[i] == Some(g))
  }

  /** `len(gdf.index)`: the rows of the whole table with this graph. */
  function CountGraph(t: Table, g: string, n: nat): (c: nat)
    requires n <= |t.graph|
    ensures c <= n
  {
    if n == 0 then 0 else CountGraph(t, g, n - 1) + (if t.graph[n - 1] == Some(g) then 1 else 0)
  }

  /** `is_number(str(value))`, then the digit grouping. */
  function Formatted(s: string): string
  {
    if IsNumber(s) then GroupDigits(s) else s
  }

  /** The cell of metric column `k` in a row of graph `g`: bold iff it is the group's minimum. */
  function MetricCell(t: Table, k: nat, row: nat, g: string, renderFloat: real -> string): string
    requires Shaped(|t.graph|, |t.partitioner|, t.metrics) && k < MetricCount && row < |t.graph|
    requires t.graph[row] == Some(g)
  {
    var c := t.metrics[k];
    var f := Formatted(Str(c, row, renderFloat));
    var m := MinWhere(c, SameGraph(t, g), |t.graph|);
    assert m.Some? by { assert SameGraph(t, g)[row]; }
    if At(c, row) == m.value then Bold(f) else f
  }

  /** `str` of a partitioner cell: its abbreviation, or "nan"; never bold. */
  function PartitionerCell(t: Table, row: nat): string
    requires row < |t.partitioner|
  {
    Formatted(if t.partitioner[row].Some? then t.partitioner[row].value else "nan")
  }

  function MetricCells(t: Table, row: nat, g: string, renderFloat: real -> string, k: nat): string
    requires Shaped(|t.graph|, |t.partitioner|, t.metrics) && k <= MetricCount && row < |t.graph|
    requires t.graph[row] == Some(g)
  {
    if k == 0 then "" else MetricCells(t, row, g, renderFloat, k - 1) + " & " + MetricCell(t, k - 1, row, g, renderFloat)
  }

  /** Whether the row opens a new graph: its graph differs from the previous row's ("nonsense" before the first). */
  function OpensGraph(t: Table, row: nat): bool
    requires row < |t.graph| && t.graph[row].Some?
  {
    if row == 0 then t.graph[0].value != "nonsense" else t.graph[row] != t.graph[row - 1]
  }

  function GroupHeader(t: Table, g: string): string
  {
    @"\midrule" + "\n" + @"\multirow{" + IntToString(CountGraph(t, g, |t.graph|)) + @"}{*}{\begin{sideways}" + g + @" \end{sideways}}"
  }

  /** One row: the group header if it opens a graph, then " & " and a cell per column, then `\\`. */
  function RowText(t: Table, row: nat, renderFloat: real -> string): string
    requires Shaped(|t.graph|, |t.partitioner|, t.metrics) && row < |t.graph| && t.graph[row].Some?
  {
    var g := t.graph[row].value;
    (if OpensGraph(t, row) then GroupHeader(t, g) else "")
    + " & " + PartitionerCell(t, row) + MetricCells(t, row, g, renderFloat, |t.metrics|)
    + "\n" + @"\\" + "\n"
  }

  /** The text of row `row`, where the table is shaped and the row has a graph. */
  function RowTextOf(t: Table, renderFloat: real -> string): nat -> string
  {
    (row: nat) => if Shaped(|t.graph|, |t.partitioner|, t.metrics) && row < |t.graph| && t.graph[row].Some?
           then RowText(t, row, renderFloat) else ""
  }

  /**
   * The text of the first `n` rows, each given by `text`, or the first row
   * whose graph has no abbreviation.
   */
  function RowsWith(graph: seq<Option<string>>, n: nat, text: nat -> string): (r: Result<string, TableError>)
    requires n <= |graph|
    ensures r.Ok? <==> forall i :: 0 <= i < n ==> graph[i].Some?
  {
    if n == 0 then Ok("")
    else
      match RowsWith(graph, n - 1, text)
      case Err(e) => Err(e)
      case Ok(s) => if graph[n - 1].None? then Err(UnknownGraph(n - 1)) else Ok(s + text(n - 1))
  }

  /** The rows of the table, the rendered body without its opening `\\ `. */
  function Rows(t: Table, n: nat, renderFloat: real -> string): Result<string, TableError>
    requires n <= |t.graph|
  {
    RowsWith(t.graph, n, RowTextOf(t, renderFloat))
  }

  /** The row loop, writing after the opening `\\ `. */
  method RenderBody(t: Table, renderFloat: real -> string) returns (r: Result<string, TableError>)
    requires Shaped(|t.graph|, |t.partitioner|, t.metrics)
    ensures r == (match Rows(t, |t.graph|, renderFloat) case Err(e) => Err(e) case Ok(s) => Ok(@"\\ " + s))
  {
    var body := "";
    var graph := "nonsense";
    var row := 0;
    while row < |t.graph|
      invariant 0 <= row <= |t.graph|
      invariant Rows(t, row, renderFloat) == Ok(body)
      invariant row > 0 ==> t.graph[row - 1] == Some(graph)
      invariant row == 0 ==> graph == "nonsense"
    {
      if t.graph[row].None? {
        TableRowsFail(t, row, renderFloat, body);
        return Err(UnknownGraph(row));
      }
      var newGraph := false;
      if t.graph[row].value != graph {
        graph := t.graph[row].value;
        newGraph := true;
      }
      var text := RenderRow(t, row, graph, newGraph, renderFloat);
      TableRowsOk(t, row, renderFloat, body);
      body := body + text;
      row := row + 1;
    }
    return Ok(@"\\ " + body);
  }

  lemma TableRowsOk(t: Table, row: nat, renderFloat: real -> string, body: string)
    requires Shaped(|t.graph|, |t.partitioner|, t.metrics) && row < |t.graph| && t.graph[row].Some?
    requires Rows(t, row, renderFloat) == Ok(body)
    ensures Rows(t, row + 1, renderFloat) == Ok(body + RowText(t, row, renderFloat))
  {
    var text := RowTextOf(t, renderFloat);
    assert text(row) == RowText(t, row, renderFloat);
    RowsOk(t.graph, row, text, body);
  }

  lemma TableRowsFail(t: Table, row: nat, renderFloat: real -> string, body: string)
    requires row < |t.graph| && t.graph[row].None?
    requires Rows(t, row, renderFloat) == Ok(body)
    ensures Rows(t, |t.graph|, renderFloat) == Err(UnknownGraph(row))
  {
    var text := RowTextOf(t, renderFloat);
    RowsFail(t.graph, row, text, body);
    RowsErrPersists(t.graph, row + 1, |t.graph|, text);
  }

  lemma RowsOk(graph: seq<Option<string>>, row: nat, text: nat -> string, body: string)
    requires row < |graph| && graph[row].Some?
    requires RowsWith(graph, row, text) == Ok(body)
    ensures RowsWith(graph, row + 1, text) == Ok(body + text(row))
  {
  }

  lemma RowsFail(graph: seq<Option<string>>, row: nat, text: nat -> string, body: string)
    requires row < |graph| && graph[row].None?
    requires RowsWith(graph, row, text) == Ok(body)
    ensures RowsWith(graph, row + 1, text) == Err(UnknownGraph(row))
  {
  }

  /** Once a row fails, the error is the result of every longer prefix. */
  lemma {:induction false} RowsErrPersists(graph: seq<Option<string>>, n: nat, m: nat, text: nat -> string)
    requires n <= m <= |graph|
    requires RowsWith(graph, n, text).Err?
    ensures RowsWith(graph, m, text) == RowsWith(graph, n, text)
    decreases m - n
  {
    if n < m {
      RowsErrPersists(graph, n, m - 1, text);
    }
  }

  /** One iteration of the row loop, given whether the row opens a graph. */
  method RenderRow(t: Table, row: nat, graph: string, newGraph: bool, renderFloat: real -> string) returns (out: string)
    requires Shaped(|t.graph|, |t.partitioner|, t.metrics) && row < |t.graph| && t.graph[row] == Some(graph)
    requires newGraph == OpensGraph(t, row)
    ensures out == RowText(t, row, renderFloat)
  {
    var header := "";
    if newGraph {
      header := @"\midrule" + "\n" + @"\multirow{" + IntToString(CountGraph(t, graph, |t.graph|)) + @"}{*}{\begin{sideways}" + graph + @" \end{sideways}}";
    }
    var cells := "";
    var k := 0;
    while k < |t.metrics|
      invariant 0 <= k <= |t.metrics|
      invariant cells == MetricCells(t, row, graph, renderFloat, k)
    {
      cells := cells + " & " + MetricCell(t, k, row, graph, renderFloat);
      k := k + 1;
    }
    out := header + " & " + PartitionerCell(t, row) + cells + "\n" + @"\\" + "\n";
  }

  /** A metric cell is bold exactly when no row of its graph has a smaller value. */
  lemma BoldIffGroupMinimum(t: Table, k: nat, row: nat, renderFloat: real -> string)
    requires Shaped(|t.graph|, |t.partitioner|, t.metrics) && k < MetricCount && row < |t.graph| && t.graph[row].Some?
    ensures var g := t.graph[row].value;
      MetricCell(t, k, row, g, renderFloat) == Bold(Formatted(Str(t.metrics[k], row, renderFloat)))
      <==> forall j :: 0 <= j < |t.graph| && t.graph[j] == t.graph[row] ==> At(t.metrics[k], row) <= At(t.metrics[k], j)
  {
    var g := t.graph[row].value;
    var c := t.metrics[k];
    var f := Formatted(Str(c, row, renderFloat));
    var mask := SameGraph(t, g);
    var m := MinWhere(c, mask, |t.graph|);
    assert mask[row];
    if At(c, row) != m.value {
      assert |Bold(f)| != |f|;
      var j :| 0 <= j < |t.graph| && mask[j] && At(c, j) == m.value;
      assert At(c, row) > At(c, j);
    }
  }

  /** Every graph group has a bold cell in every metric column: its minimum is attained. */
  lemma GroupHasBold(t: Table, k: nat, row: nat, renderFloat: real -> string)
    requires Shaped(|t.graph|, |t.partitioner|, t.metrics) && k < MetricCount && row < |t.graph| && t.graph[row].Some?
    ensures exists j ::
      0 <= j < |t.graph| && t.graph[j] == t.graph[row]
      && MetricCell(t, k, j, t.graph[row].value, renderFloat) == Bold(Formatted(Str(t.metrics[k], j, renderFloat)))
  {
    var g := t.graph[row].value;
    var mask := SameGraph(t, g);
    assert mask[row];
    var m := MinWhere(t.metrics[k], mask, |t.graph|);
    var j :| 0 <= j < |t.graph| && mask[j] && At(t.metrics[k], j) == m.value;
    assert MetricCell(t, k, j, g, renderFloat) == Bold(Formatted(Str(t.metrics[k], j, renderFloat)));
  }

  /** The `\multirow` of a group spans at least the row that opens it. */
  lemma {:induction false} CountGraphPositive(t: Table, g: string, row: nat, n: nat)
    requires row < n <= |t.graph| && t.graph[row] == Some(g)
    ensures CountGraph(t, g, n) >= 1
  {
    if row < n - 1 {
      CountGraphPositive(t, g, row, n - 1);
    }
  }
}
