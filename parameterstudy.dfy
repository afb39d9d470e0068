/**
 * parameterstudy.py: compute an InertialFlowCutter order for every
 * configuration of the study that the ledger does not contain yet, read its
 * log, time customization and queries, append the row, and finally sort the
 * ledger by the configuration columns.
 */
module ParameterStudy {
  import opened Wrappers
  import opened Text
  import opened PyDict
  import opened MetricsLog
  import opened Ledger

  const Graph := "col"

  /** The header of a freshly synthesised ledger. */
  const ConfigColumns: seq<string> := ["geo_distance_cutters", "hop_distance_cutters", "initial_assimilated_fraction",
                                       "bulk_step_fraction", "bulk_assimilation_order_threshold", "bulk_assimilation_threshold"]

  const InitialLedger := Table(ConfigColumns, [])

  /** One row of the configurations file: its fields in column order. */
  type Config = seq<(string, Value)>

  /** `str` of a field: an integer in decimal, a float by the given rendering (Python's `repr`). */
  function FieldString(v: Value, renderFloat: real -> string): string
  {
    match v
    case IntV(i) => IntToString(i)
    case FloatV(x) => renderFloat(x)
  }

  function FieldStrings(config: Config, renderFloat: real -> string): (r: seq<string>)
    ensures |r| == |config| && forall i :: 0 <= i < |config| ==> r[i] == FieldString(config[i].1, renderFloat)
  {
    seq(|config|, i requires 0 <= i < |config| => FieldString(config[i].1, renderFloat))
  }

  /** `config_to_string`: the fields joined by '.'. */
  function ConfigToString(config: Config, renderFloat: real -> string): string
  {
    Join(FieldStrings(config, renderFloat), '.')
  }

  function OrderPath(config: Config, renderFloat: real -> string): string
  {
    "parameterstudy/" + Graph + "." + ConfigToString(config, renderFloat) + ".order"
  }

  function LogPath(config: Config, renderFloat: real -> string): string
  {
    OrderPath(config, renderFloat) + ".log"
  }

  /** The order and log paths of a configuration, stated against the joined field strings. */
  lemma PathsShape(config: Config, renderFloat: real -> string)
    ensures var fields := FieldStrings(config, renderFloat);
      && OrderPath(config, renderFloat) == "parameterstudy/col." + Join(fields, '.') + ".order"
      && LogPath(config, renderFloat) == OrderPath(config, renderFloat) + ".log"
      && (|config| == 1 ==> OrderPath(config, renderFloat) == "parameterstudy/col." + fields[0] + ".order")
      && (|config| >= 2 ==>
            ConfigToString(config, renderFloat) == fields[0] + "." + ConfigToString(config[1..], renderFloat))
  {
    var fields := FieldStrings(config, renderFloat);
    if |config| >= 2 {
      assert FieldStrings(config[1..], renderFloat) == fields[1..];
    }
  }

  /** Joining with '.' and splitting at '.' give back fields that contain no '.'. */
  lemma ConfigToStringSplits(config: Config, renderFloat: real -> string)
    requires |config| >= 1
    requires forall i :: 0 <= i < |config| ==> '.' !in FieldString(config[i].1, renderFloat)
    ensures Split(ConfigToString(config, renderFloat), '.') == FieldStrings(config, renderFloat)
  {
    SplitJoin(FieldStrings(config, renderFloat), '.');
  }

  /** The log of the order computation: every line is a metric, `running_time` renamed and rescaled. */
  const StudyLog := Variant(false, RenameAndRescaleTime)

  datatype StudyError =
    | LogFailed(e: LogError)   // `assert(m)` on a line of the log
    | NoCommonColumns          // `merge` with no shared column
    | MissingSortColumn(column: string)   // `sort_values` by a column the ledger lacks: `KeyError`

  /** What the external tools yield for a configuration: the log's lines and two timings. */
  datatype Measurement = Measurement(log: seq<string>, customizationTime: real, queryTime: real)

  type Measure = Config -> Measurement

  function ConfigCells(config: Config): (r: seq<(string, Cell)>)
    ensures |r| == |config| && forall i :: 0 <= i < |config| ==> r[i] == (config[i].0, Number(AsReal(config[i].1)))
  {
    seq(|config|, i requires 0 <= i < |config| => (config[i].0, Number(AsReal(config[i].1))))
  }

  /** The config's fields that are also ledger columns: what `merge` joins on. */
  function CommonKey(key: seq<(string, Cell)>, columns: seq<string>): (r: seq<(string, Cell)>)
    ensures forall x :: x in r <==> x in key && x.0 in columns
    ensures (forall i :: 0 <= i < |key| ==> key[i].0 in columns) ==> r == key
  {
    if key == [] then []
    else (if key[0].0 in columns then [key[0]] else []) + CommonKey(key[1..], columns)
  }

  /** `config_contained`: an inner join of the config with the ledger has a row. */
  function ConfigContained(config: Config, t: Table): Result<bool, StudyError>
  {
    var common := CommonKey(ConfigCells(config), t.columns);
    if common == [] then Err(NoCommonColumns) else Ok(Contained(t.rows, common))
  }

  /** When every field is a ledger column, containment means a row agrees on every field. */
  lemma ConfigContainedIff(config: Config, t: Table)
    requires forall i :: 0 <= i < |config| ==> config[i].0 in t.columns
    requires |config| > 0
    ensures ConfigContained(config, t).Ok?
    ensures ConfigContained(config, t).value <==>
      exists r :: 0 <= r < |t.rows| && forall i :: 0 <= i < |config| ==>
        config[i].0 in t.rows[r] && t.rows[r][config[i].0] == Number(AsReal(config[i].1))
  {
    var key := ConfigCells(config);
    assert CommonKey(key, t.columns) == key;
    if ConfigContained(config, t).value {
      var r :| 0 <= r < |t.rows| && Ledger.Matches(t.rows[r], key);
      assert forall i :: 0 <= i < |config| ==> config[i].0 in t.rows[r] && t.rows[r][config[i].0] == Number(AsReal(config[i].1));
    } else {
      forall r | 0 <= r < |t.rows|
        ensures !forall i :: 0 <= i < |config| ==> config[i].0 in t.rows[r] && t.rows[r][config[i].0] == Number(AsReal(config[i].1))
      {
        assert !Ledger.Matches(t.rows[r], key);
      }
    }
  }

  /** `row_dict`: the config's fields, then the log's metrics, then the two timings. */
  function NewRow(config: Config, metrics: Dict<Value>, m: Measurement): Dict<Cell>
  {
    Dict(ConfigCells(config)).Update(Cells(metrics))
      .Set("median_customization_time", Number(m.customizationTime))
      .Set("avg_query_time", Number(m.queryTime))
  }

  /** One iteration of the loop: skip a contained config, else compute and append its row. */
  function Step(t: Table, config: Config, measure: Measure): Result<Table, StudyError>
  {
    match ConfigContained(config, t)
    case Err(e) => Err(e)
    case Ok(true) => Ok(t)
    case Ok(false) =>
      match Parse(measure(config).log, StudyLog)
      case Err(e) => Err(LogFailed(e))
      case Ok(metrics) => Ok(Append(t, NewRow(config, metrics, measure(config))))
  }

  function RunConfigs(t: Table, configs: seq<Config>, measure: Measure): Result<Table, StudyError>
    decreases |configs|
  {
    if configs == [] then Ok(t)
    else
      match Step(t, configs[0], measure)
      case Err(e) => Err(e)
      case Ok(t1) => RunConfigs(t1, configs[1..], measure)
  }

  lemma RunConfigsOk(t: Table, configs: seq<Config>, measure: Measure, t1: Table)
    requires configs != [] && Step(t, configs[0], measure) == Ok(t1)
    ensures RunConfigs(t, configs, measure) == RunConfigs(t1, configs[1..], measure)
  {
  }

  lemma RunConfigsErr(t: Table, configs: seq<Config>, measure: Measure, e: StudyError)
    requires configs != [] && Step(t, configs[0], measure) == Err(e)
    ensures RunConfigs(t, configs, measure) == Err(e)
  {
  }

  /** The first of `cols` that is not a column of the ledger, the one `sort_values` raises `KeyError` for. */
  function MissingColumn(cols: seq<string>, columns: seq<string>): (m: Option<string>)
    ensures m.None? <==> forall i :: 0 <= i < |cols| ==> cols[i] in columns
    ensures m.Some? ==> m.value in cols && m.value !in columns
  {
    if cols == [] then None
    else if cols[0] !in columns then Some(cols[0])
    else MissingColumn(cols[1..], columns)
  }

  /**
   * `main`: the ledger on disk (or the header-only one), the loop, then the
   * sort by the config columns, which fails when one of them is not a column
   * of the ledger.
   */
  function Study(existing: Option<Table>, configColumns: seq<string>, configs: seq<Config>, measure: Measure)
    : Result<Table, StudyError>
  {
    var initial := if existing.Some? then existing.value else InitialLedger;
    match RunConfigs(initial, configs, measure)
    case Err(e) => Err(e)
    case Ok(t) =>
      var missing := MissingColumn(configColumns, t.columns);
      if missing.Some? then Err(MissingSortColumn(missing.value))
      else Ok(Table(t.columns, Sort(t.rows, configColumns)))
  }

  /**
   * The study fails exactly when the loop fails, with the loop's error, or
   * when a config column is not a column of the resulting ledger.
   */
  lemma StudyFails(existing: Option<Table>, configColumns: seq<string>, configs: seq<Config>, measure: Measure)
    ensures var initial := if existing.Some? then existing.value else InitialLedger;
      var loop := RunConfigs(initial, configs, measure);
      && (loop.Err? ==> Study(existing, configColumns, configs, measure) == Err(loop.error))
      && (loop.Ok? ==> (Study(existing, configColumns, configs, measure).Err? <==> exists c :: c in configColumns && c !in loop.value.columns))
      && (Study(existing, configColumns, configs, measure).Err? && loop.Ok? ==>
            Study(existing, configColumns, configs, measure).error.MissingSortColumn?)
  {
    var initial := if existing.Some? then existing.value else InitialLedger;
    var loop := RunConfigs(initial, configs, measure);
    if loop.Ok? && exists c :: c in configColumns && c !in loop.value.columns {
      var c :| c in configColumns && c !in loop.value.columns;
      var i :| 0 <= i < |configColumns| && configColumns[i] == c;
    }
  }

  method RunParameterStudy(existing: Option<Table>, configColumns: seq<string>, configs: seq<Config>, measure: Measure)
    returns (r: Result<Table, StudyError>)
    ensures r == Study(existing, configColumns, configs, measure)
  {
    var initial := if existing.Some? then existing.value else InitialLedger;
    var results := RunAll(initial, configs, measure);
    if results.Err? {
      return Err(results.error);
    }
    var missing := MissingColumn(configColumns, results.value.columns);
    if missing.Some? {
      return Err(MissingSortColumn(missing.value));
    }
    return Ok(Table(results.value.columns, Sort(results.value.rows, configColumns)));
  }

  /** The loop of `main` over the configurations, stopping at the first failure. */
  method RunAll(initial: Table, configs: seq<Config>, measure: Measure) returns (r: Result<Table, StudyError>)
    ensures r == RunConfigs(initial, configs, measure)
  {
    var results := initial;
    ghost var goal := RunConfigs(initial, configs, measure);
    assert configs[0..] == configs;
    var i := 0;
    while i < |configs|
      invariant 0 <= i <= |configs|
      invariant RunConfigs(results, configs[i..], measure) == goal
    {
      assert configs[i..][1..] == configs[i + 1..];
      var step := StudyStep(results, configs[i], measure);
      if step.Err? {
        RunConfigsErr(results, configs[i..], measure, step.error);
        return Err(step.error);
      }
      RunConfigsOk(results, configs[i..], measure, step.value);
      results := step.value;
      i := i + 1;
    }
    assert configs[i..] == [];
    return Ok(results);
  }

  /** The body of the loop of `main` for one configuration. */
  method StudyStep(results: Table, config: Config, measure: Measure) returns (r: Result<Table, StudyError>)
    ensures r == Step(results, config, measure)
  {
    var contained := ConfigContained(config, results);
    if contained.Err? {
      return Err(contained.error);
    }
    if contained.value {
      return Ok(results);
    }
    var m := measure(config);
    var metrics := ParseLog(m.log, StudyLog);
    if metrics.Err? {
      return Err(LogFailed(metrics.error));
    }
    var rowDict := Dict(ConfigCells(config));
    rowDict := rowDict.Update(Cells(metrics.value));
    rowDict := rowDict.Set("median_customization_time", Number(m.customizationTime));
    rowDict := rowDict.Set("avg_query_time", Number(m.queryTime));
    return Ok(Append(results, rowDict));
  }

  /** A step appends exactly when the config is not contained; the header only grows. */
  lemma StepEffect(t: Table, config: Config, measure: Measure)
    requires Step(t, config, measure).Ok?
    ensures var t' := Step(t, config, measure).value;
      && (t' == t <==> ConfigContained(config, t) == Ok(true))
      && (t' != t ==> |t'.rows| == |t.rows| + 1 && t'.rows[..|t.rows|] == t.rows)
      && |t.columns| <= |t'.columns| && t'.columns[..|t.columns|] == t.columns
  {
    if ConfigContained(config, t) == Ok(false) {
      assert |Step(t, config, measure).value.rows| == |t.rows| + 1;
    }
  }

  /** The configuration's field names are distinct and none is a metric name of its log or a timing column. */
  predicate NoClash(config: Config, measure: Measure)
  {
    && (forall i, j :: 0 <= i < j < |config| ==> config[i].0 != config[j].0)
    && (forall i :: 0 <= i < |config| ==> config[i].0 != "median_customization_time" && config[i].0 != "avg_query_time")
    && (Parse(measure(config).log, StudyLog).Ok? ==>
         forall i :: 0 <= i < |config| ==> config[i].0 !in Parse(measure(config).log, StudyLog).value.Keys())
  }

  /** The new row holds every field of its configuration. */
  lemma NewRowMatches(config: Config, metrics: Dict<Value>, m: Measurement)
    requires forall i, j :: 0 <= i < j < |config| ==> config[i].0 != config[j].0
    requires forall i :: 0 <= i < |config| ==> config[i].0 != "median_customization_time" && config[i].0 != "avg_query_time"
    requires metrics.Valid() && forall i :: 0 <= i < |config| ==> config[i].0 !in metrics.Keys()
    ensures NewRow(config, metrics, m).Valid()
    ensures forall i :: 0 <= i < |config| ==> NewRow(config, metrics, m).Get(config[i].0) == Some(Number(AsReal(config[i].1)))
  {
    var d0 := Dict(ConfigCells(config));
    var d1 := d0.Update(Cells(metrics));
    var d2 := d1.Set("median_customization_time", Number(m.customizationTime));
    assert Cells(metrics).Valid();
    UpdateValid(d0, Cells(metrics));
    SetValid(d1, "median_customization_time", Number(m.customizationTime));
    SetValid(d2, "avg_query_time", Number(m.queryTime));
    forall i | 0 <= i < |config| ensures NewRow(config, metrics, m).Get(config[i].0) == Some(Number(AsReal(config[i].1))) {
      var k := config[i].0;
      GetUpdate(d0, Cells(metrics), k);
      FirstGet(d0, i);
      GetSet(d1, "median_customization_time", Number(m.customizationTime), k);
      GetSet(d2, "avg_query_time", Number(m.queryTime), k);
    }
  }

  /** In a dictionary with distinct keys, each entry's key gives its value. */
  lemma {:induction false} FirstGet<V>(d: Dict<V>, i: nat)
    requires i < |d.items| && d.Valid()
    ensures d.Get(d.items[i].0) == Some(d.items[i].1)
    decreases i
  {
    if i > 0 {
      var tl := Dict(d.items[1..]);
      assert tl.Valid() by {
        forall a, b | 0 <= a < b < |tl.items| ensures tl.items[a].0 != tl.items[b].0 {
          assert tl.items[a] == d.items[a + 1] && tl.items[b] == d.items[b + 1];
        }
      }
      FirstGet(tl, i - 1);
      assert d.items[0].0 != d.items[i].0;
    }
  }

  /** Every config field already a ledger column stays one, so the join key stays the whole config. */
  predicate Keyed(config: Config, t: Table)
  {
    |config| > 0 && forall i :: 0 <= i < |config| ==> config[i].0 in t.columns
  }

  lemma KeyedGrows(config: Config, t: Table, t': Table)
    requires Keyed(config, t)
    requires |t.columns| <= |t'.columns| && t'.columns[..|t.columns|] == t.columns
    ensures Keyed(config, t')
  {
    forall i | 0 <= i < |config| ensures config[i].0 in t'.columns {
      var k :| 0 <= k < |t.columns| && t.columns[k] == config[i].0;
      assert t'.columns[k] == t.columns[k];
    }
  }

  /** After a step on a keyed config without clashes, the config is contained. */
  lemma StepContains(t: Table, config: Config, measure: Measure)
    requires Step(t, config, measure).Ok?
    requires Keyed(config, t) && NoClash(config, measure)
    ensures ConfigContained(config, Step(t, config, measure).value) == Ok(true)
  {
    var key := ConfigCells(config);
    assert CommonKey(key, t.columns) == key;
    if ConfigContained(config, t) == Ok(false) {
      StepAppendContains(t, config, measure);
    }
  }

  /** The appended row of a config not yet contained carries the config's key. */
  lemma StepAppendContains(t: Table, config: Config, measure: Measure)
    requires Step(t, config, measure).Ok? && ConfigContained(config, t) == Ok(false)
    requires Keyed(config, t) && NoClash(config, measure)
    ensures ConfigContained(config, Step(t, config, measure).value) == Ok(true)
  {
    var metrics := Parse(measure(config).log, StudyLog).value;
    ParseValid(measure(config).log, StudyLog);
    var row := NewRow(config, metrics, measure(config));
    NewRowMatches(config, metrics, measure(config));
    assert Step(t, config, measure) == Ok(Append(t, row));
    AppendKeyed(t, config, row);
  }

  lemma AppendKeyed(t: Table, config: Config, row: Dict<Cell>)
    requires Keyed(config, t) && row.Valid()
    requires forall i :: 0 <= i < |config| ==> row.Get(config[i].0) == Some(Number(AsReal(config[i].1)))
    ensures ConfigContained(config, Append(t, row)) == Ok(true)
  {
    var key := ConfigCells(config);
    AppendContains(t, row, key);
    KeyedGrows(config, t, Append(t, row));
    assert CommonKey(key, Append(t, row).columns) == key;
  }

  lemma ContainedPrefix(a: seq<Row>, b: seq<Row>, key: seq<(string, Cell)>)
    requires |a| <= |b| && b[..|a|] == a && Contained(a, key)
    ensures Contained(b, key)
  {
    var i :| 0 <= i < |a| && Ledger.Matches(a[i], key);
    assert b[i] == a[i];
  }

  /** The loop only appends rows and columns. */
  lemma {:induction false} RunGrows(t: Table, configs: seq<Config>, measure: Measure)
    requires RunConfigs(t, configs, measure).Ok?
    ensures var t' := RunConfigs(t, configs, measure).value;
      && |t.rows| <= |t'.rows| && t'.rows[..|t.rows|] == t.rows
      && |t.columns| <= |t'.columns| && t'.columns[..|t.columns|] == t.columns
    decreases |configs|
  {
    if configs != [] {
      var t1 := Step(t, configs[0], measure).value;
      StepEffect(t, configs[0], measure);
      RunGrows(t1, configs[1..], measure);
      var t' := RunConfigs(t1, configs[1..], measure).value;
      assert t'.rows[..|t.rows|] == (t'.rows[..|t1.rows|])[..|t.rows|];
      assert t'.columns[..|t.columns|] == (t'.columns[..|t1.columns|])[..|t.columns|];
    }
  }

  /**
   * When the loop finishes without an error, every keyed configuration without
   * clashes is contained in the ledger: it was there already or it was appended.
   */
  lemma {:induction false} RunCovers(t: Table, configs: seq<Config>, measure: Measure, j: nat)
    requires RunConfigs(t, configs, measure).Ok?
    requires j < |configs| && Keyed(configs[j], t) && NoClash(configs[j], measure)
    ensures ConfigContained(configs[j], RunConfigs(t, configs, measure).value) == Ok(true)
    decreases |configs|
  {
    if j == 0 {
      RunCoversFirst(t, configs, measure);
    } else {
      var t1 := Step(t, configs[0], measure).value;
      RunConfigsOk(t, configs, measure, t1);
      StepEffect(t, configs[0], measure);
      KeyedGrows(configs[j], t, t1);
      assert configs[1..][j - 1] == configs[j];
      RunCovers(t1, configs[1..], measure, j - 1);
    }
  }

  /** The first configuration is contained after its step and stays contained. */
  lemma RunCoversFirst(t: Table, configs: seq<Config>, measure: Measure)
    requires RunConfigs(t, configs, measure).Ok?
    requires 0 < |configs| && Keyed(configs[0], t) && NoClash(configs[0], measure)
    ensures ConfigContained(configs[0], RunConfigs(t, configs, measure).value) == Ok(true)
  {
    var t1 := Step(t, configs[0], measure).value;
    RunConfigsOk(t, configs, measure, t1);
    StepContains(t, configs[0], measure);
    RunGrows(t1, configs[1..], measure);
    StaysContained(configs[0], t1, RunConfigs(t1, configs[1..], measure).value);
  }

  /** A contained keyed config stays contained in a ledger that only appends rows and columns. */
  lemma StaysContained(config: Config, t: Table, t': Table)
    requires Keyed(config, t) && ConfigContained(config, t) == Ok(true)
    requires |t.rows| <= |t'.rows| && t'.rows[..|t.rows|] == t.rows
    requires |t.columns| <= |t'.columns| && t'.columns[..|t.columns|] == t.columns
    ensures ConfigContained(config, t') == Ok(true)
  {
    var key := ConfigCells(config);
    assert CommonKey(key, t.columns) == key;
    KeyedGrows(config, t, t');
    assert CommonKey(key, t'.columns) == key;
    ContainedPrefix(t.rows, t'.rows, key);
  }

  /**
   * The saved ledger is sorted ascending by the configuration columns, holds the
   * rows of the loop's ledger, and keeps the loop's order among equal configurations.
   */
  lemma StudySorted(existing: Option<Table>, configColumns: seq<string>, configs: seq<Config>, measure: Measure, k: seq<KeyElem>)
    requires Study(existing, configColumns, configs, measure).Ok?
    ensures var initial := if existing.Some? then existing.value else InitialLedger;
      var t := RunConfigs(initial, configs, measure).value;
      var r := Study(existing, configColumns, configs, measure).value;
      && r.columns == t.columns
      && (forall c :: c in configColumns ==> c in r.columns)
      && SortedBy(r.rows, configColumns)
      && multiset(r.rows) == multiset(t.rows)
      && WithKey(r.rows, configColumns, k) == WithKey(t.rows, configColumns, k)
  {
    var initial := if existing.Some? then existing.value else InitialLedger;
    var t := RunConfigs(initial, configs, measure).value;
    SortSorted(t.rows, configColumns);
    SortStable(t.rows, configColumns, k);
  }
}
