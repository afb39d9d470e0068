/**
 * build_pareto_table.py: the LaTeX table that compares, for one graph, the cuts
 * every partitioner achieved at each listed imbalance bound. A table has a
 * two-line header naming every partitioner twice (one group of columns per
 * metric) and one row per bound. In the achieved-imbalance table a value above
 * the bound is crossed out in red, and so is the same partitioner's cell in the
 * second group of that row.
 */
module ParetoTable {
  import opened Wrappers
  import opened Text
  import opened Numbers

  /** A cell of a cut file: pandas reads floats, integers and the `connected` booleans. */
  datatype Value = Float(x: real) | Int(n: int) | Bool(b: bool)

  /** The value as a Python number; `bool` is a subclass of `int`. */
  function Numeric(v: Value): real
  {
    match v
    case Float(x) => x
    case Int(n) => n as real
    case Bool(b) => if b then 1.0 else 0.0
  }

  /** Python truthiness of the value. */
  predicate Truthy(v: Value)
  {
    Numeric(v) != 0.0
  }

  /** One cut file read back: its columns by name, each a list of cells in row order. */
  type CutTable = map<string, seq<Value>>

  /** The frontier data of one graph: a cut file per partitioner, in list order. */
  datatype Frontiers = Frontiers(partitioners: seq<string>, imbalances: seq<real>, data: seq<CutTable>)
  {
    predicate Valid()
    {
      |data| == |partitioners|
    }
  }

  /** A group of columns: the cut-file column it shows and the formatter of its cells. */
  datatype Half = Half(key: string, format: Value -> string)

  /** `data[P][key][index]` fails with a `KeyError` for a missing column or row. */
  datatype ContentError = MissingColumn(partitioner: string, key: string) | MissingRow(partitioner: string, key: string, index: nat)

  const AchievedEpsilon := "achieved_epsilon"

  /** The position of the first occurrence of `x` in `xs` (`list.index`). */
  function FirstIndex(xs: seq<real>, x: real): (k: nat)
    requires x in xs
    ensures k < |xs| && xs[k] == x
    ensures forall j :: 0 <= j < k ==> xs[j] != x
  {
    if xs[0] == x then 0 else 1 + FirstIndex(xs[1..], x)
  }

  /** In a list without repetitions the first index of the element at `k` is `k`. */
  lemma FirstIndexDistinct(xs: seq<real>, k: nat)
    requires k < |xs|
    requires forall i, j :: 0 <= i < j < |xs| ==> xs[i] != xs[j]
    ensures FirstIndex(xs, xs[k]) == k
  {
  }

  function Lookup(f: Frontiers, i: nat, key: string, index: nat): (r: Result<Value, ContentError>)
    requires f.Valid() && i < |f.partitioners|
    ensures r.Ok? <==> key in f.data[i] && index < |f.data[i][key]|
  {
    if key !in f.data[i] then Err(MissingColumn(f.partitioners[i], key))
    else if index >= |f.data[i][key]| then Err(MissingRow(f.partitioners[i], key, index))
    else Ok(f.data[i][key][index])
  }

  /** Whether a first-group value is crossed out: only in the achieved-imbalance table, above the bound. */
  predicate Exceeds(key: string, v: Value, eps: real)
  {
    key == AchievedEpsilon && Numeric(v) > eps
  }

  function Cancel(s: string): string
  {
    @"\textcolor{red}{\cancel{" + s + "}}"
  }

  function FirstCell(h: Half, v: Value, eps: real): string
  {
    if Exceeds(h.key, v, eps) then "& " + Cancel(h.format(v)) else "& " + h.format(v)
  }

  function SecondCell(h: Half, v: Value, i: nat, unbalanced: set<nat>): string
  {
    if i in unbalanced then "& " + Cancel(h.format(v)) else "& " + h.format(v)
  }

  /** The first-group cells of the first `n` partitioners for bound `eps`, read at row `index`. */
  function FirstCells(f: Frontiers, h: Half, eps: real, index: nat, n: nat): (r: Result<string, ContentError>)
    requires f.Valid() && n <= |f.partitioners|
    ensures r.Ok? <==> forall i :: 0 <= i < n ==> Lookup(f, i, h.key, index).Ok?
  {
    if n == 0 then Ok("")
    else
      match FirstCells(f, h, eps, index, n - 1)
      case Err(e) => Err(e)
      case Ok(s) =>
        match Lookup(f, n - 1, h.key, index)
        case Err(e) => Err(e)
        case Ok(v) => Ok(s + FirstCell(h, v, eps))
  }

  /** The partitioners among the first `n` whose first-group value is crossed out. */
  function Unbalanced(f: Frontiers, key: string, eps: real, index: nat, n: nat): (u: set<nat>)
    requires f.Valid() && n <= |f.partitioners|
    ensures forall i :: i in u ==> i < n
  {
    if n == 0 then {}
    else
      var v := Lookup(f, n - 1, key, index);
      Unbalanced(f, key, eps, index, n - 1) + if v.Ok? && Exceeds(key, v.value, eps) then {n - 1} else {}
  }

  function SecondCells(f: Frontiers, h: Half, index: nat, unbalanced: set<nat>, n: nat): (r: Result<string, ContentError>)
    requires f.Valid() && n <= |f.partitioners|
    ensures r.Ok? <==> forall i :: 0 <= i < n ==> Lookup(f, i, h.key, index).Ok?
  {
    if n == 0 then Ok("")
    else
      match SecondCells(f, h, index, unbalanced, n - 1)
      case Err(e) => Err(e)
      case Ok(s) =>
        match Lookup(f, n - 1, h.key, index)
        case Err(e) => Err(e)
        case Ok(v) => Ok(s + SecondCell(h, v, n - 1, unbalanced))
  }

  /** The row of bound `imbalances[e]`: `int(eps * 100)`, both groups of cells, `\\`. */
  function RowText(f: Frontiers, e: nat, h1: Half, h2: Half): (r: Result<string, ContentError>)
    requires f.Valid() && e < |f.imbalances|
  {
    var eps := f.imbalances[e];
    var index := FirstIndex(f.imbalances, eps);
    var n := |f.partitioners|;
    match FirstCells(f, h1, eps, index, n)
    case Err(err) => Err(err)
    case Ok(a) =>
      match SecondCells(f, h2, index, Unbalanced(f, h1.key, eps, index, n), n)
      case Err(err) => Err(err)
      case Ok(b) => Ok(RowLine(eps, a, b))
  }

  /** A row: the bound in percent, truncated, then both groups of cells and the row end. */
  function RowLine(eps: real, first: string, second: string): string
  {
    IntToString(Trunc(eps * 100.0)) + first + second + @"\\" + "\n"
  }

  /** The text of row `e`, where the frontiers are valid and the row exists. */
  function RowTextOf(f: Frontiers, h1: Half, h2: Half): nat -> Result<string, ContentError>
  {
    (e: nat) => if f.Valid() && e < |f.imbalances| then RowText(f, e, h1, h2) else Ok("")
  }

  /** The first `m` rows, each given by `text`, or the first lookup that fails. */
  function RowsWith(m: nat, text: nat -> Result<string, ContentError>): (r: Result<string, ContentError>)
    ensures r.Ok? <==> forall e :: 0 <= e < m ==> text(e).Ok?
  {
    if m == 0 then Ok("")
    else
      match RowsWith(m - 1, text)
      case Err(err) => Err(err)
      case Ok(s) =>
        match text(m - 1)
        case Err(err) => Err(err)
        case Ok(t) => Ok(s + t)
  }

  /** The first `m` rows of the table. */
  function Rows(f: Frontiers, h1: Half, h2: Half, m: nat): Result<string, ContentError>
  {
    RowsWith(m, RowTextOf(f, h1, h2))
  }

  lemma RowsStep(e: nat, text: nat -> Result<string, ContentError>)
    requires RowsWith(e, text).Ok?
    ensures RowsWith(e + 1, text) == match text(e)
      case Err(err) => Err(err)
      case Ok(t) => Ok(RowsWith(e, text).value + t)
  {
  }

  lemma TableRowsStep(f: Frontiers, h1: Half, h2: Half, e: nat)
    requires f.Valid() && e < |f.imbalances| && Rows(f, h1, h2, e).Ok?
    ensures Rows(f, h1, h2, e + 1) == match RowText(f, e, h1, h2)
      case Err(err) => Err(err)
      case Ok(t) => Ok(Rows(f, h1, h2, e).value + t)
  {
    var text := RowTextOf(f, h1, h2);
    RowsStep(e, text);
    assert text(e) == RowText(f, e, h1, h2);
  }

  lemma TableRowsErr(f: Frontiers, h1: Half, h2: Half, e: nat)
    requires e <= |f.imbalances| && Rows(f, h1, h2, e).Err?
    ensures Rows(f, h1, h2, |f.imbalances|) == Rows(f, h1, h2, e)
  {
    RowsErrPersists(e, |f.imbalances|, RowTextOf(f, h1, h2));
  }

  /** `table_content(key1, format1, key2, format2)`. */
  method TableContent(f: Frontiers, h1: Half, h2: Half) returns (r: Result<string, ContentError>)
    requires f.Valid()
    ensures r == Rows(f, h1, h2, |f.imbalances|)
  {
    var output := "";
    var e := 0;
    while e < |f.imbalances|
      invariant 0 <= e <= |f.imbalances|
      invariant Rows(f, h1, h2, e) == Ok(output)
    {
      var row := RenderRow(f, e, h1, h2);
      TableRowsStep(f, h1, h2, e);
      if row.Err? {
        TableRowsErr(f, h1, h2, e + 1);
        return Err(row.error);
      }
      output := output + row.value;
      e := e + 1;
    }
    return Ok(output);
  }

  /** One bound: the `unbalanced` set starts empty and is filled by the first group. */
  method RenderRow(f: Frontiers, e: nat, h1: Half, h2: Half) returns (r: Result<string, ContentError>)
    requires f.Valid() && e < |f.imbalances|
    ensures r == RowText(f, e, h1, h2)
  {
    var eps := f.imbalances[e];
    var index := FirstIndex(f.imbalances, eps);
    var first, unbalanced := FirstGroup(f, h1, eps, index);
    if first.Err? {
      RowTextFirstErr(f, e, h1, h2);
      return Err(first.error);
    }
    var second := SecondGroup(f, h2, index, unbalanced);
    if second.Err? {
      RowTextSecondErr(f, e, h1, h2, first.value, second.error);
      return Err(second.error);
    }
    RowTextOk(f, e, h1, h2, first.value, second.value);
    return Ok(RowLine(eps, first.value, second.value));
  }

  lemma RowTextFirstErr(f: Frontiers, e: nat, h1: Half, h2: Half)
    requires f.Valid() && e < |f.imbalances|
    requires var eps := f.imbalances[e]; FirstCells(f, h1, eps, FirstIndex(f.imbalances, eps), |f.partitioners|).Err?
    ensures var eps := f.imbalances[e];
      RowText(f, e, h1, h2) == Err(FirstCells(f, h1, eps, FirstIndex(f.imbalances, eps), |f.partitioners|).error)
  {
  }

  lemma RowTextSecondErr(f: Frontiers, e: nat, h1: Half, h2: Half, a: string, err: ContentError)
    requires f.Valid() && e < |f.imbalances|
    requires var eps := f.imbalances[e]; var index := FirstIndex(f.imbalances, eps); var n := |f.partitioners|;
      && FirstCells(f, h1, eps, index, n) == Ok(a)
      && SecondCells(f, h2, index, Unbalanced(f, h1.key, eps, index, n), n) == Err(err)
    ensures RowText(f, e, h1, h2) == Err(err)
  {
  }

  lemma RowTextOk(f: Frontiers, e: nat, h1: Half, h2: Half, a: string, b: string)
    requires f.Valid() && e < |f.imbalances|
    requires var eps := f.imbalances[e]; var index := FirstIndex(f.imbalances, eps); var n := |f.partitioners|;
      && FirstCells(f, h1, eps, index, n) == Ok(a)
      && SecondCells(f, h2, index, Unbalanced(f, h1.key, eps, index, n), n) == Ok(b)
    ensures RowText(f, e, h1, h2) == Ok(RowLine(f.imbalances[e], a, b))
  {
  }

  /** The first loop of a row: the first-group cells, and the partitioners crossed out. */
  method FirstGroup(f: Frontiers, h1: Half, eps: real, index: nat) returns (r: Result<string, ContentError>, unbalanced: set<nat>)
    requires f.Valid()
    ensures r == FirstCells(f, h1, eps, index, |f.partitioners|)
    ensures unbalanced == Unbalanced(f, h1.key, eps, index, |f.partitioners|)
  {
    var n := |f.partitioners|;
    unbalanced := {};
    var first := "";
    var i := 0;
    while i < n
      invariant 0 <= i <= n
      invariant FirstCells(f, h1, eps, index, i) == Ok(first)
      invariant unbalanced == Unbalanced(f, h1.key, eps, index, i)
    {
      var value := Lookup(f, i, h1.key, index);
      FirstCellsStep(f, h1, eps, index, i);
      if value.Err? {
        FirstCellsErrPersists(f, h1, eps, index, i + 1, n);
        return Err(value.error), Unbalanced(f, h1.key, eps, index, n);
      }
      var cell;
      if h1.key == AchievedEpsilon && Numeric(value.value) > eps {
        cell := "& " + Cancel(h1.format(value.value));
        unbalanced := unbalanced + {i};
      } else {
        cell := "& " + h1.format(value.value);
      }
      first := first + cell;
      i := i + 1;
    }
    r := Ok(first);
  }

  /** The second loop of a row: the second-group cells, crossed out for the partitioners in `unbalanced`. */
  method SecondGroup(f: Frontiers, h2: Half, index: nat, unbalanced: set<nat>) returns (r: Result<string, ContentError>)
    requires f.Valid()
    ensures r == SecondCells(f, h2, index, unbalanced, |f.partitioners|)
  {
    var n := |f.partitioners|;
    var second := "";
    var i := 0;
    while i < n
      invariant 0 <= i <= n
      invariant SecondCells(f, h2, index, unbalanced, i) == Ok(second)
    {
      var value := Lookup(f, i, h2.key, index);
      SecondCellsStep(f, h2, index, unbalanced, i);
      if value.Err? {
        SecondCellsErrPersists(f, h2, index, unbalanced, i + 1, n);
        return Err(value.error);
      }
      var cell;
      if i in unbalanced {
        cell := "& " + Cancel(h2.format(value.value));
      } else {
        cell := "& " + h2.format(value.value);
      }
      second := second + cell;
      i := i + 1;
    }
    r := Ok(second);
  }

  lemma FirstCellsStep(f: Frontiers, h: Half, eps: real, index: nat, i: nat)
    requires f.Valid() && i < |f.partitioners| && FirstCells(f, h, eps, index, i).Ok?
    ensures var v := Lookup(f, i, h.key, index);
      && FirstCells(f, h, eps, index, i + 1) == (if v.Err? then Err(v.error) else Ok(FirstCells(f, h, eps, index, i).value + FirstCell(h, v.value, eps)))
      && Unbalanced(f, h.key, eps, index, i + 1)
         == Unbalanced(f, h.key, eps, index, i) + if v.Ok? && Exceeds(h.key, v.value, eps) then {i} else {}
  {
  }

  lemma SecondCellsStep(f: Frontiers, h: Half, index: nat, unbalanced: set<nat>, i: nat)
    requires f.Valid() && i < |f.partitioners| && SecondCells(f, h, index, unbalanced, i).Ok?
    ensures var v := Lookup(f, i, h.key, index);
      SecondCells(f, h, index, unbalanced, i + 1)
        == if v.Err? then Err(v.error) else Ok(SecondCells(f, h, index, unbalanced, i).value + SecondCell(h, v.value, i, unbalanced))
  {
  }

  /** Once a row fails, the error is the result of every longer prefix. */
  lemma {:induction false} RowsErrPersists(m: nat, k: nat, text: nat -> Result<string, ContentError>)
    requires m <= k
    requires RowsWith(m, text).Err?
    ensures RowsWith(k, text) == RowsWith(m, text)
    decreases k - m
  {
    if m < k {
      RowsErrPersists(m, k - 1, text);
    }
  }

  lemma {:induction false} FirstCellsErrPersists(f: Frontiers, h: Half, eps: real, index: nat, m: nat, k: nat)
    requires f.Valid() && m <= k <= |f.partitioners|
    requires FirstCells(f, h, eps, index, m).Err?
    ensures FirstCells(f, h, eps, index, k) == FirstCells(f, h, eps, index, m)
    decreases k - m
  {
    if m < k {
      FirstCellsErrPersists(f, h, eps, index, m, k - 1);
    }
  }

  lemma {:induction false} SecondCellsErrPersists(f: Frontiers, h: Half, index: nat, unbalanced: set<nat>, m: nat, k: nat)
    requires f.Valid() && m <= k <= |f.partitioners|
    requires SecondCells(f, h, index, unbalanced, m).Err?
    ensures SecondCells(f, h, index, unbalanced, k) == SecondCells(f, h, index, unbalanced, m)
    decreases k - m
  {
    if m < k {
      SecondCellsErrPersists(f, h, index, unbalanced, m, k - 1);
    }
  }

  /** A first-group cell is crossed out exactly when the value exceeds the bound in the achieved-imbalance table. */
  lemma FirstCellCancelIff(h: Half, v: Value, eps: real)
    ensures FirstCell(h, v, eps) == "& " + Cancel(h.format(v)) <==> h.key == AchievedEpsilon && Numeric(v) > eps
  {
    if !Exceeds(h.key, v, eps) {
      assert |FirstCell(h, v, eps)| != |"& " + Cancel(h.format(v))|;
    }
  }

  /** A second-group cell is crossed out exactly when its partitioner was marked unbalanced. */
  lemma SecondCellCancelIff(h: Half, v: Value, i: nat, unbalanced: set<nat>)
    ensures SecondCell(h, v, i, unbalanced) == "& " + Cancel(h.format(v)) <==> i in unbalanced
  {
    if i !in unbalanced {
      assert |SecondCell(h, v, i, unbalanced)| != |"& " + Cancel(h.format(v))|;
    }
  }

  /**
   * The unbalanced set of a row holds exactly the partitioners whose value at
   * that row exceeds its bound: nothing carries over from an earlier row.
   */
  lemma {:induction false} UnbalancedIff(f: Frontiers, key: string, eps: real, index: nat, n: nat, i: nat)
    requires f.Valid() && n <= |f.partitioners| && i < n
    ensures i in Unbalanced(f, key, eps, index, n)
      <==> key == AchievedEpsilon && key in f.data[i] && index < |f.data[i][key]| && Numeric(f.data[i][key][index]) > eps
  {
    if i < n - 1 {
      UnbalancedIff(f, key, eps, index, n - 1, i);
    }
  }

  /** The cells with no crossing out, for comparison. */
  function PlainCells(f: Frontiers, h: Half, index: nat, n: nat): (r: Result<string, ContentError>)
    requires f.Valid() && n <= |f.partitioners|
  {
    if n == 0 then Ok("")
    else
      match PlainCells(f, h, index, n - 1)
      case Err(e) => Err(e)
      case Ok(s) =>
        match Lookup(f, n - 1, h.key, index)
        case Err(e) => Err(e)
        case Ok(v) => Ok(s + ("& " + h.format(v)))
  }

  /** Outside the achieved-imbalance table nothing is marked and no cell of either group is crossed out. */
  lemma {:induction false} NotAchievedIsPlain(f: Frontiers, h1: Half, h2: Half, eps: real, index: nat, n: nat)
    requires f.Valid() && n <= |f.partitioners| && h1.key != AchievedEpsilon
    ensures Unbalanced(f, h1.key, eps, index, n) == {}
    ensures FirstCells(f, h1, eps, index, n) == PlainCells(f, h1, index, n)
    ensures SecondCells(f, h2, index, {}, n) == PlainCells(f, h2, index, n)
  {
    if n > 0 {
      NotAchievedIsPlain(f, h1, h2, eps, index, n - 1);
    }
  }

  /** The cells of a row are read at the row's own position when the bounds are distinct. */
  lemma RowIndex(f: Frontiers, e: nat)
    requires e < |f.imbalances|
    requires forall i, j :: 0 <= i < j < |f.imbalances| ==> f.imbalances[i] != f.imbalances[j]
    ensures FirstIndex(f.imbalances, f.imbalances[e]) == e
  {
    FirstIndexDistinct(f.imbalances, e);
  }

  /** `format_bool`. */
  function FormatBool(v: Value): (s: string)
    ensures s == @"$\bullet$" <==> Truthy(v)
    ensures s == @"$\circ$" <==> !Truthy(v)
  {
    if Truthy(v) then @"$\bullet$" else @"$\circ$"
  }

  /**
   * The achieved-imbalance formatter: "${<0.1}$" for a non-zero value whose
   * percentage rounds to 0.0, otherwise the percentage with one decimal
   * (`fixed1`, Python's `:.1f`).
   */
  function AchievedFormat(x: real, fixed1: real -> string): string
  {
    if Round(100.0 * x, 1) == 0.0 && x != 0.0 then "${<0.1}$" else fixed1(100.0 * x)
  }

  /** The "<0.1" form is chosen exactly for the non-zero values within 0.0005 of zero. */
  lemma AchievedFormatSmall(x: real, fixed1: real -> string)
    ensures x != 0.0 && -0.0005 <= x <= 0.0005 ==> AchievedFormat(x, fixed1) == "${<0.1}$"
    ensures !(x != 0.0 && -0.0005 <= x <= 0.0005) ==> AchievedFormat(x, fixed1) == fixed1(100.0 * x)
  {
    assert Scale(1) == 10.0 by {
      assert Pow10(1) == 10;
    }
    var y := 100.0 * x * 10.0;
    RoundUnfold(100.0 * x, 1);
    assert Round(100.0 * x, 1) == 0.0 <==> RoundToInt(y) == 0;
    if -0.5 <= y <= 0.5 {
      RoundToZero(y);
    } else if y > 0.5 {
      assert RoundToInt(y) >= 1;
    } else {
      assert RoundToInt(y) <= -1;
    }
  }

  lemma RoundToZero(y: real)
    requires -0.5 <= y <= 0.5
    ensures RoundToInt(y) == 0
  {
    if y < 0.0 {
      assert y.Floor == -1;
    } else {
      assert y.Floor == 0;
    }
  }

  /** The cells of the achieved-imbalance group. */
  function AchievedCell(fixed1: real -> string): Value -> string
  {
    v => AchievedFormat(Numeric(v), fixed1)
  }

  /** `f"{x}"` of a cut-size cell: `str` of the value, floats by `renderFloat`. */
  function ValueString(v: Value, renderFloat: real -> string): string
  {
    match v
    case Float(x) => renderFloat(x)
    case Int(n) => IntToString(n)
    case Bool(b) => if b then "True" else "False"
  }

  /** The two tables of the script: achieved imbalance with cut size, connectivity with running time. */
  function BalanceTable(fixed1: real -> string, renderFloat: real -> string): (Half, Half)
  {
    (Half(AchievedEpsilon, AchievedCell(fixed1)), Half("cut_size", v => ValueString(v, renderFloat)))
  }

  function ConnectivityTable(fixed1: real -> string): (Half, Half)
  {
    (Half("connected", FormatBool), Half("running_time", v => fixed1(Numeric(v))))
  }

  /** In the connectivity table no cell is crossed out. */
  lemma ConnectivityUncancelled(f: Frontiers, fixed1: real -> string, e: nat)
    requires f.Valid() && e < |f.imbalances|
    ensures var (h1, h2) := ConnectivityTable(fixed1);
      var eps := f.imbalances[e];
      var index := FirstIndex(f.imbalances, eps);
      && Unbalanced(f, h1.key, eps, index, |f.partitioners|) == {}
      && FirstCells(f, h1, eps, index, |f.partitioners|) == PlainCells(f, h1, index, |f.partitioners|)
      && SecondCells(f, h2, index, {}, |f.partitioners|) == PlainCells(f, h2, index, |f.partitioners|)
  {
    var (h1, h2) := ConnectivityTable(fixed1);
    var eps := f.imbalances[e];
    NotAchievedIsPlain(f, h1, h2, eps, FirstIndex(f.imbalances, eps), |f.partitioners|);
  }

  /** The partitioners of the table, in column order. */
  const Partitioners: seq<string> := ["inertialflowcutter4", "inertialflowcutter8", "inertialflowcutter12", "flowcutter3", "flowcutter20", "kahip_v2_11", "metis", "inertial_flow"]

  /** `partitioner_names`; a name it does not list fails with a `KeyError`. */
  function ShortName(p: string): Option<string>
  {
    match p
    case "flowcutter3" => Some("F3")
    case "flowcutter20" => Some("F20")
    case "flowcutter100" => Some("F100")
    case "inertial_flow" => Some("I")
    case "metis" => Some("M")
    case "inertialflowcutter" => Some("IFC")
    case "kahip_v0_71" => Some("K0.61")
    case "kahip_v1_00_cut" => Some("K1.00")
    case "kahip_v2_11" => Some("K2.11")
    case "inertialflowcutter4" => Some("IFC4")
    case "inertialflowcutter8" => Some("IFC8")
    case "inertialflowcutter12" => Some("IFC12")
    case _ => None
  }

  datatype HeaderError = UnknownPartitioner(name: string)

  /** `\cmidrule(lr){start-end}`. */
  function Midrule(start: int, end: int): string
  {
    @"\cmidrule(lr){" + IntToString(start) + "-" + IntToString(end) + "}"
  }

  /** The "& name" cells of the first `n` partitioners. */
  function NameCells(ps: seq<string>, names: string -> Option<string>, n: nat): Result<string, HeaderError>
    requires n <= |ps|
  {
    if n == 0 then Ok("")
    else
      match NameCells(ps, names, n - 1)
      case Err(e) => Err(e)
      case Ok(s) =>
        match names(ps[n - 1])
        case None => Err(UnknownPartitioner(ps[n - 1]))
        case Some(a) => Ok(s + "& " + a)
  }

  /** The headings line: the rotated ε label over both rows, then one `\multicolumn` per group. */
  function HeadingLine(span: nat, heading1: string, heading2: string): string
  {
    @"\multirow{2}{*}{\rotatebox[origin=c]{90}{$\max\epsilon$}}  & \multicolumn{" + IntToString(span) + "}{c}{" + heading1
    + @"} & \multicolumn{" + IntToString(span) + "}{c}{" + heading2 + @"}\\" + "\n"
  }

  /** `make_header(heading1, heading2)`. */
  function Header(ps: seq<string>, names: string -> Option<string>, heading1: string, heading2: string): (r: Result<string, HeaderError>)
  {
    var span := |ps|;
    match NameCells(ps, names, span)
    case Err(e) => Err(e)
    case Ok(cells) =>
      Ok(HeaderStart(span, heading1, heading2) + cells + cells + HeaderClose)
  }

  /** The headings line and the line of `\cmidrule`s under the two groups. */
  function HeaderStart(span: nat, heading1: string, heading2: string): string
  {
    HeadingLine(span, heading1, heading2)
    + Midrule(2, 2 + span - 1) + " " + Midrule(2 + span, 2 + span + span - 1) + "\n"
  }

  /** The end of the names line and the rule under the header. */
  const HeaderClose := @"\\" + "\n" + @"\midrule"

  method MakeHeader(ps: seq<string>, names: string -> Option<string>, heading1: string, heading2: string) returns (r: Result<string, HeaderError>)
    ensures r == Header(ps, names, heading1, heading2)
  {
    var span := |ps|;
    var header := HeaderStart(span, heading1, heading2);
    var cells := "";
    var i := 0;
    while i < span
      invariant 0 <= i <= span
      invariant NameCells(ps, names, i) == Ok(cells)
    {
      var name := names(ps[i]);
      NameCellsStep(ps, names, i);
      if name.None? {
        NameCellsErrPersists(ps, names, i + 1, span);
        HeaderErr(ps, names, heading1, heading2);
        return Err(UnknownPartitioner(ps[i]));
      }
      cells := cells + "& " + name.value;
      i := i + 1;
    }
    var again := "";
    i := 0;
    while i < span
      invariant 0 <= i <= span
      invariant NameCells(ps, names, span) == Ok(cells)
      invariant NameCells(ps, names, i) == Ok(again)
    {
      NameCellsPrefix(ps, names, i + 1, span);
      NameCellsSome(ps, names, i);
      NameCellsStep(ps, names, i);
      again := again + "& " + names(ps[i]).value;
      i := i + 1;
    }
    HeaderOk(ps, names, heading1, heading2, cells);
    header := header + cells + again + HeaderClose;
    return Ok(header);
  }

  lemma NameCellsStep(ps: seq<string>, names: string -> Option<string>, i: nat)
    requires i < |ps| && NameCells(ps, names, i).Ok?
    ensures NameCells(ps, names, i + 1)
      == if names(ps[i]).None? then Err(UnknownPartitioner(ps[i])) else Ok(NameCells(ps, names, i).value + "& " + names(ps[i]).value)
  {
  }

  lemma NameCellsSome(ps: seq<string>, names: string -> Option<string>, i: nat)
    requires i < |ps| && NameCells(ps, names, i + 1).Ok?
    ensures names(ps[i]).Some?
  {
  }

  lemma HeaderErr(ps: seq<string>, names: string -> Option<string>, heading1: string, heading2: string)
    requires NameCells(ps, names, |ps|).Err?
    ensures Header(ps, names, heading1, heading2) == Err(NameCells(ps, names, |ps|).error)
  {
  }

  lemma HeaderOk(ps: seq<string>, names: string -> Option<string>, heading1: string, heading2: string, cells: string)
    requires NameCells(ps, names, |ps|) == Ok(cells)
    ensures Header(ps, names, heading1, heading2) == Ok(HeaderStart(|ps|, heading1, heading2) + cells + cells + HeaderClose)
  {
  }

  lemma {:induction false} NameCellsErrPersists(ps: seq<string>, names: string -> Option<string>, m: nat, k: nat)
    requires m <= k <= |ps|
    requires NameCells(ps, names, m).Err?
    ensures NameCells(ps, names, k) == NameCells(ps, names, m)
    decreases k - m
  {
    if m < k {
      NameCellsErrPersists(ps, names, m, k - 1);
    }
  }

  lemma {:induction false} NameCellsPrefix(ps: seq<string>, names: string -> Option<string>, m: nat, k: nat)
    requires m <= k <= |ps|
    requires NameCells(ps, names, k).Ok?
    ensures NameCells(ps, names, m).Ok?
    decreases k - m
  {
    if m < k {
      NameCellsPrefix(ps, names, m, k - 1);
    }
  }

  /** The name cells exist exactly when every partitioner among the first `n` has a short name. */
  lemma {:induction false} NameCellsOk(ps: seq<string>, names: string -> Option<string>, n: nat)
    requires n <= |ps|
    ensures NameCells(ps, names, n).Ok? <==> forall i :: 0 <= i < n ==> names(ps[i]).Some?
  {
    if n > 0 {
      NameCellsOk(ps, names, n - 1);
    }
  }

  /** The concatenation of a list of strings. */
  function Concat(parts: seq<string>): string
  {
    if parts == [] then "" else Concat(parts[..|parts| - 1]) + parts[|parts| - 1]
  }

  /** The header cell of a partitioner with a short name. */
  function ShortCell(name: Option<string>): string
  {
    if name.Some? then "& " + name.value else ""
  }

  /** The name cells are "& " and the short name of every partitioner, in list order. */
  lemma {:induction false} NameCellsInOrder(ps: seq<string>, names: string -> Option<string>, n: nat)
    requires n <= |ps| && NameCells(ps, names, n).Ok?
    ensures NameCells(ps, names, n).value == Concat(seq(n, i requires 0 <= i < n => ShortCell(names(ps[i]))))
  {
    if n > 0 {
      NameCellsInOrder(ps, names, n - 1);
      assert NameCells(ps, names, n - 1).Ok?;
      var parts := seq(n, i requires 0 <= i < n => ShortCell(names(ps[i])));
      assert parts[..n - 1] == seq(n - 1, i requires 0 <= i < n - 1 => ShortCell(names(ps[i])));
    }
  }

  /** The header fails exactly when a partitioner has no short name. */
  lemma HeaderFails(ps: seq<string>, names: string -> Option<string>, heading1: string, heading2: string)
    ensures Header(ps, names, heading1, heading2).Ok? <==> forall i :: 0 <= i < |ps| ==> names(ps[i]).Some?
  {
    NameCellsOk(ps, names, |ps|);
  }

  /** Every partitioner of the table has a short name, so its headers never fail. */
  lemma PartitionersNamed()
    ensures forall i :: 0 <= i < |Partitioners| ==> ShortName(Partitioners[i]).Some?
  {
  }
}
