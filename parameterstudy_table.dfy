/**
 * build_parameterstudy_table.py: the body of the LaTeX table of the parameter
 * study. The four configuration columns are printed as they are; each of the
 * ten metric columns gets a heat-map colour, the column minimum in bold, and
 * the order and customization times as whole numbers.
 */
module ParameterStudyTable {
  import opened Text
  import opened Numbers
  import opened Latex
  import opened OrderTable

  /** The four configuration columns come first, then the ten metric columns in the order table's order. */
  const ConfigCount := 4
  const ColumnCount := 14

  /** Positions of order_running_time and median_customization_time among all columns. */
  const OrderTimeColumn := 11
  const CustomizationTimeColumn := 12

  predicate Shaped(columns: seq<Column>)
  {
    |columns| == ColumnCount && forall j :: 0 <= j < |columns| ==> Len(columns[j]) == Len(columns[0])
  }

  function Rows(columns: seq<Column>): nat
    requires Shaped(columns)
  {
    Len(columns[0])
  }

  /** Metric columns are rescaled as in the order table and rounded if float; configuration columns are kept. */
  function Prepare(columns: seq<Column>): (r: seq<Column>)
    requires Shaped(columns)
    ensures Shaped(r) && Rows(r) == Rows(columns)
    ensures forall j :: 0 <= j < ConfigCount ==> r[j] == columns[j]
    ensures forall j :: ConfigCount <= j < ColumnCount ==> r[j] == PrepareMetric(columns[j], j - ConfigCount)
  {
    seq(|columns|, j requires 0 <= j < |columns| => if j < ConfigCount then columns[j] else PrepareMetric(columns[j], j - ConfigCount))
  }

  function AllRows(n: nat): (mask: seq<bool>)
    ensures |mask| == n && forall i :: 0 <= i < n ==> mask[i]
  {
    seq(n, i => true)
  }

  function ColumnMin(c: Column): real
    requires Len(c) > 0
  {
    assert AllRows(Len(c))[0];
    MinWhere(c, AllRows(Len(c)), Len(c)).value
  }

  function ColumnMax(c: Column): (m: real)
    requires Len(c) > 0
    ensures (exists i :: 0 <= i < Len(c) && At(c, i) == m) && forall i :: 0 <= i < Len(c) ==> At(c, i) <= m
    decreases Len(c)
  {
    MaxPrefix(c, Len(c))
  }

  function MaxPrefix(c: Column, n: nat): (m: real)
    requires 0 < n <= Len(c)
    ensures (exists i :: 0 <= i < n && At(c, i) == m) && forall i :: 0 <= i < n ==> At(c, i) <= m
  {
    if n == 1 then At(c, 0)
    else
      var rest := MaxPrefix(c, n - 1);
      if rest >= At(c, n - 1) then rest else At(c, n - 1)
  }

  /** `(value - col_min) // ((col_max - col_min) / 10)`, in exact arithmetic. */
  function Bucket(value: real, lo: real, hi: real): int
    requires lo < hi
  {
    ((value - lo) / ((hi - lo) / 10.0)).Floor
  }

  /**
   * `get_color`: "cyan!100" for a constant column; otherwise 100 minus ten times
   * the bucket, capped at 10, printed as a float because the bucket is a float.
   */
  function Color(value: real, c: Column): string
    requires Len(c) > 0
  {
    var lo, hi := ColumnMin(c), ColumnMax(c);
    if hi == lo then "cyan!100"
    else
      var bucket := Bucket(value, lo, hi);
      if bucket > 10 then "cyan!0" else "cyan!" + IntToString(100 - bucket * 10) + ".0"
  }

  lemma ColumnMinBounds(c: Column)
    requires Len(c) > 0
    ensures (exists i :: 0 <= i < Len(c) && At(c, i) == ColumnMin(c)) && forall i :: 0 <= i < Len(c) ==> ColumnMin(c) <= At(c, i)
  {
    var mask := AllRows(Len(c));
    assert mask[0];
    var m := MinWhere(c, mask, Len(c));
    forall i | 0 <= i < Len(c) ensures m.value <= At(c, i) {
      assert mask[i];
    }
  }

  /** Buckets run from 0 at the minimum to 10 at the maximum and never decrease with the value. */
  lemma BucketRange(value: real, lo: real, hi: real)
    requires lo < hi && lo <= value <= hi
    ensures 0 <= Bucket(value, lo, hi) <= 10
    ensures value == lo ==> Bucket(value, lo, hi) == 0
    ensures value == hi ==> Bucket(value, lo, hi) == 10
  {
    QuotientBounds(value - lo, hi - lo);
  }

  /** A share `a` of `d`, counted in tenths of `d`, lies between 0 and 10. */
  lemma QuotientBounds(a: real, d: real)
    requires 0.0 <= a <= d && d > 0.0
    ensures 0.0 <= a / (d / 10.0) <= 10.0
    ensures a == 0.0 ==> a / (d / 10.0) == 0.0
    ensures a == d ==> a / (d / 10.0) == 10.0
  {
    var s := d / 10.0;
    var q := a / s;
    assert q * s == a;
    assert 10.0 * s == d;
  }

  lemma BucketMonotone(v: real, w: real, lo: real, hi: real)
    requires lo < hi && v <= w
    ensures Bucket(v, lo, hi) <= Bucket(w, lo, hi)
  {
    var s := (hi - lo) / 10.0;
    assert (v - lo) / s <= (w - lo) / s;
  }

  /** The intensity of a non-constant column's shade: 100 minus ten times the bucket. */
  function Intensity(value: real, lo: real, hi: real): int
    requires lo < hi
  {
    100 - Bucket(value, lo, hi) * 10
  }

  /**
   * Within the column's range the intensity is one of 0, 10, ..., 100: 100 at the
   * minimum, 0 at the maximum, and it never increases with the value.
   */
  lemma IntensityShades(v: real, w: real, lo: real, hi: real)
    requires lo < hi && lo <= v <= w <= hi
    ensures 0 <= Intensity(v, lo, hi) <= 100 && Intensity(v, lo, hi) % 10 == 0
    ensures Intensity(w, lo, hi) <= Intensity(v, lo, hi)
    ensures v == lo ==> Intensity(v, lo, hi) == 100
    ensures w == hi ==> Intensity(w, lo, hi) == 0
  {
    BucketRange(v, lo, hi);
    BucketRange(w, lo, hi);
    BucketMonotone(v, w, lo, hi);
  }

  /** A constant column is "cyan!100"; otherwise a cell's colour is its intensity as a float. */
  lemma ColorShades(c: Column, i: nat)
    requires Len(c) > 0 && i < Len(c)
    ensures ColumnMax(c) == ColumnMin(c) ==> Color(At(c, i), c) == "cyan!100"
    ensures ColumnMax(c) != ColumnMin(c) ==>
      ColumnMin(c) < ColumnMax(c)
      && Color(At(c, i), c) == "cyan!" + IntToString(Intensity(At(c, i), ColumnMin(c), ColumnMax(c))) + ".0"
  {
    ColumnMinBounds(c);
    if ColumnMax(c) != ColumnMin(c) {
      BucketRange(At(c, i), ColumnMin(c), ColumnMax(c));
    }
  }

  /** The text of a value: `int(round(value, 0))` for the two time columns, `str(value)` otherwise. */
  function Displayed(columns: seq<Column>, j: nat, row: nat, renderFloat: real -> string): string
    requires Shaped(columns) && j < ColumnCount && row < Rows(columns)
  {
    if j == OrderTimeColumn || j == CustomizationTimeColumn then IntToString(RoundToInt(At(columns[j], row)))
    else Str(columns[j], row, renderFloat)
  }

  /** Digit grouping applies when the raw value's string is numeric. */
  function Shown(columns: seq<Column>, j: nat, row: nat, renderFloat: real -> string): string
    requires Shaped(columns) && j < ColumnCount && row < Rows(columns)
  {
    var d := Displayed(columns, j, row, renderFloat);
    if IsNumber(Str(columns[j], row, renderFloat)) then GroupDigits(d) else d
  }

  function ColorPrefix(columns: seq<Column>, j: nat, row: nat): string
    requires Shaped(columns) && j < ColumnCount && row < Rows(columns)
  {
    if j >= ConfigCount then @"\cellcolor{" + Color(At(columns[j], row), columns[j]) + "}" else ""
  }

  predicate IsBold(columns: seq<Column>, j: nat, row: nat)
    requires Shaped(columns) && j < ColumnCount && row < Rows(columns)
  {
    j >= ConfigCount && At(columns[j], row) == ColumnMin(columns[j])
  }

  function Cell(columns: seq<Column>, j: nat, row: nat, renderFloat: real -> string): string
    requires Shaped(columns) && j < ColumnCount && row < Rows(columns)
  {
    (if j == 0 then "" else " & ") + ColorPrefix(columns, j, row)
    + (if IsBold(columns, j, row) then Bold(Shown(columns, j, row, renderFloat)) else Shown(columns, j, row, renderFloat))
  }

  /** The cell of column `j` in row `row`, where both exist. */
  function CellOf(columns: seq<Column>, row: nat, renderFloat: real -> string): nat -> string
  {
    (j: nat) => if Shaped(columns) && j < ColumnCount && row < Rows(columns) then Cell(columns, j, row, renderFloat) else ""
  }

  /** The first `k` cells, each given by `cell`, one after another. */
  function CellsWith(cell: nat -> string, k: nat): string
  {
    if k == 0 then "" else CellsWith(cell, k - 1) + cell(k - 1)
  }

  function Cells(columns: seq<Column>, row: nat, renderFloat: real -> string, k: nat): string
    requires Shaped(columns) && k <= ColumnCount && row < Rows(columns)
  {
    CellsWith(CellOf(columns, row, renderFloat), k)
  }

  function RowText(columns: seq<Column>, row: nat, renderFloat: real -> string): string
    requires Shaped(columns) && row < Rows(columns)
  {
    Cells(columns, row, renderFloat, |columns|) + @"\\" + "\n"
  }

  function Body(columns: seq<Column>, n: nat, renderFloat: real -> string): string
    requires Shaped(columns) && n <= Rows(columns)
  {
    if n == 0 then "" else Body(columns, n - 1, renderFloat) + RowText(columns, n - 1, renderFloat)
  }

  /** The row loop. */
  method RenderBody(columns: seq<Column>, renderFloat: real -> string) returns (out: string)
    requires Shaped(columns)
    ensures out == Body(columns, Rows(columns), renderFloat)
  {
    out := "";
    var row := 0;
    while row < Rows(columns)
      invariant 0 <= row <= Rows(columns)
      invariant out == Body(columns, row, renderFloat)
    {
      var text := RenderRow(columns, row, renderFloat);
      BodyStep(columns, row, renderFloat);
      out := out + text;
      row := row + 1;
    }
  }

  /** The column loop of one row. */
  method RenderRow(columns: seq<Column>, row: nat, renderFloat: real -> string) returns (out: string)
    requires Shaped(columns) && row < Rows(columns)
    ensures out == RowText(columns, row, renderFloat)
  {
    ghost var cell := CellOf(columns, row, renderFloat);
    var cells := "";
    var j := 0;
    while j < |columns|
      invariant 0 <= j <= |columns|
      invariant cells == CellsWith(cell, j)
    {
      assert cell(j) == Cell(columns, j, row, renderFloat);
      cells := cells + Cell(columns, j, row, renderFloat);
      j := j + 1;
    }
    out := cells + @"\\" + "\n";
  }

  lemma BodyStep(columns: seq<Column>, n: nat, renderFloat: real -> string)
    requires Shaped(columns) && n < Rows(columns)
    ensures Body(columns, n + 1, renderFloat) == Body(columns, n, renderFloat) + RowText(columns, n, renderFloat)
  {
  }


  /** A metric cell is bold iff no row has a smaller value in that column; configuration cells never are. */
  lemma BoldIffColumnMinimum(columns: seq<Column>, j: nat, row: nat)
    requires Shaped(columns) && j < ColumnCount && row < Rows(columns)
    ensures IsBold(columns, j, row) <==>
      j >= ConfigCount && forall i :: 0 <= i < Rows(columns) ==> At(columns[j], row) <= At(columns[j], i)
  {
    ColumnMinBounds(columns[j]);
  }

  /** Only the ten metric columns carry a colour. */
  lemma ColorOnMetrics(columns: seq<Column>, j: nat, row: nat)
    requires Shaped(columns) && j < ColumnCount && row < Rows(columns)
    ensures ColorPrefix(columns, j, row) != "" <==> j >= ConfigCount
  {
    if j >= ConfigCount {
      assert |ColorPrefix(columns, j, row)| > 0;
    }
  }

  /** The first column has no leading separator; every other cell starts with " & ". */
  lemma CellLayout(columns: seq<Column>, j: nat, row: nat, renderFloat: real -> string)
    requires Shaped(columns) && j < ColumnCount && row < Rows(columns)
    ensures j == 0 ==>
      Cell(columns, j, row, renderFloat) == ColorPrefix(columns, j, row) + (if IsBold(columns, j, row) then Bold(Shown(columns, j, row, renderFloat)) else Shown(columns, j, row, renderFloat))
    ensures j > 0 ==> Cell(columns, j, row, renderFloat)[..3] == " & "
  {
    var rest := ColorPrefix(columns, j, row) + (if IsBold(columns, j, row) then Bold(Shown(columns, j, row, renderFloat)) else Shown(columns, j, row, renderFloat));
    if j > 0 {
      assert Cell(columns, j, row, renderFloat) == " & " + rest;
      assert (" & " + rest)[..3] == " & ";
    } else {
      assert Cell(columns, j, row, renderFloat) == "" + rest;
      assert "" + rest == rest;
    }
  }

  /** The two time columns are shown as whole numbers, digit-grouped when non-negative. */
  lemma TimesAsIntegers(columns: seq<Column>, j: nat, row: nat, renderFloat: real -> string)
    requires Shaped(columns) && row < Rows(columns)
    requires j == OrderTimeColumn || j == CustomizationTimeColumn
    requires IsNumber(Str(columns[j], row, renderFloat))
    requires At(columns[j], row) >= 0.0
    ensures Strip(Shown(columns, j, row, renderFloat)) == IntToString(RoundToInt(At(columns[j], row)))
  {
    var s := IntToString(RoundToInt(At(columns[j], row)));
    IntToStringValue(RoundToInt(At(columns[j], row)));
    GroupDigitsStrip(s);
  }
}
