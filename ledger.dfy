/**
 * The results ledgers of order_experiments.py and parameterstudy.py: a
 * table with an ordered list of columns and rows of cells, the
 * "already contained?" test `len(key_frame.merge(results)) > 0`,
 * `DataFrame.append` of one row, and the stable multi-column
 * `sort_values` applied before saving.
 */
module Ledger {
  import opened Wrappers
  import opened PyDict
  import opened MetricsLog

  /** A cell: text or a number (integers and floats compare as the numbers they are). */
  datatype Cell = Text(s: string) | Number(x: real)

  /** A row maps column names to cells; a column missing from the map is NaN. */
  type Row = map<string, Cell>

  datatype Table = Table(columns: seq<string>, rows: seq<Row>)

  /** The row agrees with every `(column, cell)` of the key. NaN equals nothing. */
  predicate Matches(row: Row, key: seq<(string, Cell)>)
  {
    forall i :: 0 <= i < |key| ==> key[i].0 in row && row[key[i].0] == key[i].1
  }

  /**
   * `len(pd.DataFrame([key]).merge(results)) > 0`: an inner join on the
   * key's columns is non-empty iff some row agrees on all of them.
   */
  function Contained(rows: seq<Row>, key: seq<(string, Cell)>): (b: bool)
    ensures b <==> exists i :: 0 <= i < |rows| && Matches(rows[i], key)
  {
    if rows == [] then false
    else if Matches(rows[0], key) then true
    else
      var b := Contained(rows[1..], key);
      assert forall i :: 1 <= i < |rows| ==> rows[i] == rows[1..][i - 1];
      b
  }

  /** A parsed log as a row: every value becomes the number it denotes. */
  function Cells(d: Dict<Value>): (r: Dict<Cell>)
    ensures r.Keys() == d.Keys()
    ensures |r.items| == |d.items| && forall i :: 0 <= i < |d.items| ==> r.items[i] == (d.items[i].0, Number(AsReal(d.items[i].1)))
  {
    Dict(seq(|d.items|, i requires 0 <= i < |d.items| => (d.items[i].0, Number(AsReal(d.items[i].1)))))
  }

  /** `key`'s columns, first occurrence removed, the rest in order (`list.remove`). */
  function Remove(columns: seq<string>, c: string): (r: seq<string>)
    ensures c in columns ==> |r| == |columns| - 1
    ensures forall x :: x in r ==> x in columns
    ensures forall x :: x in columns && x != c ==> x in r
  {
    if columns == [] then []
    else if columns[0] == c then columns[1..]
    else [columns[0]] + Remove(columns[1..], c)
  }

  /** The columns of `keys` that `columns` does not have yet, in their order. */
  function NewColumns(columns: seq<string>, keys: seq<string>): (r: seq<string>)
    ensures forall c :: c in r <==> c in keys && c !in columns
  {
    if keys == [] then []
    else if keys[0] in columns then NewColumns(columns, keys[1..])
    else [keys[0]] + NewColumns(columns, keys[1..])
  }

  function ToMap(d: Dict<Cell>): (m: Row)
    decreases |d.items|
  {
    if d.items == [] then map[]
    else ToMap(Dict(d.items[1..]))[d.items[0].0 := d.items[0].1]
  }

  /** The map holds exactly the dictionary's keys, with its values. */
  lemma {:induction false} ToMapGet(d: Dict<Cell>, k: string)
    requires d.Valid()
    ensures k in ToMap(d) <==> d.Get(k).Some?
    ensures k in ToMap(d) ==> ToMap(d)[k] == d.Get(k).value
    decreases |d.items|
  {
    if d.items != [] {
      var tl := Dict(d.items[1..]);
      assert tl.Valid() by {
        forall i, j | 0 <= i < j < |tl.items| ensures tl.items[i].0 != tl.items[j].0 {
          assert tl.items[i] == d.items[i + 1] && tl.items[j] == d.items[j + 1];
        }
      }
      ToMapGet(tl, k);
    }
  }

  /**
   * `results.append(pd.DataFrame([row]), ignore_index=True)`: the row is
   * added last and its new columns are appended in the row's key order.
   */
  function Append(t: Table, row: Dict<Cell>): (r: Table)
    ensures r.rows == t.rows + [ToMap(row)]
    ensures |t.columns| <= |r.columns| && r.columns[..|t.columns|] == t.columns
    ensures forall c :: c in r.columns <==> c in t.columns || c in row.Keys()
  {
    var r := Table(t.columns + NewColumns(t.columns, row.Keys()), t.rows + [ToMap(row)]);
    assert r.columns[..|t.columns|] == t.columns;
    r
  }

  /** After the append, the appended key is contained. */
  lemma AppendContains(t: Table, row: Dict<Cell>, key: seq<(string, Cell)>)
    requires row.Valid()
    requires forall i :: 0 <= i < |key| ==> row.Get(key[i].0) == Some(key[i].1)
    ensures Contained(Append(t, row).rows, key)
  {
    var rows := Append(t, row).rows;
    forall i | 0 <= i < |key| ensures key[i].0 in ToMap(row) && ToMap(row)[key[i].0] == key[i].1 {
      ToMapGet(row, key[i].0);
    }
    assert Matches(rows[|rows| - 1], key);
  }

  // ---------------------------------------------------------------------
  // sort_values over several columns, ascending, NaN last, stable

  /** A sort key component: a number, or NaN, which sorts after every number. */
  datatype KeyElem = Val(x: real) | NaN

  function KeyOfCell(row: Row, column: string): KeyElem
  {
    if column in row && row[column].Number? then Val(row[column].x) else NaN
  }

  /** The sort key of a row for the given columns. */
  function KeyOf(row: Row, columns: seq<string>): (k: seq<KeyElem>)
    ensures |k| == |columns| && forall i :: 0 <= i < |columns| ==> k[i] == KeyOfCell(row, columns[i])
  {
    seq(|columns|, i requires 0 <= i < |columns| => KeyOfCell(row, columns[i]))
  }

  predicate ElemLt(a: KeyElem, b: KeyElem)
  {
    (a.Val? && b.NaN?) || (a.Val? && b.Val? && a.x < b.x)
  }

  /** Lexicographic order of keys. */
  predicate KeyLe(a: seq<KeyElem>, b: seq<KeyElem>)
  {
    a == [] || (b != [] && (ElemLt(a[0], b[0]) || (a[0] == b[0] && KeyLe(a[1..], b[1..]))))
  }

  lemma {:induction false} KeyLeTotal(a: seq<KeyElem>, b: seq<KeyElem>)
    ensures KeyLe(a, b) || KeyLe(b, a)
  {
    if a != [] && b != [] && a[0] == b[0] {
      KeyLeTotal(a[1..], b[1..]);
    }
  }

  lemma {:induction false} KeyLeTrans(a: seq<KeyElem>, b: seq<KeyElem>, c: seq<KeyElem>)
    requires KeyLe(a, b) && KeyLe(b, c)
    ensures KeyLe(a, c)
  {
    if a != [] && a[0] == b[0] && b[0] == c[0] {
      KeyLeTrans(a[1..], b[1..], c[1..]);
    }
  }

  lemma {:induction false} KeyLeAntisym(a: seq<KeyElem>, b: seq<KeyElem>)
    requires KeyLe(a, b) && KeyLe(b, a)
    ensures a == b
  {
    if a != [] {
      KeyLeAntisym(a[1..], b[1..]);
    }
  }

  predicate SortedBy(rows: seq<Row>, columns: seq<string>)
  {
    forall i, j :: 0 <= i < j < |rows| ==> KeyLe(KeyOf(rows[i], columns), KeyOf(rows[j], columns))
  }

  /** Insert after every row whose key is not greater: equal keys keep arrival order. */
  function Insert(rows: seq<Row>, r: Row, columns: seq<string>): (res: seq<Row>)
    ensures multiset(res) == multiset(rows) + multiset{r}
  {
    if rows == [] then [r]
    else if KeyLe(KeyOf(rows[0], columns), KeyOf(r, columns)) then
      var tl := Insert(rows[1..], r, columns);
      assert rows == [rows[0]] + rows[1..];
      [rows[0]] + tl
    else [r] + rows
  }

  /** `sort_values(columns, ascending=True)`: a stable insertion sort. */
  function Sort(rows: seq<Row>, columns: seq<string>): (res: seq<Row>)
    ensures multiset(res) == multiset(rows)
  {
    if rows == [] then []
    else
      var res := Insert(Sort(rows[..|rows| - 1], columns), rows[|rows| - 1], columns);
      assert rows == rows[..|rows| - 1] + [rows[|rows| - 1]];
      res
  }

  lemma SortedTail(rows: seq<Row>, columns: seq<string>)
    requires rows != [] && SortedBy(rows, columns)
    ensures SortedBy(rows[1..], columns)
  {
    var tl := rows[1..];
    forall i, j | 0 <= i < j < |tl| ensures KeyLe(KeyOf(tl[i], columns), KeyOf(tl[j], columns)) {
      assert tl[i] == rows[i + 1] && tl[j] == rows[j + 1];
    }
  }

  /** A row not above any of a sorted sequence may be put in front of it. */
  lemma ConsSorted(x: Row, rows: seq<Row>, columns: seq<string>)
    requires SortedBy(rows, columns)
    requires forall j :: 0 <= j < |rows| ==> KeyLe(KeyOf(x, columns), KeyOf(rows[j], columns))
    ensures SortedBy([x] + rows, columns)
  {
    var res := [x] + rows;
    forall i, j | 0 <= i < j < |res| ensures KeyLe(KeyOf(res[i], columns), KeyOf(res[j], columns)) {
      assert res[j] == rows[j - 1];
      if i > 0 { assert res[i] == rows[i - 1]; }
    }
  }

  /** In a sorted sequence, once a row is above `r` all later rows are. */
  lemma AboveStaysAbove(rows: seq<Row>, r: Row, columns: seq<string>)
    requires SortedBy(rows, columns) && rows != []
    requires !KeyLe(KeyOf(rows[0], columns), KeyOf(r, columns))
    ensures forall j :: 0 <= j < |rows| ==> !KeyLe(KeyOf(rows[j], columns), KeyOf(r, columns))
  {
    forall j | 0 <= j < |rows| ensures !KeyLe(KeyOf(rows[j], columns), KeyOf(r, columns)) {
      if j > 0 && KeyLe(KeyOf(rows[j], columns), KeyOf(r, columns)) {
        KeyLeTrans(KeyOf(rows[0], columns), KeyOf(rows[j], columns), KeyOf(r, columns));
      }
    }
  }

  /** A lower bound of the rows and of `r` bounds the rows with `r` inserted. */
  lemma InsertBound(x: Row, rows: seq<Row>, r: Row, columns: seq<string>)
    requires KeyLe(KeyOf(x, columns), KeyOf(r, columns))
    requires forall j :: 0 <= j < |rows| ==> KeyLe(KeyOf(x, columns), KeyOf(rows[j], columns))
    ensures forall j :: 0 <= j < |Insert(rows, r, columns)| ==> KeyLe(KeyOf(x, columns), KeyOf(Insert(rows, r, columns)[j], columns))
  {
    var ins := Insert(rows, r, columns);
    forall j | 0 <= j < |ins| ensures KeyLe(KeyOf(x, columns), KeyOf(ins[j], columns)) {
      assert ins[j] in multiset(ins);
      if ins[j] != r {
        assert ins[j] in multiset(rows);
        var m :| 0 <= m < |rows| && rows[m] == ins[j];
      }
    }
  }

  lemma {:induction false} InsertSorted(rows: seq<Row>, r: Row, columns: seq<string>)
    requires SortedBy(rows, columns)
    ensures SortedBy(Insert(rows, r, columns), columns)
  {
    if rows == [] {
    } else if KeyLe(KeyOf(rows[0], columns), KeyOf(r, columns)) {
      var tl := rows[1..];
      SortedTail(rows, columns);
      InsertSorted(tl, r, columns);
      assert forall j :: 0 <= j < |tl| ==> tl[j] == rows[j + 1];
      InsertBound(rows[0], tl, r, columns);
      ConsSorted(rows[0], Insert(tl, r, columns), columns);
    } else {
      AboveStaysAbove(rows, r, columns);
      forall j | 0 <= j < |rows| ensures KeyLe(KeyOf(r, columns), KeyOf(rows[j], columns)) {
        KeyLeTotal(KeyOf(rows[j], columns), KeyOf(r, columns));
      }
      ConsSorted(r, rows, columns);
    }
  }

  /** The sorted rows are in ascending key order. */
  lemma {:induction false} SortSorted(rows: seq<Row>, columns: seq<string>)
    ensures SortedBy(Sort(rows, columns), columns)
  {
    if rows != [] {
      SortSorted(rows[..|rows| - 1], columns);
      InsertSorted(Sort(rows[..|rows| - 1], columns), rows[|rows| - 1], columns);
    }
  }

  /** The rows whose key is `k`, in their order. */
  function WithKey(rows: seq<Row>, columns: seq<string>, k: seq<KeyElem>): seq<Row>
  {
    if rows == [] then []
    else (if KeyOf(rows[0], columns) == k then [rows[0]] else []) + WithKey(rows[1..], columns, k)
  }

  lemma {:induction false} WithKeyAppend(a: seq<Row>, b: seq<Row>, columns: seq<string>, k: seq<KeyElem>)
    ensures WithKey(a + b, columns, k) == WithKey(a, columns, k) + WithKey(b, columns, k)
  {
    if a == [] {
      assert a + b == b;
    } else {
      assert (a + b)[0] == a[0] && (a + b)[1..] == a[1..] + b;
      WithKeyAppend(a[1..], b, columns, k);
      var h := if KeyOf(a[0], columns) == k then [a[0]] else [];
      assert WithKey(a + b, columns, k) == h + WithKey(a[1..] + b, columns, k);
      AppendAssoc(h, WithKey(a[1..], columns, k), WithKey(b, columns, k));
    }
  }

  lemma {:induction false} WithKeyNone(rows: seq<Row>, columns: seq<string>, k: seq<KeyElem>)
    requires forall j :: 0 <= j < |rows| ==> KeyOf(rows[j], columns) != k
    ensures WithKey(rows, columns, k) == []
  {
    if rows != [] {
      assert forall j :: 0 <= j < |rows[1..]| ==> rows[1..][j] == rows[j + 1];
      WithKeyNone(rows[1..], columns, k);
    }
  }

  lemma InsertWithKeyFront(rows: seq<Row>, r: Row, columns: seq<string>, k: seq<KeyElem>)
    requires SortedBy(rows, columns) && rows != []
    requires !KeyLe(KeyOf(rows[0], columns), KeyOf(r, columns))
    ensures WithKey(Insert(rows, r, columns), columns, k) == WithKey(rows, columns, k) + WithKey([r], columns, k)
  {
    assert Insert(rows, r, columns) == [r] + rows;
    WithKeyAppend([r], rows, columns, k);
    if KeyOf(r, columns) == k {
      AboveStaysAbove(rows, r, columns);
      forall j | 0 <= j < |rows| ensures KeyOf(rows[j], columns) != k {
        if KeyOf(rows[j], columns) == k {
          KeyLeTotal(k, k);
        }
      }
      WithKeyNone(rows, columns, k);
    }
  }

  lemma {:induction false} InsertWithKey(rows: seq<Row>, r: Row, columns: seq<string>, k: seq<KeyElem>)
    requires SortedBy(rows, columns)
    ensures WithKey(Insert(rows, r, columns), columns, k)
            == WithKey(rows, columns, k) + WithKey([r], columns, k)
  {
    if rows == [] {
      assert Insert(rows, r, columns) == [r];
    } else if KeyLe(KeyOf(rows[0], columns), KeyOf(r, columns)) {
      SortedTail(rows, columns);
      InsertWithKey(rows[1..], r, columns, k);
      InsertWithKeyBehind(rows, r, columns, k);
    } else {
      InsertWithKeyFront(rows, r, columns, k);
    }
  }

  lemma InsertWithKeyBehind(rows: seq<Row>, r: Row, columns: seq<string>, k: seq<KeyElem>)
    requires rows != [] && KeyLe(KeyOf(rows[0], columns), KeyOf(r, columns))
    requires WithKey(Insert(rows[1..], r, columns), columns, k) == WithKey(rows[1..], columns, k) + WithKey([r], columns, k)
    ensures WithKey(Insert(rows, r, columns), columns, k) == WithKey(rows, columns, k) + WithKey([r], columns, k)
  {
    var tl := Insert(rows[1..], r, columns);
    var ins := [rows[0]] + tl;
    assert Insert(rows, r, columns) == ins;
    assert ins[0] == rows[0] && ins[1..] == tl;
    var h := if KeyOf(rows[0], columns) == k then [rows[0]] else [];
    assert WithKey(ins, columns, k) == h + WithKey(tl, columns, k);
    assert WithKey(rows, columns, k) == h + WithKey(rows[1..], columns, k);
    AppendAssoc(h, WithKey(rows[1..], columns, k), WithKey([r], columns, k));
  }

  lemma AppendAssoc(a: seq<Row>, b: seq<Row>, c: seq<Row>)
    ensures a + (b + c) == (a + b) + c
  {
  }

  /** Stability: rows with equal keys keep their relative order. */
  lemma {:induction false} SortStable(rows: seq<Row>, columns: seq<string>, k: seq<KeyElem>)
    ensures WithKey(Sort(rows, columns), columns, k) == WithKey(rows, columns, k)
  {
    if rows != [] {
      var front := rows[..|rows| - 1];
      var last := rows[|rows| - 1];
      SplitLast(rows);
      SortStable(front, columns, k);
      SortSorted(front, columns);
      assert Sort(rows, columns) == Insert(Sort(front, columns), last, columns);
      InsertWithKey(Sort(front, columns), last, columns, k);
      WithKeyAppend(front, [last], columns, k);
    }
  }

  lemma SplitLast(rows: seq<Row>)
    requires rows != []
    ensures rows[..|rows| - 1] + [rows[|rows| - 1]] == rows
  {
  }
}
