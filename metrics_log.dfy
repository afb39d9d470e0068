/**
 * The metrics-log parser shared by the evaluation scripts: every output line
 * of the console tool of the form `label : number [unit]` becomes an entry of a
 * dictionary. The line must match
 *     ^\s*([a-zA-Z_ ]+) : ([0-9.]+)[^0-9]*$
 * (`re.match`, so anchored at the start). Spaces in the label become '_'. A value
 * holding a '.' is a float, otherwise an int. A later duplicate label
 * overwrites an earlier one. The scripts differ in whether blank lines are
 * skipped and in what happens to a label containing "running_time".
 */
module MetricsLog {
  import opened Wrappers
  import opened Text
  import opened PyDict

  predicate IsLabelChar(c: char) { ('a' <= c <= 'z') || ('A' <= c <= 'Z') || c == '_' || c == ' ' }
  predicate IsValueChar(c: char) { IsDigit(c) || c == '.' }

  predicate AllSpace(s: string) { forall i :: 0 <= i < |s| ==> IsPySpace(s[i]) }
  predicate AllLabel(s: string) { forall i :: 0 <= i < |s| ==> IsLabelChar(s[i]) }
  predicate AllValue(s: string) { forall i :: 0 <= i < |s| ==> IsValueChar(s[i]) }
  predicate NoDigit(s: string) { forall i :: 0 <= i < |s| ==> !IsDigit(s[i]) }

  /**
   * One way of reading `line` against the pattern: `w` for `\s*`, `l` for
   * group 1, " : ", `v` for group 2 and `t` for `[^0-9]*`. (`$` also admits a
   * final newline before the end; `t` absorbs it, so it adds no reading.)
   */
  ghost predicate Decomposes(line: string, w: string, l: string, v: string, t: string)
  {
    line == w + l + " : " + v + t
    && AllSpace(w) && |l| >= 1 && AllLabel(l) && |v| >= 1 && AllValue(v) && NoDigit(t)
  }

  ghost predicate Matches(line: string)
  {
    exists w, l, v, t :: Decomposes(line, w, l, v, t)
  }

  /** The two captured groups. */
  datatype Groups = Groups(labelGroup: string, valueGroup: string)

  function SpacePrefix(s: string): (k: nat)
    ensures k <= |s| && AllSpace(s[..k]) && (k < |s| ==> !IsPySpace(s[k]))
  {
    if s == [] || !IsPySpace(s[0]) then 0
    else
      var k := 1 + SpacePrefix(s[1..]);
      assert forall i :: 1 <= i < k ==> s[..k][i] == s[1..][..k - 1][i - 1];
      k
  }

  function ValuePrefix(s: string): (k: nat)
    ensures k <= |s| && AllValue(s[..k]) && (k < |s| ==> !IsValueChar(s[k]))
  {
    if s == [] || !IsValueChar(s[0]) then 0
    else
      var k := 1 + ValuePrefix(s[1..]);
      assert forall i :: 1 <= i < k ==> s[..k][i] == s[1..][..k - 1][i - 1];
      k
  }

  /**
   * `\s*([a-zA-Z_ ]+)` against all of `p`: `\s*` takes as much as still
   * leaves a non-empty label.
   */
  function LabelGroup(p: string): Option<string>
  {
    if |p| == 0 then None
    else
      var k := SpacePrefix(p);
      var w := if k == |p| then |p| - 1 else k;
      if AllLabel(p[w..]) then Some(p[w..]) else None
  }

  /** `([0-9.]+)[^0-9]*` against all of `s`: the group is the longest run. */
  function ValueGroup(s: string): Option<string>
  {
    var m := ValuePrefix(s);
    if m == 0 || !NoDigit(s[m..]) then None else Some(s[..m])
  }

  /**
   * `re.match` of the pattern, with the groups Python's backtracking matcher
   * captures: the " : " is at the first ':' of the line (neither a label nor
   * whitespace holds a ':'), group 1 is the shortest label and group 2 the
   * longest run of digits and dots.
   */
  function Match(line: string): Option<Groups>
  {
    var c := IndexOf(line, ':');
    if !(1 <= c && c + 1 < |line| && line[c - 1] == ' ' && line[c + 1] == ' ') then None
    else
      match (LabelGroup(line[..c - 1]), ValueGroup(line[c + 2..]))
      case (Some(l), Some(v)) => Some(Groups(l, v))
      case _ => None
  }

  lemma LabelGroupSound(p: string)
    requires LabelGroup(p).Some?
    ensures |LabelGroup(p).value| >= 1 && AllLabel(LabelGroup(p).value)
    ensures p == p[..|p| - |LabelGroup(p).value|] + LabelGroup(p).value
    ensures AllSpace(p[..|p| - |LabelGroup(p).value|])
  {
    var k := SpacePrefix(p);
    var w := if k == |p| then |p| - 1 else k;
    assert forall i :: 0 <= i < w ==> p[..w][i] == p[..k][i];
    assert p == p[..w] + p[w..];
  }

  lemma LabelGroupComplete(p: string, w: string, l: string)
    requires p == w + l && AllSpace(w) && |l| >= 1 && AllLabel(l)
    ensures LabelGroup(p).Some? && |LabelGroup(p).value| <= |l|
  {
    var k := SpacePrefix(p);
    assert k >= |w|;
    var wk := if k == |p| then |p| - 1 else k;
    assert p[wk..] == l[wk - |w|..];
  }

  lemma ValueGroupSound(s: string)
    requires ValueGroup(s).Some?
    ensures |ValueGroup(s).value| >= 1 && AllValue(ValueGroup(s).value)
    ensures s == ValueGroup(s).value + s[|ValueGroup(s).value|..] && NoDigit(s[|ValueGroup(s).value|..])
  {
    var m := ValuePrefix(s);
    assert s == s[..m] + s[m..];
  }

  lemma ValueGroupComplete(s: string, v: string, t: string)
    requires s == v + t && |v| >= 1 && AllValue(v) && NoDigit(t)
    ensures ValueGroup(s).Some? && |v| <= |ValueGroup(s).value|
  {
    var m := ValuePrefix(s);
    assert forall i :: 0 <= i < |v| ==> s[i] == v[i];
    assert m >= |v|;
    assert forall i :: 0 <= i < |s| - m ==> s[m..][i] == t[m - |v| + i];
  }

  /** Every match the matcher reports is a reading of the line. */
  lemma MatchSound(line: string)
    requires Match(line).Some?
    ensures exists w, t :: Decomposes(line, w, Match(line).value.labelGroup, Match(line).value.valueGroup, t)
  {
    var c := IndexOf(line, ':');
    var p := line[..c - 1];
    var after := line[c + 2..];
    assert LabelGroup(p).Some? && ValueGroup(after).Some?;
    var l := LabelGroup(p).value;
    var v := ValueGroup(after).value;
    assert Match(line).value == Groups(l, v);
    LabelGroupSound(p);
    ValueGroupSound(after);
    var w := p[..|p| - |l|];
    var t := after[|v|..];
    Reassemble(line, c, w, l, v, t);
    assert Decomposes(line, w, l, v, t);
  }

  lemma Reassemble(line: string, c: nat, w: string, l: string, v: string, t: string)
    requires 1 <= c && c + 1 < |line| && line[c - 1] == ' ' && line[c] == ':' && line[c + 1] == ' '
    requires line[..c - 1] == w + l && line[c + 2..] == v + t
    ensures line == w + l + " : " + v + t
  {
    assert line[c - 1..c + 2] == " : ";
    assert line == line[..c - 1] + line[c - 1..c + 2] + line[c + 2..];
  }

  /** In any reading, the " : " sits at the first ':' of the line. */
  lemma FirstColon(line: string, w: string, l: string, v: string, t: string)
    requires Decomposes(line, w, l, v, t)
    ensures IndexOf(line, ':') == |w| + |l| + 1
  {
    var c0 := |w| + |l| + 1;
    assert line[c0] == ':';
    forall i | 0 <= i < c0
      ensures line[i] != ':'
    {
      if i < |w| {
        assert line[i] == w[i];
      } else if i < |w| + |l| {
        assert line[i] == l[i - |w|];
      }
    }
  }

  /**
   * Every reading of the line makes the matcher succeed, with a label no longer
   * and a value no shorter than that reading's: the matcher's groups are the
   * greedy ones.
   */
  lemma MatchComplete(line: string, w: string, l: string, v: string, t: string)
    requires Decomposes(line, w, l, v, t)
    ensures Match(line).Some?
    ensures |Match(line).value.labelGroup| <= |l| && |v| <= |Match(line).value.valueGroup|
  {
    FirstColon(line, w, l, v, t);
    DecomposesParts(line, w, l, v, t);
    MatchAt(line, |w| + |l| + 1, w, l, v, t);
  }

  /** A line whose first ':' has a blank on each side, a label reading before it and a value reading after. */
  lemma MatchAt(line: string, c: int, w: string, l: string, v: string, t: string)
    requires IndexOf(line, ':') == c && 1 <= c && c + 1 < |line| && line[c - 1] == ' ' && line[c + 1] == ' '
    requires line[..c - 1] == w + l && AllSpace(w) && |l| >= 1 && AllLabel(l)
    requires line[c + 2..] == v + t && |v| >= 1 && AllValue(v) && NoDigit(t)
    ensures Match(line).Some?
    ensures |Match(line).value.labelGroup| <= |l| && |v| <= |Match(line).value.valueGroup|
  {
    LabelGroupComplete(line[..c - 1], w, l);
    ValueGroupComplete(line[c + 2..], v, t);
  }

  /** The pieces of a reading around its " : ". */
  lemma DecomposesParts(line: string, w: string, l: string, v: string, t: string)
    requires Decomposes(line, w, l, v, t)
    ensures var c := |w| + |l| + 1;
      && c + 1 < |line| && line[c - 1] == ' ' && line[c + 1] == ' '
      && line[..c - 1] == w + l && line[c + 2..] == v + t
  {
    var c := |w| + |l| + 1;
    assert line[..c - 1] == w + l;
    assert line[c + 2..] == v + t;
  }

  /** The matcher succeeds exactly on the lines the pattern matches. */
  lemma MatchIff(line: string)
    ensures Match(line).Some? <==> Matches(line)
  {
    if Match(line).Some? {
      MatchSound(line);
    } else if Matches(line) {
      var w, l, v, t :| Decomposes(line, w, l, v, t);
      MatchComplete(line, w, l, v, t);
    }
  }

  // ---------------------------------------------------------------------
  // Value typing

  /** A parsed value: Python `int` or `float` (held exactly). */
  datatype Value = IntV(i: int) | FloatV(r: real)

  function AsReal(x: Value): real
  {
    match x
    case IntV(i) => i as real
    case FloatV(r) => r
  }

  datatype LogError = NoMatch(line: string) | BadFloat(text: string)

  function CountChar(s: string, c: char): nat
  {
    if s == [] then 0 else (if s[0] == c then 1 else 0) + CountChar(s[1..], c)
  }

  /** The number written `int.frac` in decimal. */
  function DecimalValue(intPart: string, frac: string): real
    requires AllDigits(intPart) && AllDigits(frac)
  {
    DigitsValue(intPart) as real + DigitsValue(frac) as real / Pow10(|frac|) as real
  }

  /**
   * `float(v)` if `'.' in v`, else `int(v)`. For a run of digits and dots,
   * `float` accepts exactly one dot next to at least one digit.
   */
  function TypeValue(v: string): Result<Value, LogError>
    requires AllValue(v)
  {
    if '.' !in v then Ok(IntV(DigitsValue(v)))
    else if CountChar(v, '.') == 1 && |v| >= 2 then
      var d := IndexOf(v, '.');
      assert '.' !in v[d + 1..] by { CountSplit(v, d); }
      Ok(FloatV(DecimalValue(v[..d], v[d + 1..])))
    else Err(BadFloat(v))
  }

  lemma {:induction false} CountSplit(v: string, d: nat)
    requires d < |v| && v[d] == '.' && CountChar(v, '.') == 1
    ensures '.' !in v[d + 1..]
  {
    CountAppend(v[..d + 1], v[d + 1..]);
    assert v == v[..d + 1] + v[d + 1..];
    CountIn(v[..d + 1], d);
    if '.' in v[d + 1..] {
      var j :| 0 <= j < |v[d + 1..]| && v[d + 1..][j] == '.';
      CountIn(v[d + 1..], j);
    }
  }

  lemma {:induction false} CountAppend(a: string, b: string)
    ensures CountChar(a + b, '.') == CountChar(a, '.') + CountChar(b, '.')
  {
    if a != [] {
      assert (a + b)[0] == a[0];
      assert (a + b)[1..] == a[1..] + b;
      CountAppend(a[1..], b);
    } else {
      assert a + b == b;
    }
  }

  lemma {:induction false} CountIn(a: string, j: nat)
    requires j < |a| && a[j] == '.'
    ensures CountChar(a, '.') >= 1
  {
    if j > 0 {
      CountIn(a[1..], j - 1);
    }
  }

  lemma {:induction false} CountZero(a: string)
    requires '.' !in a
    ensures CountChar(a, '.') == 0
  {
    if a != [] {
      assert a[0] != '.';
      assert '.' !in a[1..] by {
        forall j | 0 <= j < |a[1..]| ensures a[1..][j] != '.' { assert a[1..][j] == a[j + 1]; }
      }
      CountZero(a[1..]);
    }
  }

  /** An integer written in decimal is typed as that int. */
  lemma TypeValueInt(n: nat)
    ensures AllValue(NatToString(n)) && TypeValue(NatToString(n)) == Ok(IntV(n))
  {
    var s := NatToString(n);
    NatToStringValue(n);
    assert '.' !in s by {
      forall j | 0 <= j < |s| ensures s[j] != '.' { assert IsDigit(s[j]); }
    }
  }

  /** `a.f` in decimal is typed as the float a + f/10^|f|. */
  lemma TypeValueFloat(a: string, f: string)
    requires AllDigits(a) && AllDigits(f) && |a| + |f| >= 1
    ensures AllValue(a + "." + f)
    ensures TypeValue(a + "." + f) == Ok(FloatV(DecimalValue(a, f)))
  {
    var v := a + "." + f;
    assert forall j :: 0 <= j < |a| ==> v[j] == a[j];
    assert forall j :: 0 <= j < |f| ==> v[|a| + 1 + j] == f[j];
    assert '.' !in a by {
      forall j | 0 <= j < |a| ensures a[j] != '.' { assert IsDigit(a[j]); }
    }
    assert '.' !in f by {
      forall j | 0 <= j < |f| ensures f[j] != '.' { assert IsDigit(f[j]); }
    }
    CountZero(a);
    CountZero(f);
    CountAppend(a, ".");
    CountAppend(a + ".", f);
    assert v[|a|] == '.';
    assert IndexOf(v, '.') == |a|;
    assert v[..|a|] == a && v[|a| + 1..] == f;
  }

  /** The typing fails exactly on a dotted value with several dots or no digit. */
  lemma TypeValueFails(v: string)
    requires AllValue(v)
    ensures TypeValue(v).Err? <==> ('.' in v && (CountChar(v, '.') >= 2 || forall j :: 0 <= j < |v| ==> v[j] == '.'))
  {
    if '.' in v {
      var j :| 0 <= j < |v| && v[j] == '.';
      CountIn(v, j);
      if CountChar(v, '.') == 1 {
        if |v| >= 2 {
          var d := IndexOf(v, '.');
          CountSplit(v, d);
          var k := if d == 0 then 1 else 0;
          assert v[k] != '.' by {
            if d == 0 {
              assert v[1] == v[d + 1..][0];
            }
          }
        } else if forall i :: 0 <= i < |v| ==> v[i] == '.' {
          AllDotsCount(v);
        }
      }
    }
  }

  lemma {:induction false} AllDotsCount(v: string)
    requires forall i :: 0 <= i < |v| ==> v[i] == '.'
    ensures CountChar(v, '.') == |v|
  {
    if v != [] {
      AllDotsCount(v[1..]);
    }
  }

  // ---------------------------------------------------------------------
  // One line, and the whole log

  /** What happens to a label containing "running_time". */
  datatype TimeRule =
    | KeepTime              // metis_cut.py, order_experiments.py: untouched
    | RescaleTime           // inertialflow_cut.py: value / 10^6, name kept
    | RenameAndRescaleTime  // the order scripts and parameterstudy.py

  datatype Variant = Variant(skipBlankLines: bool, timeRule: TimeRule)

  function Normalise(text: string): string
  {
    ReplaceChar(text, ' ', '_')
  }

  /** The entry one line contributes, `None` for a skipped blank line. */
  function Entry(line: string, variant: Variant): Result<Option<(string, Value)>, LogError>
  {
    if variant.skipBlankLines && line == "" then Ok(None)
    else
      match Match(line)
      case None => Err(NoMatch(line))
      case Some(g) =>
        assert AllValue(g.valueGroup) by { ValueGroupChars(line); }
        var name := Normalise(g.labelGroup);
        match TypeValue(g.valueGroup)
        case Err(e) => Err(e)
        case Ok(x) =>
          if variant.timeRule != KeepTime && Contains(name, "running_time") then
            var seconds := FloatV(AsReal(x) / 1000000.0);
            Ok(Some((if variant.timeRule == RenameAndRescaleTime then "order_running_time" else name, seconds)))
          else Ok(Some((name, x)))
  }

  lemma ValueGroupChars(line: string)
    requires Match(line).Some?
    ensures AllValue(Match(line).value.valueGroup)
  {
  }

  /** What one line contributes: an entry, nothing (a skipped blank line) or a failure. */
  type Step = Result<Option<(string, Value)>, LogError>

  /** The `row_dict` assignments of a sequence of steps, stopping at the first failure. */
  function Fold(steps: seq<Step>): Result<Dict<Value>, LogError>
  {
    if steps == [] then Ok(Empty())
    else
      match Fold(steps[..|steps| - 1])
      case Err(e) => Err(e)
      case Ok(d) =>
        match steps[|steps| - 1]
        case Err(e) => Err(e)
        case Ok(None) => Ok(d)
        case Ok(Some(kv)) => Ok(d.Set(kv.0, kv.1))
  }

  function Steps(lines: seq<string>, variant: Variant): (r: seq<Step>)
    ensures |r| == |lines|
    ensures forall i :: 0 <= i < |lines| ==> r[i] == Entry(lines[i], variant)
  {
    seq(|lines|, i requires 0 <= i < |lines| => Entry(lines[i], variant))
  }

  /** The dictionary built from `lines`, or the failure of the first bad line. */
  function Parse(lines: seq<string>, variant: Variant): Result<Dict<Value>, LogError>
  {
    Fold(Steps(lines, variant))
  }

  /** The line loop of `parse_order_log` / `examine_cut`. */
  method ParseLog(lines: seq<string>, variant: Variant) returns (r: Result<Dict<Value>, LogError>)
    ensures r == Parse(lines, variant)
  {
    ghost var steps := Steps(lines, variant);
    var rowDict := Empty();
    var i := 0;
    while i < |lines|
      invariant 0 <= i <= |lines|
      invariant Fold(steps[..i]) == Ok(rowDict)
    {
      assert steps[..i + 1][..i] == steps[..i];
      var e := Entry(lines[i], variant);
      if e.Err? {
        assert Fold(steps[..i + 1]) == Err(e.error);
        FoldErrPersists(steps, i + 1);
        assert steps[..|lines|] == steps;
        return Err(e.error);
      }
      if e.value.Some? {
        rowDict := rowDict.Set(e.value.value.0, e.value.value.1);
      }
      i := i + 1;
    }
    assert steps[..i] == steps;
    r := Ok(rowDict);
  }

  /** A failure on a prefix is the failure of the whole sequence. */
  lemma {:induction false} FoldErrPersists(steps: seq<Step>, i: nat)
    requires i <= |steps| && Fold(steps[..i]).Err?
    ensures Fold(steps) == Fold(steps[..i])
    decreases |steps|
  {
    if i < |steps| {
      var front := steps[..|steps| - 1];
      assert front[..i] == steps[..i];
      FoldErrPersists(front, i);
    } else {
      assert steps[..i] == steps;
    }
  }

  // ---------------------------------------------------------------------
  // What the folded dictionary holds

  predicate StepNames(s: Step, k: string)
  {
    s.Ok? && s.value.Some? && s.value.value.0 == k
  }

  /** The fold fails exactly when a step does, with the first failing step's error. */
  lemma {:induction false} FoldFails(steps: seq<Step>)
    ensures Fold(steps).Err? <==> exists i :: 0 <= i < |steps| && steps[i].Err?
    ensures Fold(steps).Err? ==>
      exists i :: 0 <= i < |steps| && steps[i] == Err(Fold(steps).error)
        && forall j :: 0 <= j < i ==> steps[j].Ok?
    decreases |steps|
  {
    if steps != [] {
      var n := |steps|;
      var front := steps[..n - 1];
      FoldFails(front);
      assert forall j :: 0 <= j < n - 1 ==> front[j] == steps[j];
      if Fold(front).Err? {
        assert Fold(steps) == Err(Fold(front).error);
        var i :| 0 <= i < n - 1 && front[i] == Err(Fold(front).error) && forall j :: 0 <= j < i ==> front[j].Ok?;
        assert steps[i] == Err(Fold(steps).error);
      } else if steps[n - 1].Err? {
        assert Fold(steps) == Err(steps[n - 1].error);
        assert forall j :: 0 <= j < n - 1 ==> steps[j].Ok?;
      } else {
        assert Fold(steps).Ok?;
        assert forall j :: 0 <= j < n ==> steps[j].Ok?;
      }
    }
  }

  /** The index of the last step naming `k`, or -1 when none does. */
  function LastNaming(steps: seq<Step>, k: string): (r: int)
    ensures -1 <= r < |steps|
    ensures r >= 0 ==> StepNames(steps[r], k) && forall j :: r < j < |steps| ==> !StepNames(steps[j], k)
    ensures r == -1 ==> forall j :: 0 <= j < |steps| ==> !StepNames(steps[j], k)
  {
    if steps == [] then -1
    else if StepNames(steps[|steps| - 1], k) then |steps| - 1
    else
      var r := LastNaming(steps[..|steps| - 1], k);
      assert forall j :: 0 <= j < |steps| - 1 ==> steps[..|steps| - 1][j] == steps[j];
      r
  }

  /** The folded dictionary maps `k` to the value of the last step naming it. */
  lemma {:induction false} FoldGet(steps: seq<Step>, k: string)
    requires Fold(steps).Ok?
    ensures var r := LastNaming(steps, k);
      Fold(steps).value.Get(k) == if r < 0 then None else Some(steps[r].value.value.1)
    decreases |steps|
  {
    if steps != [] {
      var n := |steps|;
      var front := steps[..n - 1];
      var e := steps[n - 1];
      assert Fold(front).Ok? && e.Ok?;
      FoldGet(front, k);
      if e.value.Some? {
        GetSet(Fold(front).value, e.value.value.0, e.value.value.1, k);
      }
    }
  }

  /** Key `k` holds the value of the LAST step naming it, and is absent when none does. */
  lemma FoldLastWins(steps: seq<Step>, k: string)
    requires Fold(steps).Ok?
    ensures var d := Fold(steps).value;
      (d.Get(k).None? <==> forall i :: 0 <= i < |steps| ==> !StepNames(steps[i], k))
      && (d.Get(k).Some? ==>
            exists i :: 0 <= i < |steps| && StepNames(steps[i], k)
              && steps[i].value.value.1 == d.Get(k).value
              && forall j :: i < j < |steps| ==> !StepNames(steps[j], k))
  {
    FoldGet(steps, k);
    var r := LastNaming(steps, k);
    if r >= 0 {
      assert StepNames(steps[r], k) && steps[r].value.value.1 == Fold(steps).value.Get(k).value;
    }
  }

  /** Folded keys are distinct. */
  lemma {:induction false} FoldValid(steps: seq<Step>)
    requires Fold(steps).Ok?
    ensures Fold(steps).value.Valid()
    decreases |steps|
  {
    if steps != [] {
      var front := steps[..|steps| - 1];
      FoldValid(front);
      var e := steps[|steps| - 1];
      if e.value.Some? {
        SetValid(Fold(front).value, e.value.value.0, e.value.value.1);
      }
    }
  }

  /** Every key of the fold is named by some step. */
  lemma {:induction false} FoldKeys(steps: seq<Step>, k: string)
    requires Fold(steps).Ok? && k in Fold(steps).value.Keys()
    ensures exists i :: 0 <= i < |steps| && StepNames(steps[i], k)
  {
    FoldLastWins(steps, k);
  }

  // ---------------------------------------------------------------------
  // The parse, line by line

  /** The log is rejected exactly when one of its lines is, with the first such line's error. */
  lemma ParseFails(lines: seq<string>, variant: Variant)
    ensures Parse(lines, variant).Err? <==> exists i :: 0 <= i < |lines| && Entry(lines[i], variant).Err?
    ensures Parse(lines, variant).Err? ==>
      exists i :: 0 <= i < |lines| && Entry(lines[i], variant) == Err(Parse(lines, variant).error)
        && forall j :: 0 <= j < i ==> Entry(lines[j], variant).Ok?
  {
    FoldFails(Steps(lines, variant));
  }

  /**
   * In a parsed dictionary key `k` holds the value of the LAST line naming
   * `k`, and is absent when no line names it.
   */
  lemma ParseLastWins(lines: seq<string>, variant: Variant, k: string)
    requires Parse(lines, variant).Ok?
    ensures var d := Parse(lines, variant).value;
      (d.Get(k).None? <==> forall i :: 0 <= i < |lines| ==> !StepNames(Entry(lines[i], variant), k))
      && (d.Get(k).Some? ==>
            exists i :: 0 <= i < |lines| && StepNames(Entry(lines[i], variant), k)
              && Entry(lines[i], variant).value.value.1 == d.Get(k).value
              && forall j :: i < j < |lines| ==> !StepNames(Entry(lines[j], variant), k))
  {
    FoldLastWins(Steps(lines, variant), k);
  }

  /** Parsed keys are distinct. */
  lemma ParseValid(lines: seq<string>, variant: Variant)
    requires Parse(lines, variant).Ok?
    ensures Parse(lines, variant).value.Valid()
  {
    FoldValid(Steps(lines, variant));
  }

  /** With the rename rule, a line's entry never keeps "running_time" in another key, and is in seconds. */
  lemma EntryRenames(line: string, skip: bool)
    requires Entry(line, Variant(skip, RenameAndRescaleTime)).Ok?
    requires Entry(line, Variant(skip, RenameAndRescaleTime)).value.Some?
    ensures var kv := Entry(line, Variant(skip, RenameAndRescaleTime)).value.value;
      Contains(kv.0, "running_time") ==> kv.0 == "order_running_time" && kv.1.FloatV?
  {
  }

  /**
   * With the rename rule the only key mentioning "running_time" is
   * "order_running_time", and its value is a float (seconds).
   */
  lemma ParseRenames(lines: seq<string>, skip: bool, k: string)
    requires Parse(lines, Variant(skip, RenameAndRescaleTime)).Ok?
    requires k in Parse(lines, Variant(skip, RenameAndRescaleTime)).value.Keys()
    requires Contains(k, "running_time")
    ensures k == "order_running_time"
    ensures Parse(lines, Variant(skip, RenameAndRescaleTime)).value.Get(k).value.FloatV?
  {
    var variant := Variant(skip, RenameAndRescaleTime);
    var steps := Steps(lines, variant);
    FoldLastWins(steps, k);
    var i :| 0 <= i < |steps| && StepNames(steps[i], k)
              && steps[i].value.value.1 == Fold(steps).value.Get(k).value;
    EntryRenames(lines[i], skip);
  }

  function NonBlank(lines: seq<string>): (r: seq<string>)
    ensures forall i :: 0 <= i < |r| ==> r[i] != ""
  {
    if lines == [] then []
    else NonBlank(lines[..|lines| - 1]) + (if lines[|lines| - 1] == "" then [] else [lines[|lines| - 1]])
  }

  lemma EntrySkip(line: string, rule: TimeRule)
    ensures line == "" ==> Entry(line, Variant(true, rule)) == Ok(None)
    ensures line != "" ==> Entry(line, Variant(true, rule)) == Entry(line, Variant(false, rule))
  {
  }

  /** The steps of the blank-skipping parse, with the skipped lines' steps removed. */
  function Unskipped(steps: seq<Step>): seq<Step>
  {
    if steps == [] then []
    else Unskipped(steps[..|steps| - 1]) + (if steps[|steps| - 1] == Ok(None) then [] else [steps[|steps| - 1]])
  }

  lemma {:induction false} FoldUnskipped(steps: seq<Step>)
    ensures Fold(steps) == Fold(Unskipped(steps))
    decreases |steps|
  {
    if steps != [] {
      var front := steps[..|steps| - 1];
      FoldUnskipped(front);
      var u := Unskipped(steps);
      if steps[|steps| - 1] != Ok(None) {
        assert u == Unskipped(front) + [steps[|steps| - 1]];
        assert u[..|u| - 1] == Unskipped(front);
        assert u[|u| - 1] == steps[|steps| - 1];
      } else {
        assert u == Unskipped(front);
      }
    }
  }

  /** `f` applied to every line, in order. */
  function MapLines(lines: seq<string>, f: string -> Step): (r: seq<Step>)
    ensures |r| == |lines| && forall i :: 0 <= i < |lines| ==> r[i] == f(lines[i])
  {
    if lines == [] then [] else MapLines(lines[..|lines| - 1], f) + [f(lines[|lines| - 1])]
  }

  /** A step function that skips blank lines and is `g` elsewhere keeps, once skips are dropped, the steps of `g` on the non-blank lines. */
  lemma {:induction false} UnskippedMap(lines: seq<string>, f: string -> Step, g: string -> Step)
    requires forall l :: f(l) == if l == "" then Ok(None) else g(l)
    ensures Unskipped(MapLines(lines, f)) == Unskipped(MapLines(NonBlank(lines), g))
    decreases |lines|
  {
    if lines != [] {
      var n := |lines|;
      var front, last := lines[..n - 1], lines[n - 1];
      UnskippedMap(front, f, g);
      var nb := NonBlank(lines);
      if last != "" {
        assert nb == NonBlank(front) + [last];
        assert nb[..|nb| - 1] == NonBlank(front);
      } else {
        assert nb == NonBlank(front);
      }
    }
  }

  lemma StepsMap(lines: seq<string>, variant: Variant)
    ensures Steps(lines, variant) == MapLines(lines, l => Entry(l, variant))
  {
  }

  lemma UnskippedSteps(lines: seq<string>, rule: TimeRule)
    ensures Unskipped(Steps(lines, Variant(true, rule))) == Unskipped(Steps(NonBlank(lines), Variant(false, rule)))
  {
    var f := l => Entry(l, Variant(true, rule));
    var g := l => Entry(l, Variant(false, rule));
    forall l ensures f(l) == if l == "" then Ok(None) else g(l) {
      EntrySkip(l, rule);
    }
    UnskippedMap(lines, f, g);
    StepsMap(lines, Variant(true, rule));
    StepsMap(NonBlank(lines), Variant(false, rule));
  }

  /** Skipping blank lines is the same as parsing the log without them. */
  lemma SkipBlankLines(lines: seq<string>, rule: TimeRule)
    ensures Parse(lines, Variant(true, rule)) == Parse(NonBlank(lines), Variant(false, rule))
  {
    FoldUnskipped(Steps(lines, Variant(true, rule)));
    FoldUnskipped(Steps(NonBlank(lines), Variant(false, rule)));
    UnskippedSteps(lines, rule);
  }

  /** Without the skip, a blank line rejects the whole log. */
  lemma BlankLineFails(lines: seq<string>, rule: TimeRule, i: nat)
    requires i < |lines| && lines[i] == ""
    ensures Parse(lines, Variant(false, rule)).Err?
  {
    assert IndexOf("", ':') == 0;
    assert Entry(lines[i], Variant(false, rule)).Err?;
    ParseFails(lines, Variant(false, rule));
  }
}
