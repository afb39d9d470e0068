/**
 * The pieces the three table builders share: `is_number`, the `\,` digit
 * grouping done with a regular expression on the reversed string, and
 * `\bfseries` highlighting of a column minimum.
 */
module Latex {
  import opened Text

  /** The first index at or after `i` that does not hold an ASCII digit. */
  function DigitRunEnd(s: string, i: nat): (k: nat)
    requires i <= |s|
    ensures i <= k <= |s| && AllDigits(s[i..k]) && (k < |s| ==> !IsDigit(s[k]))
    decreases |s| - i
  {
    if i == |s| || !IsDigit(s[i]) then i
    else
      var k := DigitRunEnd(s, i + 1);
      assert s[i..k] == [s[i]] + s[i + 1..k];
      k
  }

  /** `\d*\.` matches at `i`: the maximal digit run there is followed by a dot. */
  predicate DotAfterDigits(s: string, i: nat)
    requires i <= |s|
  {
    DigitRunEnd(s, i) < |s| && s[DigitRunEnd(s, i)] == '.'
  }

  predicate IsSign(c: char) { c == '+' || c == '-' }

  predicate IsDigitOrMinus(c: char) { c == '-' || IsDigit(c) }

  /** The first alternative, `^[-+]?[-0-9]\d*\.\d*`: a prefix of the string suffices. */
  predicate FirstAlternative(s: string)
  {
    || (|s| >= 1 && IsDigitOrMinus(s[0]) && DotAfterDigits(s, 1))
    || (|s| >= 2 && IsSign(s[0]) && IsDigitOrMinus(s[1]) && DotAfterDigits(s, 2))
  }

  /** `\.?[0-9]\d*` up to the end of the string. */
  predicate UnsignedTail(s: string)
  {
    if |s| >= 1 && s[0] == '.' then |s| >= 2 && AllDigits(s[1..]) else |s| >= 1 && AllDigits(s)
  }

  /** The second alternative, `[-+]?\.?[0-9]\d*$`, matched from the start by `re.match`. */
  predicate SecondAlternative(s: string)
  {
    if |s| >= 1 && IsSign(s[0]) then UnsignedTail(s[1..]) else UnsignedTail(s)
  }

  /** `is_number`: `re.match` of `^[-+]?[-0-9]\d*\.\d*|[-+]?\.?[0-9]\d*$` (with `\d` as ASCII digits). */
  predicate IsNumber(s: string)
  {
    FirstAlternative(s) || SecondAlternative(s)
  }

  /** `str` of an integer is a number; a digit string after a dot keeps it one. */
  lemma IntStringIsNumber(i: int, fraction: string)
    requires AllDigits(fraction)
    ensures IsNumber(IntToString(i))
    ensures IsNumber(IntToString(i) + "." + fraction)
  {
    var s := IntToString(i);
    var t := s + "." + fraction;
    IntToStringValue(i);
    if i >= 0 {
      assert AllDigits(t[1..|s|]);
      DigitRunOver(t, 1, |s|);
      assert FirstAlternative(t);
    } else {
      assert s[1..] == NatToString(-i);
      assert AllDigits(t[2..|s|]) && IsDigit(t[1]);
      DigitRunOver(t, 2, |s|);
      assert FirstAlternative(t);
      assert SecondAlternative(s) by {
        assert UnsignedTail(s[1..]);
      }
    }
  }

  lemma {:induction false} DigitRunOver(s: string, i: nat, k: nat)
    requires i <= k < |s| && AllDigits(s[i..k]) && !IsDigit(s[k])
    ensures DigitRunEnd(s, i) == k
    decreases k - i
  {
    if i < k {
      assert s[i] == s[i..k][0];
      assert s[i + 1..k] == s[i..k][1..];
      DigitRunOver(s, i + 1, k);
    }
  }

  /** Examples of the pattern: integers and decimals are numbers, algorithm names are not. */
  lemma IsNumberExamples()
    ensures IsNumber("42") && IsNumber("1.5") && IsNumber("-7") && IsNumber(".5") && IsNumber("12.")
    ensures !IsNumber("F3") && !IsNumber("nan") && !IsNumber("K2.11") && !IsNumber("") && !IsNumber("1e-05")
  {
    assert DigitRunEnd("1.5", 1) == 1;
    assert DigitRunEnd("12.", 1) == 2;
    assert DigitRunEnd("1e-05", 1) == 1;
  }

  function Reverse(s: string): (r: string)
    ensures |r| == |s| && forall i :: 0 <= i < |s| ==> r[i] == s[|s| - 1 - i]
  {
    if s == [] then [] else Reverse(s[1..]) + [s[0]]
  }

  predicate IsGroupOfThree(r: string)
  {
    |r| >= 4 && IsDigit(r[0]) && IsDigit(r[1]) && IsDigit(r[2]) && IsDigit(r[3])
  }

  /**
   * `re.sub('([0-9]{3}(?=[0-9]))', '\g<0>,\\', r)`: scanning left to right, three
   * digits followed by a fourth get ",\" appended; the scan resumes after them.
   */
  function GroupReversed(r: string): (g: string)
    decreases |r|
  {
    if r == [] then []
    else if IsGroupOfThree(r) then r[..3] + [',', '\\'] + GroupReversed(r[3..])
    else [r[0]] + GroupReversed(r[1..])
  }

  /** The formatted value: `\,` before every group of three digits counted from the right. */
  function GroupDigits(s: string): string
  {
    Reverse(GroupReversed(Reverse(s)))
  }

  /** The characters that remain when the inserted `\,` separators are deleted. */
  function Strip(s: string): (r: string)
    ensures |r| <= |s|
  {
    if s == [] then [] else (if s[0] == ',' || s[0] == '\\' then [] else [s[0]]) + Strip(s[1..])
  }

  lemma {:induction false} StripConcat(a: string, b: string)
    ensures Strip(a + b) == Strip(a) + Strip(b)
  {
    if a != [] {
      assert (a + b)[1..] == a[1..] + b;
      StripConcat(a[1..], b);
    } else {
      assert a + b == b;
    }
  }

  lemma {:induction false} StripReverse(s: string)
    ensures Strip(Reverse(s)) == Reverse(Strip(s))
  {
    if s != [] {
      StripReverse(s[1..]);
      StripConcat(Reverse(s[1..]), [s[0]]);
      var h := if s[0] == ',' || s[0] == '\\' then [] else [s[0]];
      assert Strip([s[0]]) == h;
      ReverseConcat(h, Strip(s[1..]));
    }
  }

  lemma {:induction false} ReverseConcat(a: string, b: string)
    ensures Reverse(a + b) == Reverse(b) + Reverse(a)
  {
    if a != [] {
      assert (a + b)[1..] == a[1..] + b;
      ReverseConcat(a[1..], b);
    }
  }

  lemma {:induction false} ReverseReverse(s: string)
    ensures Reverse(Reverse(s)) == s
  {
  }

  lemma {:induction false} StripGroupReversed(r: string)
    ensures Strip(GroupReversed(r)) == Strip(r)
    decreases |r|
  {
    if r != [] {
      if IsGroupOfThree(r) {
        var head, tail := r[..3], GroupReversed(r[3..]);
        StripGroupReversed(r[3..]);
        StripConcat(head + [',', '\\'], tail);
        StripConcat(head, [',', '\\']);
        assert Strip([',', '\\']) == [];
        assert r == head + r[3..];
        StripConcat(head, r[3..]);
      } else {
        StripGroupReversed(r[1..]);
        assert r == [r[0]] + r[1..];
        StripConcat([r[0]], r[1..]);
        StripConcat([r[0]], GroupReversed(r[1..]));
      }
    }
  }

  /** Deleting the separators gives back a value that held no ',' or '\'. */
  lemma GroupDigitsStrip(s: string)
    requires forall i :: 0 <= i < |s| ==> s[i] != ',' && s[i] != '\\'
    ensures Strip(GroupDigits(s)) == s
  {
    StripReverse(GroupReversed(Reverse(s)));
    StripGroupReversed(Reverse(s));
    StripReverse(s);
    assert Strip(s) == s by { StripNoop(s); }
    ReverseReverse(s);
  }

  lemma {:induction false} StripNoop(s: string)
    requires forall i :: 0 <= i < |s| ==> s[i] != ',' && s[i] != '\\'
    ensures Strip(s) == s
  {
    if s != [] {
      StripNoop(s[1..]);
    }
  }

  /** A run of `n >= 1` digits gets one separator per full group of three left of the last group. */
  lemma {:induction false} GroupReversedDigits(r: string)
    requires |r| >= 1 && AllDigits(r)
    ensures |GroupReversed(r)| == |r| + 2 * ((|r| - 1) / 3)
    decreases |r|
  {
    if |r| >= 4 {
      GroupReversedDigits(r[3..]);
    } else if |r| > 1 {
      NoGroupShort(r);
    }
  }

  lemma {:induction false} NoGroupShort(r: string)
    requires |r| < 4
    ensures GroupReversed(r) == r
    decreases |r|
  {
    if r != [] {
      NoGroupShort(r[1..]);
      assert r == [r[0]] + r[1..];
    }
  }

  lemma GroupDigitsLength(s: string)
    requires |s| >= 1 && AllDigits(s)
    ensures |GroupDigits(s)| == |s| + 2 * ((|s| - 1) / 3)
  {
    GroupReversedDigits(Reverse(s));
  }

  /** Four digits get one separator; a short fraction is left alone. */
  lemma GroupDigitsExamples()
    ensures GroupDigits("1234") == @"1\,234"
    ensures GroupDigits("12.5") == "12.5"
  {
    assert Reverse("1234") == "4321";
    assert GroupReversed("1") == "1";
    assert GroupReversed("4321") == "432" + [',', '\\'] + "1";
    assert Reverse("432" + [',', '\\'] + "1") == @"1\,234";
    assert Reverse("12.5") == "5.21";
    NoGroupShort("21");
    assert GroupReversed("5.21") == "5.21";
  }

  /** `\bfseries{` value `}`. */
  function Bold(s: string): (r: string)
    ensures |r| == |s| + 11 && r[..10] == @"\bfseries{" && r[|r| - 1] == '}'
  {
    @"\bfseries{" + s + "}"
  }
}
