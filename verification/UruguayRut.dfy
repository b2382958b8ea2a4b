/** Structural validation of the Uruguayan RUT: twelve digits closed by a modulus-11 check digit. */
module UruguayRut {
  import opened Wrappers
  import opened Text

  const CHECK_DIGIT_WEIGHTS: seq<int> := [4, 3, 2, 9, 8, 7, 6, 5, 4, 3, 2]
  const RUT_LENGTH := 12

  // ---------------------------------------------------------------- the optional label

  predicate IsLabelSeparator(c: char) {
    IsSpace(c) || c == ':' || c == '.' || c == '-'
  }

  function SkipLetter(s: string, letter: char): Option<string> {
    if s != "" && LowerChar(s[0]) == letter then Some(s[1..]) else None
  }

  function SkipDot(s: string): string {
    if s != "" && s[0] == '.' then s[1..] else s
  }

  function SkipSeparators(s: string): (r: string)
    ensures |r| <= |s|
  {
    if s != "" && IsLabelSeparator(s[0]) then SkipSeparators(s[1..]) else s
  }

  /** What follows a match of r\.?u\.?t\.?[\s:.\-]* at the start, ignoring case. */
  function AfterLabel(s: string): (r: Option<string>)
    ensures r.Some? ==> |r.value| + 3 <= |s|
  {
    var r := SkipLetter(s, 'r');
    if r.None? then None
    else
      var u := SkipLetter(SkipDot(r.value), 'u');
      if u.None? then None
      else
        var t := SkipLetter(SkipDot(u.value), 't');
        if t.None? then None else Some(SkipSeparators(SkipDot(t.value)))
  }

  function StripRutPrefix(value: string): string {
    var trimmed := Strip(value);
    var rest := AfterLabel(trimmed);
    if rest.Some? then rest.value else trimmed
  }

  /** The bare digits, label and formatting removed. */
  function RutDigits(value: string): (digits: string)
    ensures AllDigits(digits)
  {
    Keep(StripRutPrefix(value), c => IsDigit(c))
  }

  // ---------------------------------------------------------------- the check digit

  /** Weighted sum of the first n digits. */
  function WeightedSum(digits: string, weights: seq<int>, n: nat): int
    requires n <= |digits| && n <= |weights| && AllDigits(digits)
  {
    if n == 0 then 0
    else WeightedSum(digits, weights, n - 1) + DigitValue(digits[n - 1]) * weights[n - 1]
  }

  /** Python raises ValueError on anything but eleven digits. */
  function ComputeRutCheckDigit(first: string): (r: Result<int, ()>)
    ensures r.Ok? <==> |first| == 11 && AllDigits(first)
    ensures r.Ok? ==> 0 <= r.value <= 10 && (WeightedSum(first, CHECK_DIGIT_WEIGHTS, 11) + r.value) % 11 == 0
  {
    if |first| != |CHECK_DIGIT_WEIGHTS| || !AllDigits(first) then Err(())
    else Ok((11 - WeightedSum(first, CHECK_DIGIT_WEIGHTS, 11) % 11) % 11)
  }

  predicate IsValidUruguayRut(value: string) {
    var digits := RutDigits(value);
    |digits| == RUT_LENGTH && ComputeRutCheckDigit(digits[..11]) == Ok(DigitValue(digits[11]))
  }

  // ---------------------------------------------------------------- a weighted code

  /** The check digit joins the code with weight 1. */
  const CODE_WEIGHTS: seq<int> := CHECK_DIGIT_WEIGHTS + [1]

  function CodeSum(digits: string): int
    requires |digits| == RUT_LENGTH && AllDigits(digits)
  {
    WeightedSum(digits, CODE_WEIGHTS, RUT_LENGTH)
  }

  lemma {:induction false} SumOfPrefix(digits: string, n: nat)
    requires |digits| == RUT_LENGTH && AllDigits(digits) && n <= 11
    ensures WeightedSum(digits[..11], CHECK_DIGIT_WEIGHTS, n) == WeightedSum(digits, CODE_WEIGHTS, n)
  {
    if n > 0 {
      SumOfPrefix(digits, n - 1);
    }
  }

  /** A RUT is accepted exactly when its twelve digits have a weighted sum divisible by 11. */
  lemma {:induction false} ValidIffDivisible(value: string)
    ensures IsValidUruguayRut(value)
       <==> |RutDigits(value)| == RUT_LENGTH && CodeSum(RutDigits(value)) % 11 == 0
  {
    var digits := RutDigits(value);
    if |digits| == RUT_LENGTH {
      SumOfPrefix(digits, 11);
      var s, d := WeightedSum(digits[..11], CHECK_DIGIT_WEIGHTS, 11), DigitValue(digits[11]);
      assert CodeSum(digits) == s + d;
      CheckCompletesSum(s, d);
    }
  }

  lemma {:induction false} SumStep(digits: string, n: nat, sum: int, v: int, w: int)
    requires |digits| == RUT_LENGTH && AllDigits(digits) && n < RUT_LENGTH
    requires WeightedSum(digits, CODE_WEIGHTS, n) == sum && DigitValue(digits[n]) == v && CODE_WEIGHTS[n] == w
    ensures WeightedSum(digits, CODE_WEIGHTS, n + 1) == sum + v * w
  {
  }

  /** The weights, written out. */
  lemma {:induction false} ValidIffWeightedSum(value: string, v: seq<int>)
    requires |v| == |RutDigits(value)| && forall i :: 0 <= i < |v| ==> v[i] == DigitValue(RutDigits(value)[i])
    ensures IsValidUruguayRut(value)
       <==> && |v| == 12
            && (4 * v[0] + 3 * v[1] + 2 * v[2] + 9 * v[3] + 8 * v[4] + 7 * v[5] + 6 * v[6] + 5 * v[7] + 4 * v[8] + 3 * v[9]
                + 2 * v[10] + v[11]) % 11 == 0
  {
    ValidIffDivisible(value);
    if |v| == 12 {
      SumWrittenOut(RutDigits(value), v);
    }
  }

  lemma {:induction false} SumWrittenOut(digits: string, v: seq<int>)
    requires |digits| == |v| == 12 && AllDigits(digits) && forall i :: 0 <= i < 12 ==> v[i] == DigitValue(digits[i])
    ensures CodeSum(digits) == 4 * v[0] + 3 * v[1] + 2 * v[2] + 9 * v[3] + 8 * v[4] + 7 * v[5] + 6 * v[6] + 5 * v[7]
                               + 4 * v[8] + 3 * v[9] + 2 * v[10] + v[11]
  {
    var s6 := HalfSum(digits, v);
    SumStep(digits, 6, s6, v[6], 6);
    SumStep(digits, 7, s6 + v[6] * 6, v[7], 5);
    SumStep(digits, 8, s6 + v[6] * 6 + v[7] * 5, v[8], 4);
    SumStep(digits, 9, s6 + v[6] * 6 + v[7] * 5 + v[8] * 4, v[9], 3);
    SumStep(digits, 10, s6 + v[6] * 6 + v[7] * 5 + v[8] * 4 + v[9] * 3, v[10], 2);
    SumStep(digits, 11, s6 + v[6] * 6 + v[7] * 5 + v[8] * 4 + v[9] * 3 + v[10] * 2, v[11], 1);
  }

  lemma {:induction false} HalfSum(digits: string, v: seq<int>) returns (sum: int)
    requires |digits| == |v| == 12 && AllDigits(digits) && forall i :: 0 <= i < 12 ==> v[i] == DigitValue(digits[i])
    ensures sum == WeightedSum(digits, CODE_WEIGHTS, 6) == 4 * v[0] + 3 * v[1] + 2 * v[2] + 9 * v[3] + 8 * v[4] + 7 * v[5]
  {
    SumStep(digits, 0, 0, v[0], 4);
    SumStep(digits, 1, v[0] * 4, v[1], 3);
    SumStep(digits, 2, v[0] * 4 + v[1] * 3, v[2], 2);
    SumStep(digits, 3, v[0] * 4 + v[1] * 3 + v[2] * 2, v[3], 9);
    SumStep(digits, 4, v[0] * 4 + v[1] * 3 + v[2] * 2 + v[3] * 9, v[4], 8);
    SumStep(digits, 5, v[0] * 4 + v[1] * 3 + v[2] * 2 + v[3] * 9 + v[4] * 8, v[5], 7);
    sum := WeightedSum(digits, CODE_WEIGHTS, 6);
  }

  lemma {:induction false} CheckCompletesSum(s: int, d: int)
    requires 0 <= d <= 9
    ensures (11 - s % 11) % 11 == d <==> (s + d) % 11 == 0
  {
  }

  lemma {:induction false} SumAfterChange(digits: string, k: nat, c: char, weights: seq<int>, n: nat)
    requires AllDigits(digits) && IsDigit(c) && k < |digits| && n <= |digits| && n <= |weights| && k < |weights|
    ensures AllDigits(digits[k := c])
    ensures WeightedSum(digits[k := c], weights, n)
         == WeightedSum(digits, weights, n) + if k < n then (DigitValue(c) - DigitValue(digits[k])) * weights[k] else 0
  {
    if n > 0 {
      SumAfterChange(digits, k, c, weights, n - 1);
      if k == n - 1 {
        DifferenceTimes(DigitValue(c), DigitValue(digits[k]), weights[k]);
      }
    }
  }

  lemma {:induction false} DifferenceTimes(a: int, b: int, w: int)
    ensures (a - b) * w == a * w - b * w
  {
  }

  /** 11 is prime: a digit difference times a weight below 11 is never a multiple of it. */
  lemma {:induction false} NoMultiple(x: int, w: int)
    requires -9 <= x <= 9 && x != 0
    requires w == -7 || 1 <= w <= 9
    ensures (x * w) % 11 != 0
  {
    var y, v := if x < 0 then -x else x, if w < 0 then -w else w;
    NoMultipleAbove(y, v);
    SignedProduct(x, w, y, v);
    NegativeRemainder(y * v);
  }

  lemma {:induction false} NoMultipleAbove(x: int, w: int)
    requires 1 <= x <= 9 && 1 <= w <= 9
    ensures (x * w) % 11 != 0
  {
    if w == 1 { assert x * w == x; }
    else if w == 2 { assert x * w == 2 * x; }
    else if w == 3 { assert x * w == 3 * x; }
    else if w == 4 { assert x * w == 4 * x; }
    else if w == 5 { assert x * w == 5 * x; }
    else if w == 6 { assert x * w == 6 * x; }
    else if w == 7 { assert x * w == 7 * x; }
    else if w == 8 { assert x * w == 8 * x; }
    else { assert x * w == 9 * x; }
  }

  lemma {:induction false} SignedProduct(x: int, w: int, y: int, v: int)
    requires (x == y || x == -y) && (w == v || w == -v)
    ensures x * w == y * v || x * w == -(y * v)
  {
  }

  lemma {:induction false} NegativeRemainder(z: int)
    requires z % 11 != 0
    ensures (-z) % 11 != 0
  {
  }

  lemma {:induction false} ChangeShiftsSum(digits: string, k: nat, c: char)
    requires |digits| == RUT_LENGTH && AllDigits(digits) && CodeSum(digits) % 11 == 0
    requires k < RUT_LENGTH && IsDigit(c) && c != digits[k]
    ensures AllDigits(digits[k := c]) && CodeSum(digits[k := c]) % 11 != 0
  {
    SumAfterChange(digits, k, c, CODE_WEIGHTS, RUT_LENGTH);
    var x := DigitValue(c) - DigitValue(digits[k]);
    NoMultiple(x, CODE_WEIGHTS[k]);
    Shifted(CodeSum(digits), x * CODE_WEIGHTS[k]);
  }

  lemma {:induction false} Shifted(s: int, delta: int)
    requires s % 11 == 0 && delta % 11 != 0
    ensures (s + delta) % 11 != 0
  {
  }

  /** However the two are written, a value with one digit of a valid RUT changed is rejected. */
  lemma {:induction false} SingleErrorDetected(value: string, other: string, k: nat, c: char)
    requires IsValidUruguayRut(value) && k < RUT_LENGTH && IsDigit(c) && c != RutDigits(value)[k]
    requires RutDigits(other) == RutDigits(value)[k := c]
    ensures !IsValidUruguayRut(other)
  {
    ValidIffDivisible(value);
    ChangeShiftsSum(RutDigits(value), k, c);
    ValidIffDivisible(other);
  }

  lemma {:induction false} SwapShiftsSum(digits: string, k: nat)
    requires |digits| == RUT_LENGTH && AllDigits(digits) && CodeSum(digits) % 11 == 0
    requires k + 1 < RUT_LENGTH && digits[k] != digits[k + 1]
    ensures var swapped := digits[k := digits[k + 1]][k + 1 := digits[k]];
            AllDigits(swapped) && CodeSum(swapped) % 11 != 0
  {
    var once := digits[k := digits[k + 1]];
    SumAfterChange(digits, k, digits[k + 1], CODE_WEIGHTS, RUT_LENGTH);
    SumAfterChange(once, k + 1, digits[k], CODE_WEIGHTS, RUT_LENGTH);
    NeighbouringWeights(k);
    SwapShifts(CodeSum(digits), DigitValue(digits[k]), DigitValue(digits[k + 1]), CODE_WEIGHTS[k], CODE_WEIGHTS[k + 1]);
  }

  /** However the two are written, a value with two unequal neighbours of a valid RUT swapped is rejected. */
  lemma {:induction false} SwapDetected(value: string, other: string, k: nat)
    requires IsValidUruguayRut(value) && k + 1 < RUT_LENGTH
    requires var digits := RutDigits(value);
             digits[k] != digits[k + 1] && RutDigits(other) == digits[k := digits[k + 1]][k + 1 := digits[k]]
    ensures !IsValidUruguayRut(other)
  {
    ValidIffDivisible(value);
    SwapShiftsSum(RutDigits(value), k);
    ValidIffDivisible(other);
  }

  lemma {:induction false} NeighbouringWeights(k: nat)
    requires k + 1 < RUT_LENGTH
    ensures CODE_WEIGHTS[k] - CODE_WEIGHTS[k + 1] in {1, -7}
  {
  }

  lemma {:induction false} SwapShifts(s: int, a: int, b: int, v: int, w: int)
    requires s % 11 == 0 && 0 <= a <= 9 && 0 <= b <= 9 && a != b && v - w in {1, -7}
    ensures (s + (b - a) * v + (a - b) * w) % 11 != 0
  {
    NoMultiple(b - a, v - w);
    Shifted(s, (b - a) * (v - w));
    Regrouped(b - a, v, w);
  }

  lemma {:induction false} Regrouped(x: int, v: int, w: int)
    ensures x * v + (-x) * w == x * (v - w)
  {
  }

  // ---------------------------------------------------------------- display form

  function FormatUruguayRut(value: string): string {
    var digits := RutDigits(value);
    DigitsOfDigits(digits);
    if IsValidUruguayRut(digits)
    then Grouped(digits, '-')
    else value
  }

  /** Text that begins with a digit carries no label. */
  lemma {:induction false} NoLabel(s: string)
    requires s != "" && IsDigit(s[0]) && !IsSpace(s[|s| - 1])
    ensures StripRutPrefix(s) == s
  {
    StripTrimmed(s);
    NoFirstLetter(s);
  }

  lemma {:induction false} NoFirstLetter(s: string)
    requires s != "" && IsDigit(s[0])
    ensures AfterLabel(s).None?
  {
    assert LowerChar(s[0]) == s[0];
  }

  lemma {:induction false} DigitsOfDigits(digits: string)
    requires AllDigits(digits)
    ensures RutDigits(digits) == digits
  {
    if digits == "" {
      StripTrimmed(digits);
    } else {
      NoLabel(digits);
    }
    KeepEverything(StripRutPrefix(digits), c => IsDigit(c));
  }

  /** Twelve digits in the groups of the display form. */
  function Grouped(digits: string, separator: char): string
    requires |digits| == RUT_LENGTH
  {
    digits[..2] + [separator] + digits[2..8] + [separator] + digits[8..11] + [separator] + [digits[11]]
  }

  lemma {:induction false} KeepGroup(group: string, separator: char, rest: string, kept: char -> bool)
    requires !kept(separator) && forall i :: 0 <= i < |group| ==> kept(group[i])
    ensures Keep(group + [separator] + rest, kept) == group + Keep(rest, kept)
  {
    var gap := [separator];
    KeepConcat(group + gap, rest, kept);
    KeepConcat(group, gap, kept);
    KeepEverything(group, kept);
    assert gap[1..] == "" && Keep(gap, kept) == "";
  }

  /** Dropping the separators gives back the digits, whatever else is dropped with them. */
  lemma {:induction false} KeepUngrouped(digits: string, separator: char, kept: char -> bool)
    requires |digits| == RUT_LENGTH && AllDigits(digits)
    requires !kept(separator) && forall c :: IsDigit(c) ==> kept(c)
    ensures Keep(Grouped(digits, separator), kept) == digits
  {
    var last := [digits[11]];
    var third := digits[8..11] + [separator] + last;
    var second := digits[2..8] + [separator] + third;
    var first := digits[..2] + [separator] + second;
    assert Grouped(digits, separator) == first;
    KeepEverything(last, kept);
    KeepGroup(digits[8..11], separator, last, kept);
    KeepGroup(digits[2..8], separator, third, kept);
    KeepGroup(digits[..2], separator, second, kept);
    assert digits == digits[..2] + (digits[2..8] + (digits[8..11] + last));
  }

  /** Formatting a valid RUT keeps its digits and its validity; anything else is returned untouched. */
  lemma {:induction false} FormattingKeepsTheRut(value: string)
    ensures RutDigits(FormatUruguayRut(value)) == RutDigits(value)
    ensures IsValidUruguayRut(FormatUruguayRut(value)) <==> IsValidUruguayRut(value)
    ensures !IsValidUruguayRut(value) ==> FormatUruguayRut(value) == value
  {
    var digits := RutDigits(value);
    DigitsOfDigits(digits);
    var f := FormatUruguayRut(value);
    if IsValidUruguayRut(value) {
      NoLabel(f);
      KeepUngrouped(digits, '-', c => IsDigit(c));
    }
  }

  /** What formatting a valid RUT produces, and that it carries no label. */
  lemma {:induction false} DisplayForm(value: string)
    requires IsValidUruguayRut(value)
    ensures var digits := RutDigits(value);
            && FormatUruguayRut(value) == Grouped(digits, '-')
            && StripRutPrefix(FormatUruguayRut(value)) == FormatUruguayRut(value)
  {
    DigitsOfDigits(RutDigits(value));
    NoLabel(FormatUruguayRut(value));
  }

  /** A trimmed, labelled value is stripped to what follows its label. */
  lemma {:induction false} LabelStripped(s: string, rest: string)
    requires s != "" && !IsSpace(s[0]) && !IsSpace(s[|s| - 1])
    requires AfterLabel(s) == Some(rest)
    ensures StripRutPrefix(s) == rest
  {
    StripTrimmed(s);
  }
}
