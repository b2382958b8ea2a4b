/** Normalised customer fields: comparison keys that are never written back. ASCII text only. */
module CustomerKeys {
  import opened Wrappers
  import opened Text
  import opened UruguayRut

  predicate IsTaxIdPunctuation(c: char) {
    IsSpace(c) || c == '.' || c == '-' || c == '/'
  }

  /** The key of a tax id: label, separators and case removed. (Accents do not occur in ASCII.) */
  function NormalizeTaxId(value: string): string {
    Lower(Strip(DropPunctuation(StripRutPrefix(value))))
  }

  function DropPunctuation(s: string): (r: string)
    ensures |r| <= |s| && forall i :: 0 <= i < |r| ==> !IsTaxIdPunctuation(r[i])
  {
    Keep(s, c => !IsTaxIdPunctuation(c))
  }

  function NormalizeCustomerEmail(value: string): string {
    Lower(Strip(value))
  }

  /** Only digits and '+' count, and an international "00" is written "+". */
  function NormalizeCustomerPhone(value: string): string {
    var stripped := Keep(Strip(value), c => IsDigit(c) || c == '+');
    if StartsWith(stripped, "00") then "+" + stripped[2..] else stripped
  }

  function SkipSpaces(s: string): (r: string)
    ensures |r| <= |s| && (r == "" || !IsSpace(r[0]))
  {
    if s != "" && IsSpace(s[0]) then SkipSpaces(s[1..]) else s
  }

  /** Each run of white space becomes one blank. */
  function CollapseSpaces(s: string): string
    decreases |s|
  {
    if s == "" then ""
    else if IsSpace(s[0]) then " " + CollapseSpaces(SkipSpaces(s[1..]))
    else [s[0]] + CollapseSpaces(s[1..])
  }

  function NormalizeCustomerName(value: string): string {
    Lower(CollapseSpaces(Strip(value)))
  }

  // ---------------------------------------------------------------- tax ids

  predicate NoPunctuation(s: string) {
    forall i :: 0 <= i < |s| ==> !IsTaxIdPunctuation(s[i])
  }

  predicate LowerCase(s: string) {
    forall i :: 0 <= i < |s| ==> LowerChar(s[i]) == s[i]
  }

  lemma {:induction false} NothingToDrop(s: string)
    requires NoPunctuation(s)
    ensures DropPunctuation(s) == s && Strip(s) == s
  {
    KeepEverything(s, c => !IsTaxIdPunctuation(c));
    StripTrimmed(s);
  }

  lemma {:induction false} LowerIsLower(s: string)
    ensures LowerCase(Lower(s))
    ensures NoPunctuation(s) ==> NoPunctuation(Lower(s))
    ensures LowerCase(s) ==> Lower(s) == s
  {
  }

  /** A key is what remains of the value after its label, in lower case. */
  lemma {:induction false} KeyOf(value: string)
    ensures NormalizeTaxId(value) == Lower(DropPunctuation(StripRutPrefix(value)))
    ensures NoPunctuation(NormalizeTaxId(value)) && LowerCase(NormalizeTaxId(value))
  {
    var bare := DropPunctuation(StripRutPrefix(value));
    NothingToDrop(bare);
    LowerIsLower(bare);
  }

  /** A clean key is read as labelled exactly when it begins with "rut". */
  lemma {:induction false} LabelOfKey(key: string)
    requires NoPunctuation(key) && LowerCase(key)
    ensures AfterLabel(key).Some? <==> StartsWith(key, "rut")
  {
    if key != "" && key[0] == 'r' {
      var u := key[1..];
      assert SkipDot(u) == u;
      if u != "" && u[0] == 'u' {
        var t := u[1..];
        assert SkipDot(t) == t;
      }
    }
  }

  /** The text begins with this lower-case word, punctuation and case aside. */
  predicate Spells(s: string, word: string) {
    word == "" || (s != "" && if IsTaxIdPunctuation(s[0]) then Spells(s[1..], word)
                              else LowerChar(s[0]) == word[0] && Spells(s[1..], word[1..]))
  }

  lemma {:induction false} DropHead(s: string)
    requires s != ""
    ensures Lower(DropPunctuation(s))
         == if IsTaxIdPunctuation(s[0]) then Lower(DropPunctuation(s[1..]))
            else [LowerChar(s[0])] + Lower(DropPunctuation(s[1..]))
  {
    var rest := DropPunctuation(s[1..]);
    assert DropPunctuation(s) == if IsTaxIdPunctuation(s[0]) then rest else [s[0]] + rest;
    LowerHead(s[0], rest);
  }

  lemma {:induction false} LowerHead(c: char, rest: string)
    ensures Lower([c] + rest) == [LowerChar(c)] + Lower(rest)
  {
  }

  lemma {:induction false} StartsWithHead(c: char, rest: string, word: string)
    requires word != ""
    ensures StartsWith([c] + rest, word) <==> c == word[0] && StartsWith(rest, word[1..])
  {
    assert word == [word[0]] + word[1..];
  }

  lemma {:induction false} SpellsIff(s: string, word: string)
    ensures Spells(s, word) <==> StartsWith(Lower(DropPunctuation(s)), word)
  {
    if s != "" && word != "" {
      DropHead(s);
      if IsTaxIdPunctuation(s[0]) {
        SpellsIff(s[1..], word);
      } else {
        SpellsIff(s[1..], word[1..]);
        StartsWithHead(LowerChar(s[0]), Lower(DropPunctuation(s[1..])), word);
      }
    }
  }

  /** Normalising twice is normalising once exactly when what follows the label does not itself spell "rut". */
  lemma {:induction false} NormalizingTwiceIff(value: string)
    ensures NormalizeTaxId(NormalizeTaxId(value)) == NormalizeTaxId(value) <==> !Spells(StripRutPrefix(value), "rut")
  {
    var key := NormalizeTaxId(value);
    SpellsIff(StripRutPrefix(value), "rut");
    KeyOf(value);
    TwiceByKey(key);
  }

  lemma {:induction false} TwiceByKey(key: string)
    requires NoPunctuation(key) && LowerCase(key)
    ensures NormalizeTaxId(key) == key <==> !StartsWith(key, "rut")
  {
    KeyOf(key);
    NothingToDrop(key);
    LabelOfKey(key);
    LowerIsLower(key);
  }

  lemma {:induction false} DigitsAreClean(digits: string)
    requires AllDigits(digits)
    ensures NoPunctuation(digits) && LowerCase(digits)
  {
  }

  /** A digit string is its own key. */
  lemma {:induction false} KeyOfDigits(digits: string)
    requires AllDigits(digits)
    ensures NormalizeTaxId(digits) == digits
  {
    KeyOf(digits);
    DigitsAreClean(digits);
    NothingToDrop(digits);
    LowerIsLower(digits);
    if digits != "" {
      NoLabel(digits);
    }
  }

  /** Digits, and the separators a tax-id key drops. */
  predicate OnlyDigitsAndPunctuation(s: string) {
    forall i :: 0 <= i < |s| ==> IsDigit(s[i]) || IsTaxIdPunctuation(s[i])
  }

  /**
   The key of a value is the digits a RUT is validated by exactly when nothing but digits and tax-id
   punctuation follows its label. Validation drops every other character, the key does not.
   */
  lemma {:induction false} KeyIsItsDigitsIff(value: string)
    ensures NormalizeTaxId(value) == RutDigits(value) <==> OnlyDigitsAndPunctuation(StripRutPrefix(value))
  {
    var bare := StripRutPrefix(value);
    KeyOf(value);
    SameLengthIff(bare, RutDigits(value));
    if OnlyDigitsAndPunctuation(bare) {
      KeepSame(bare, c => IsDigit(c), c => !IsTaxIdPunctuation(c));
      DigitsAreClean(RutDigits(value));
      LowerIsLower(RutDigits(value));
    }
  }

  lemma {:induction false} SameLengthIff(bare: string, digits: string)
    requires digits == Keep(bare, c => IsDigit(c))
    ensures |digits| == |Lower(DropPunctuation(bare))| <==> OnlyDigitsAndPunctuation(bare)
  {
    KeepMore(bare, c => IsDigit(c), c => !IsTaxIdPunctuation(c));
  }

  /** A key consists of digits exactly when nothing but digits and tax-id punctuation follows the label. */
  lemma {:induction false} KeyIsAllDigitsIff(value: string)
    ensures AllDigits(NormalizeTaxId(value)) <==> OnlyDigitsAndPunctuation(StripRutPrefix(value))
  {
    KeyOf(value);
    DigitsBelowIff(DropPunctuation(StripRutPrefix(value)));
    KeptDigitsIff(StripRutPrefix(value));
  }

  lemma {:induction false} DigitsBelowIff(s: string)
    ensures AllDigits(Lower(s)) <==> AllDigits(s)
  {
    assert forall i :: 0 <= i < |s| ==> (IsDigit(Lower(s)[i]) <==> IsDigit(s[i]));
  }

  lemma {:induction false} KeptDigitsIff(s: string)
    ensures AllDigits(DropPunctuation(s)) <==> OnlyDigitsAndPunctuation(s)
  {
    if s != "" {
      var c, rest := s[0], s[1..];
      KeptDigitsIff(rest);
      assert s == [c] + rest;
      KeepHead(c, rest, c => !IsTaxIdPunctuation(c));
      OneMoreDigitIff(c, rest, DropPunctuation(rest));
    }
  }

  lemma {:induction false} OneMoreDigitIff(c: char, rest: string, kept: string)
    ensures AllDigits([c] + kept) <==> IsDigit(c) && AllDigits(kept)
    ensures OnlyDigitsAndPunctuation([c] + rest) <==> (IsDigit(c) || IsTaxIdPunctuation(c)) && OnlyDigitsAndPunctuation(rest)
  {
    assert ([c] + kept)[0] == c && ([c] + rest)[0] == c;
    assert forall i :: 0 <= i < |kept| ==> ([c] + kept)[i + 1] == kept[i];
    assert forall i :: 0 <= i < |rest| ==> ([c] + rest)[i + 1] == rest[i];
  }

  /** The program's own display form of a valid RUT, and its bare digits, have the twelve digits as key. */
  lemma {:induction false} FormattedRutHasItsDigitsAsKey(value: string)
    requires IsValidUruguayRut(value)
    ensures NormalizeTaxId(FormatUruguayRut(value)) == NormalizeTaxId(RutDigits(value)) == RutDigits(value)
  {
    var digits := RutDigits(value);
    DisplayForm(value);
    DigitsOfDigits(digits);
    KeyOfDigits(digits);
    KeyOf(FormatUruguayRut(value));
    DropSeparators(digits);
  }

  lemma {:induction false} DropSeparators(digits: string)
    requires |digits| == RUT_LENGTH && AllDigits(digits)
    ensures Lower(DropPunctuation(Grouped(digits, '-'))) == digits
  {
    KeepUngrouped(digits, '-', c => !IsTaxIdPunctuation(c));
    DigitsAreClean(digits);
    LowerIsLower(digits);
  }

  /** Written with commas a valid RUT stays valid, but its key is not its digits. */
  lemma {:induction false} CommasChangeTheKey(value: string)
    requires IsValidUruguayRut(value)
    ensures var commas := Grouped(RutDigits(value), ',');
            IsValidUruguayRut(commas) && RutDigits(commas) == RutDigits(value) && NormalizeTaxId(commas) != RutDigits(value)
  {
    var digits := RutDigits(value);
    var commas := Grouped(digits, ',');
    NoLabel(commas);
    KeepUngrouped(digits, ',', c => IsDigit(c));
    assert commas[2] == ',';
    KeyIsItsDigitsIff(commas);
  }

  /** Such a RUT exists: 211003420017, written 21,100342,001,7. */
  lemma {:induction false} CommaExample(digits: string, commas: string)
    requires digits == "211003420017" && commas == "21,100342,001,7"
    ensures IsValidUruguayRut(commas) && RutDigits(commas) == digits && NormalizeTaxId(commas) != digits
  {
    ExampleIsValid(digits);
    GroupedExample(digits);
    DigitsOfDigits(digits);
    CommasChangeTheKey(digits);
    assert Grouped(digits, ',') == commas;
  }

  lemma {:induction false} PartsOf(digits: string, a: string, b: string, c: string, d: string)
    requires |a| == 2 && |b| == 6 && |c| == 3 && |d| == 1 && digits == a + b + c + d
    ensures Grouped(digits, ',') == a + "," + b + "," + c + "," + d
  {
    assert digits[..2] == a && digits[2..8] == b && digits[8..11] == c && [digits[11]] == d;
  }

  lemma {:induction false} GroupedExample(digits: string)
    requires digits == "211003420017"
    ensures Grouped(digits, ',') == "21,100342,001,7"
  {
    assert digits == "21" + "100342" + "001" + "7";
    PartsOf(digits, "21", "100342", "001", "7");
    assert "21" + "," + "100342" + "," + "001" + "," + "7" == "21,100342,001,7";
  }

  lemma {:induction false} FirstHalf(digits: string)
    requires |digits| == RUT_LENGTH && AllDigits(digits) && digits[..6] == "211003"
    ensures WeightedSum(digits, CODE_WEIGHTS, 6) == 34
  {
    var first := digits[..6];
    assert digits[0] == first[0] && digits[1] == first[1] && digits[2] == first[2];
    assert digits[3] == first[3] && digits[4] == first[4] && digits[5] == first[5];
    SumStep(digits, 0, 0, 2, 4);
    SumStep(digits, 1, 8, 1, 3);
    SumStep(digits, 2, 11, 1, 2);
    SumStep(digits, 3, 13, 0, 9);
    SumStep(digits, 4, 13, 0, 8);
    SumStep(digits, 5, 13, 3, 7);
  }

  lemma {:induction false} SecondHalf(digits: string)
    requires |digits| == RUT_LENGTH && AllDigits(digits) && digits[6..] == "420017"
    requires WeightedSum(digits, CODE_WEIGHTS, 6) == 34
    ensures CodeSum(digits) == 77
  {
    var rest := digits[6..];
    assert digits[6] == rest[0] && digits[7] == rest[1] && digits[8] == rest[2];
    assert digits[9] == rest[3] && digits[10] == rest[4] && digits[11] == rest[5];
    SumStep(digits, 6, 34, 4, 6);
    SumStep(digits, 7, 58, 2, 5);
    SumStep(digits, 8, 68, 0, 4);
    SumStep(digits, 9, 68, 0, 3);
    SumStep(digits, 10, 68, 1, 2);
    SumStep(digits, 11, 70, 7, 1);
  }

  lemma {:induction false} ExampleDigits(digits: string)
    requires digits == "211003420017"
    ensures |digits| == RUT_LENGTH && AllDigits(digits) && digits[..6] == "211003" && digits[6..] == "420017"
  {
    assert "211003" + "420017" == digits;
  }

  lemma {:induction false} ExampleIsValid(digits: string)
    requires digits == "211003420017"
    ensures IsValidUruguayRut(digits)
  {
    ExampleDigits(digits);
    FirstHalf(digits);
    SecondHalf(digits);
    DigitsOfDigits(digits);
    ValidIffDivisible(digits);
  }

  // ---------------------------------------------------------------- the tag

  /** A colon stands among the separators the text begins with. */
  predicate ColonLeads(s: string) {
    s != "" && IsLabelSeparator(s[0]) && (s[0] == ':' || ColonLeads(s[1..]))
  }

  lemma {:induction false} SkippedSeparatorsInKey(s: string)
    ensures |DropPunctuation(SkipSeparators(s))| <= |DropPunctuation(s)|
    ensures ColonLeads(s) ==> |DropPunctuation(SkipSeparators(s))| < |DropPunctuation(s)|
    ensures !ColonLeads(s) ==> DropPunctuation(SkipSeparators(s)) == DropPunctuation(s)
  {
    if s != "" && IsLabelSeparator(s[0]) {
      SkippedSeparatorsInKey(s[1..]);
    }
  }

  /** A label takes at least its three letters out of the key. */
  lemma {:induction false} LabelShortensKey(s: string)
    requires AfterLabel(s).Some?
    ensures |DropPunctuation(AfterLabel(s).value)| + 3 <= |DropPunctuation(s)|
  {
    var r := s[1..];
    var u := SkipDot(r)[1..];
    var t := SkipDot(u)[1..];
    LetterCounts(s, 'r');
    DotDropped(r);
    LetterCounts(SkipDot(r), 'u');
    DotDropped(u);
    LetterCounts(SkipDot(u), 't');
    DotDropped(t);
    SkippedSeparatorsInKey(SkipDot(t));
  }

  lemma {:induction false} LetterCounts(s: string, letter: char)
    requires SkipLetter(s, letter).Some? && 'a' <= letter <= 'z'
    ensures |DropPunctuation(s)| == |DropPunctuation(s[1..])| + 1
  {
  }

  lemma {:induction false} DotDropped(s: string)
    ensures |DropPunctuation(SkipDot(s))| <= |DropPunctuation(s)|
  {
  }

  lemma {:induction false} SkipBlanksFirst(blanks: string, s: string)
    requires AllSpaces(blanks)
    ensures SkipSeparators(blanks + s) == SkipSeparators(s)
  {
    if blanks == "" {
      assert blanks + s == s;
    } else {
      assert (blanks + s)[1..] == blanks[1..] + s;
      SkipBlanksFirst(blanks[1..], s);
    }
  }

  /** The text is a label and nothing else: "RUT", "R.U.T.", "rut: " and the like. */
  predicate IsLabel(text: string) {
    AfterLabel(text) == Some("")
  }

  /** What follows the letters of the label; its last dot and the separators are still there. */
  function AfterLetters(s: string): Option<string> {
    var r := SkipLetter(s, 'r');
    if r.None? then None
    else
      var u := SkipLetter(SkipDot(r.value), 'u');
      if u.None? then None else SkipLetter(SkipDot(u.value), 't')
  }

  lemma {:induction false} SkipLetterMore(s: string, letter: char, more: string)
    requires SkipLetter(s, letter).Some?
    ensures SkipLetter(s + more, letter) == Some(SkipLetter(s, letter).value + more)
  {
    assert (s + more)[1..] == s[1..] + more;
  }

  lemma {:induction false} SkipDotMore(s: string, more: string)
    requires SkipDot(s) != ""
    ensures SkipDot(s + more) == SkipDot(s) + more
  {
    assert (s + more)[1..] == s[1..] + more;
  }

  lemma {:induction false} AfterLettersMore(s: string, more: string)
    requires AfterLetters(s).Some?
    ensures AfterLetters(s + more) == Some(AfterLetters(s).value + more)
  {
    var r := s[1..];
    var u := SkipDot(r)[1..];
    SkipLetterMore(s, 'r', more);
    SkipDotMore(r, more);
    SkipLetterMore(SkipDot(r), 'u', more);
    SkipDotMore(u, more);
    SkipLetterMore(SkipDot(u), 't', more);
  }

  /** One separator dot more or less in front makes no difference. */
  lemma {:induction false} DotIsSeparator(s: string)
    ensures SkipSeparators(SkipDot(s)) == SkipSeparators(s)
  {
  }

  predicate AllSeparators(s: string) {
    forall i :: 0 <= i < |s| ==> IsLabelSeparator(s[i])
  }

  lemma {:induction false} SkipsAllIff(s: string)
    ensures SkipSeparators(s) == "" <==> AllSeparators(s)
  {
    if s != "" && IsLabelSeparator(s[0]) {
      SkipsAllIff(s[1..]);
      assert forall i :: 0 < i < |s| ==> s[i] == s[1..][i - 1];
    }
  }

  lemma {:induction false} SkipMore(s: string, more: string)
    requires AllSeparators(s)
    ensures SkipSeparators(s + more) == SkipSeparators(more)
  {
    if s == "" {
      assert s + more == more;
    } else {
      assert (s + more)[1..] == s[1..] + more;
      SkipMore(s[1..], more);
    }
  }

  /** A label is its letters and then separators only. */
  lemma {:induction false} LabelParts(tag: string)
    ensures IsLabel(tag) <==> AfterLetters(tag).Some? && AllSeparators(AfterLetters(tag).value)
  {
    if AfterLetters(tag).Some? {
      DotIsSeparator(AfterLetters(tag).value);
      SkipsAllIff(AfterLetters(tag).value);
    }
  }

  /** Behind a label the separators go too, whoever wrote them. */
  lemma {:induction false} LabelledRest(tag: string, rest: string)
    requires IsLabel(tag)
    ensures AfterLabel(tag + rest) == Some(SkipSeparators(rest))
  {
    LabelParts(tag);
    var separators := AfterLetters(tag).value;
    AfterLettersMore(tag, rest);
    DotIsSeparator(separators + rest);
    SkipMore(separators, rest);
  }

  /** Without the blanks at its end a label is still one. */
  lemma {:induction false} TrimmedLabel(tag: string) returns (trimmed: string, gap: string)
    requires IsLabel(tag)
    ensures IsLabel(trimmed) && !IsSpace(trimmed[|trimmed| - 1]) && AllSpaces(gap) && tag == trimmed + gap
  {
    if IsSpace(tag[|tag| - 1]) {
      var front, blank := tag[..|tag| - 1], tag[|tag| - 1];
      FrontAndLast(tag);
      OneBlankLess(tag, front, blank);
      var inner;
      trimmed, inner := TrimmedLabel(front);
      gap := inner + [blank];
      OuterBlank(tag, trimmed, inner, blank);
    } else {
      trimmed, gap := tag, "";
    }
  }

  lemma {:induction false} FrontAndLast(text: string)
    requires text != ""
    ensures text == text[..|text| - 1] + [text[|text| - 1]]
  {
  }

  lemma {:induction false} OuterBlank(text: string, trimmed: string, inner: string, blank: char)
    requires text != "" && text[..|text| - 1] == trimmed + inner && blank == text[|text| - 1]
    requires AllSpaces(inner) && IsSpace(blank)
    ensures text == trimmed + (inner + [blank]) && AllSpaces(inner + [blank])
  {
    assert text == text[..|text| - 1] + [blank];
  }

  lemma {:induction false} OneBlankLess(tag: string, front: string, blank: char)
    requires IsLabel(tag) && tag == front + [blank] && IsSpace(blank)
    ensures IsLabel(front)
  {
    LabelParts(tag);
    LettersBefore(front, blank);
    LabelParts(front);
    var separators := AfterLetters(front).value;
    assert forall i :: 0 <= i < |separators| ==> separators[i] == (separators + [blank])[i];
  }

  lemma {:induction false} LettersBefore(s: string, blank: char)
    requires AfterLetters(s + [blank]).Some? && IsSpace(blank)
    ensures AfterLetters(s).Some? && AfterLetters(s + [blank]).value == AfterLetters(s).value + [blank]
  {
    LetterBefore(s, 'r', blank);
    var r := s[1..];
    DotBefore(r, blank);
    LetterBefore(SkipDot(r), 'u', blank);
    var u := SkipDot(r)[1..];
    DotBefore(u, blank);
    LetterBefore(SkipDot(u), 't', blank);
  }

  lemma {:induction false} LetterBefore(s: string, letter: char, blank: char)
    requires SkipLetter(s + [blank], letter).Some? && IsSpace(blank) && 'a' <= letter <= 'z'
    ensures s != "" && SkipLetter(s, letter) == Some(s[1..]) && SkipLetter(s + [blank], letter) == Some(s[1..] + [blank])
  {
    assert s != "" ==> (s + [blank])[1..] == s[1..] + [blank];
  }

  lemma {:induction false} DotBefore(s: string, blank: char)
    requires IsSpace(blank)
    ensures SkipDot(s + [blank]) == SkipDot(s) + [blank]
  {
    assert s != "" ==> (s + [blank])[1..] == s[1..] + [blank];
  }

  lemma {:induction false} LabelledBlank(tag: string, blanks: string)
    requires IsLabel(tag) && AllSpaces(blanks)
    ensures StripRutPrefix(tag + blanks) == ""
  {
    var trimmed, gap := TrimmedLabel(tag);
    LabelledGap(trimmed, gap, blanks, tag + blanks);
  }

  lemma {:induction false} LabelledGap(tag: string, gap: string, blanks: string, text: string)
    requires IsLabel(tag) && !IsSpace(tag[|tag| - 1]) && AllSpaces(gap) && AllSpaces(blanks)
    requires text == tag + gap + blanks
    ensures StripRutPrefix(text) == ""
  {
    var end := gap + blanks;
    assert text == tag + end;
    LabelThenBlanks(tag, end, text);
  }

  lemma {:induction false} LabelThenBlanks(tag: string, blanks: string, text: string)
    requires IsLabel(tag) && !IsSpace(tag[|tag| - 1]) && AllSpaces(blanks) && text == tag + blanks
    ensures StripRutPrefix(text) == ""
  {
    StripOf(tag, blanks);
  }

  lemma {:induction false} LabelledWord(tag: string, before: string, m: string, after: string)
    requires IsLabel(tag) && AllSpaces(before) && AllSpaces(after) && m != "" && !IsSpace(m[0]) && !IsSpace(m[|m| - 1])
    ensures StripRutPrefix(tag + (before + m + after)) == SkipSeparators(m)
  {
    var text := tag + (before + m);
    assert tag + (before + m + after) == text + after;
    assert text[|text| - 1] == m[|m| - 1] && text[0] == tag[0];
    StripOf(text, after);
    LabelledRest(tag, before + m);
    SkipBlanksFirst(before, m);
  }

  /** Whatever is labelled, what is left of it begins after all separators. */
  lemma {:induction false} LabelledText(tag: string, taxId: string)
    requires IsLabel(tag)
    ensures StripRutPrefix(tag + taxId) == SkipSeparators(Strip(taxId))
  {
    var before, after := StripParts(taxId);
    var m := Strip(taxId);
    if m == "" {
      assert taxId == before + after;
      LabelledBlank(tag, taxId);
    } else {
      LabelledWord(tag, before, m, after);
    }
  }

  /**
   Writing a label in front of an identifier, whichever way the label is spelled, leaves its key alone
   exactly when the identifier carries no label already and no colon stands among the separators it
   begins with.
   */
  lemma {:induction false} LabelDoesNotMatterIff(tag: string, taxId: string)
    requires IsLabel(tag)
    ensures NormalizeTaxId(tag + taxId) == NormalizeTaxId(taxId)
       <==> AfterLabel(Strip(taxId)).None? && !ColonLeads(Strip(taxId))
  {
    var m := Strip(taxId);
    KeyOf(tag + taxId);
    KeyOf(taxId);
    LabelledText(tag, taxId);
    SkippedSeparatorsInKey(m);
    if AfterLabel(m).Some? {
      LabelShortensKey(m);
      assert !IsLabelSeparator(m[0]) && SkipSeparators(m) == m;
    }
  }

  /** "RUT " is a label, and so is "R.U.T.: ". */
  lemma {:induction false} LabelExamples()
    ensures IsLabel("RUT ") && IsLabel("R.U.T.: ")
  {
    PlainLabel("RUT ");
    DottedLabel("R.U.T.: ");
  }

  lemma {:induction false} PlainLabel(s: string)
    requires s == "RUT "
    ensures IsLabel(s)
  {
    assert s[1..] == "UT " && s[2..] == "T " && s[3..] == " ";
    assert s[1..][1..] == s[2..] && s[2..][1..] == s[3..] && s[3..][1..] == "";
  }

  lemma {:induction false} DottedLabel(s: string)
    requires s == "R.U.T.: "
    ensures IsLabel(s)
  {
    var r, u, t := s[1..], s[3..], s[5..];
    assert SkipDot(r) == s[2..] && s[2..][1..] == u && SkipDot(u) == s[4..] && s[4..][1..] == t;
    LabelParts(s);
  }

  lemma {:induction false} LabelledTwice(digits: string, once: string)
    requires digits != "" && AllDigits(digits) && once == "RUT " + digits
    ensures StripRutPrefix("RUT " + once) == once
  {
    assert once[0] == 'R' && once[|once| - 1] == digits[|digits| - 1];
    StripTrimmed(once);
    PlainLabel("RUT ");
    LabelledText("RUT ", once);
    assert SkipSeparators(once) == once;
  }

  /** Two labels in a row: normalising once takes the first off, normalising again the second. */
  lemma {:induction false} TwoLabelsNormaliseTwice(digits: string)
    requires digits != "" && AllDigits(digits)
    ensures NormalizeTaxId("RUT RUT " + digits) == "rut" + digits && NormalizeTaxId("rut" + digits) == digits
  {
    var once := "RUT " + digits;
    assert "RUT RUT " + digits == "RUT " + once;
    LabelledTwice(digits, once);
    LabelInKey(digits);
    KeyOf("RUT RUT " + digits);
    LowerLabel(digits);
  }

  lemma {:induction false} DropConcat(a: string, b: string)
    ensures DropPunctuation(a + b) == DropPunctuation(a) + DropPunctuation(b)
  {
    KeepConcat(a, b, c => !IsTaxIdPunctuation(c));
  }

  lemma {:induction false} DropAround(word: string, gap: string, tail: string)
    requires NoPunctuation(word) && |gap| == 1 && IsTaxIdPunctuation(gap[0]) && NoPunctuation(tail)
    ensures DropPunctuation(word + gap + tail) == word + tail
  {
    DropConcat(word + gap, tail);
    DropConcat(word, gap);
    NothingToDrop(word);
    NothingToDrop(tail);
    assert gap[1..] == "" && DropPunctuation(gap) == "";
  }

  lemma {:induction false} LabelInKey(digits: string)
    requires AllDigits(digits)
    ensures Lower(DropPunctuation("RUT " + digits)) == "rut" + digits
  {
    var rut, gap := "RUT", " ";
    DigitsAreClean(digits);
    DropAround(rut, gap, digits);
    assert "RUT " + digits == rut + gap + digits;
    LowerOfLabel(rut, digits);
  }

  lemma {:induction false} LowerOfLabel(rut: string, digits: string)
    requires rut == "RUT" && LowerCase(digits)
    ensures Lower(rut + digits) == "rut" + digits
  {
  }

  lemma {:induction false} LowerLabel(digits: string)
    requires digits != "" && AllDigits(digits)
    ensures NormalizeTaxId("rut" + digits) == digits
  {
    var key := "rut" + digits;
    var u, t := key[1..], key[2..];
    assert u[1..] == t && t[1..] == digits;
    assert SkipDot(u) == u && SkipDot(t) == t && SkipDot(digits) == digits && SkipSeparators(digits) == digits;
    assert key[|key| - 1] == digits[|digits| - 1];
    LabelStripped(key, digits);
    KeyOf(key);
    DigitsAreClean(digits);
    NothingToDrop(digits);
    LowerIsLower(digits);
  }

  /** "RUT RUT 5" becomes "rut5", and that becomes "5". */
  lemma {:induction false} RutRutFive(value: string, once: string, twice: string)
    requires value == "RUT RUT 5" && once == "rut5" && twice == "5"
    ensures NormalizeTaxId(value) == once && NormalizeTaxId(once) == twice
  {
    assert value == "RUT RUT " + twice && once == "rut" + twice;
    TwoLabelsNormaliseTwice(twice);
  }

  /** ":5" keeps its colon in the key, "RUT :5" does not. */
  lemma {:induction false} ColonExample()
    ensures NormalizeTaxId("RUT :5") != NormalizeTaxId(":5")
  {
    StripTrimmed(":5");
    assert "RUT " + ":5" == "RUT :5";
    PlainLabel("RUT ");
    LabelDoesNotMatterIff("RUT ", ":5");
  }

  // ---------------------------------------------------------------- emails and phones

  /** An email key is its own key. */
  lemma {:induction false} NormalizingEmailTwice(value: string)
    ensures NormalizeCustomerEmail(NormalizeCustomerEmail(value)) == NormalizeCustomerEmail(value)
  {
    LowerStripTwice(value);
  }

  predicate IsPhoneChar(c: char) {
    IsDigit(c) || c == '+'
  }

  lemma {:induction false} PhoneCharsStay(s: string)
    requires forall i :: 0 <= i < |s| ==> IsPhoneChar(s[i])
    ensures Keep(Strip(s), c => IsDigit(c) || c == '+') == s
  {
    StripTrimmed(s);
    KeepEverything(s, c => IsDigit(c) || c == '+');
  }

  /** A phone key is its own key: "00" is rewritten once and never again. */
  lemma {:induction false} NormalizingPhoneTwice(value: string)
    ensures NormalizeCustomerPhone(NormalizeCustomerPhone(value)) == NormalizeCustomerPhone(value)
  {
    var stripped, key := Keep(Strip(value), c => IsDigit(c) || c == '+'), NormalizeCustomerPhone(value);
    assert forall i :: 0 <= i < |stripped| ==> IsPhoneChar(stripped[i]);
    assert StartsWith(stripped, "00") ==> key == "+" + stripped[2..] && key[0] == '+';
    assert forall i :: 0 <= i < |key| ==> IsPhoneChar(key[i]);
    PhoneCharsStay(key);
  }

  /** A phone key depends on the phone characters alone. */
  function PhoneChars(value: string): string {
    Keep(value, c => IsDigit(c) || c == '+')
  }

  function Folded(chars: string): string {
    if StartsWith(chars, "00") then "+" + chars[2..] else chars
  }

  lemma {:induction false} PhoneKey(value: string)
    ensures NormalizeCustomerPhone(value) == Folded(PhoneChars(value))
  {
    KeepStrip(value, c => IsDigit(c) || c == '+');
  }

  lemma {:induction false} PhoneCharsConcat(a: string, b: string)
    ensures PhoneChars(a + b) == PhoneChars(a) + PhoneChars(b)
  {
    KeepConcat(a, b, c => IsDigit(c) || c == '+');
  }

  lemma {:induction false} PhoneCharsOf(s: string)
    requires forall i :: 0 <= i < |s| ==> IsPhoneChar(s[i])
    ensures PhoneChars(s) == s
  {
    KeepEverything(s, c => IsDigit(c) || c == '+');
  }

  /** The two ways of writing an international prefix have the same key. */
  lemma {:induction false} InternationalPrefixesAgree(rest: string)
    ensures NormalizeCustomerPhone("00" + rest) == NormalizeCustomerPhone("+" + rest)
  {
    PhoneKey("00" + rest);
    PhoneKey("+" + rest);
    PhoneCharsConcat("00", rest);
    PhoneCharsConcat("+", rest);
    PhoneCharsOf("00");
    PhoneCharsOf("+");
    assert ("00" + PhoneChars(rest))[2..] == PhoneChars(rest);
  }

  function DigitsOf(s: string): string {
    Keep(s, c => IsDigit(c))
  }

  /** One is the other with "00" in place of its first "+". */
  predicate OneInternational(chars: string, other: string) {
    || (StartsWith(chars, "00") && other == "+" + chars[2..])
    || (StartsWith(other, "00") && chars == "+" + other[2..])
  }

  lemma {:induction false} FoldedAgreeIff(chars: string, other: string)
    ensures Folded(chars) == Folded(other) <==> chars == other || OneInternational(chars, other)
  {
    StartsWithZeros(chars);
    StartsWithZeros(other);
  }

  lemma {:induction false} StartsWithZeros(chars: string)
    ensures StartsWith(chars, "00") ==> chars == "00" + chars[2..] && chars[0] == '0' && Folded(chars)[1..] == chars[2..]
  {
    if StartsWith(chars, "00") {
      assert chars[0] == "00"[0];
      assert ("+" + chars[2..])[1..] == chars[2..];
    }
  }

  /**
   Two phone numbers have the same key exactly when they have the same digits and signs in the same
   order, or differ in how an international prefix is written. A sign anywhere counts.
   */
  lemma {:induction false} PhonesAgreeIff(s: string, t: string)
    ensures NormalizeCustomerPhone(s) == NormalizeCustomerPhone(t)
       <==> PhoneChars(s) == PhoneChars(t) || OneInternational(PhoneChars(s), PhoneChars(t))
  {
    PhoneKey(s);
    PhoneKey(t);
    FoldedAgreeIff(PhoneChars(s), PhoneChars(t));
  }

  lemma {:induction false} DigitsOfPhoneChars(s: string)
    ensures DigitsOf(PhoneChars(s)) == DigitsOf(s)
  {
    KeepTwice(s, c => IsDigit(c) || c == '+', c => IsDigit(c));
  }

  /** Writing "+" for "00" takes two digits away. */
  lemma {:induction false} InternationalLosesDigits(chars: string, other: string)
    requires StartsWith(chars, "00") && other == "+" + chars[2..]
    ensures DigitsOf(chars) != DigitsOf(other)
  {
    assert chars == "00" + chars[2..];
    DigitsOfConcat("00", chars[2..]);
    DigitsOfConcat("+", chars[2..]);
    KeepEverything("00", c => IsDigit(c));
    KeepNothing("+");
  }

  /** Spellings of the same digits have the same key exactly when their signs stand in the same places. */
  lemma {:induction false} SameDigitsAgreeIff(s: string, t: string)
    requires DigitsOf(s) == DigitsOf(t)
    ensures NormalizeCustomerPhone(s) == NormalizeCustomerPhone(t) <==> PhoneChars(s) == PhoneChars(t)
  {
    var a, b := PhoneChars(s), PhoneChars(t);
    PhonesAgreeIff(s, t);
    DigitsOfPhoneChars(s);
    DigitsOfPhoneChars(t);
    if StartsWith(a, "00") && b == "+" + a[2..] {
      InternationalLosesDigits(a, b);
    }
    if StartsWith(b, "00") && a == "+" + b[2..] {
      InternationalLosesDigits(b, a);
    }
  }

  /** A sign inside a bracket counts like one in front of it: "(+598)" is "+598" and is not "598". */
  lemma {:induction false} BracketedSign(rest: string)
    ensures NormalizeCustomerPhone("(+598)" + rest) == NormalizeCustomerPhone("+598" + rest)
    ensures NormalizeCustomerPhone("(+598)" + rest) != NormalizeCustomerPhone("598" + rest)
  {
    BracketedChars("(+598)");
    PhoneCharsOf("+598");
    PhoneCharsOf("598");
    PhoneCharsConcat("(+598)", rest);
    PhoneCharsConcat("+598", rest);
    PhoneCharsConcat("598", rest);
    PhonesAgreeIff("(+598)" + rest, "+598" + rest);
    PhonesAgreeIff("(+598)" + rest, "598" + rest);
    assert ("+598" + PhoneChars(rest))[0] == '+' && ("598" + PhoneChars(rest))[0] == '5';
  }

  lemma {:induction false} BracketedChars(prefix: string)
    requires prefix == "(+598)"
    ensures PhoneChars(prefix) == "+598"
  {
    assert prefix == "(" + ("+598" + ")");
    WrappedChars("(", "+598", ")", prefix);
  }

  lemma {:induction false} WrappedChars(before: string, inner: string, after: string, text: string)
    requires |before| == |after| == 1 && !IsPhoneChar(before[0]) && !IsPhoneChar(after[0])
    requires text == before + (inner + after) && forall i :: 0 <= i < |inner| ==> IsPhoneChar(inner[i])
    ensures PhoneChars(text) == inner
  {
    PhoneCharsConcat(before, inner + after);
    PhoneCharsConcat(inner, after);
    PhoneCharsOf(inner);
    NoPhoneChar(before);
    NoPhoneChar(after);
  }

  lemma {:induction false} NoPhoneChar(mark: string)
    requires |mark| == 1 && !IsPhoneChar(mark[0])
    ensures PhoneChars(mark) == ""
  {
    assert mark[1..] == "";
  }

  /** A text without signs has its digits as phone characters. */
  lemma {:induction false} UnsignedChars(s: string)
    requires '+' !in s
    ensures PhoneChars(s) == DigitsOf(s) && PhoneChars("+" + s) == "+" + DigitsOf(s)
  {
    KeepSame(s, c => IsDigit(c), c => IsDigit(c) || c == '+');
    PhoneCharsConcat("+", s);
    PhoneCharsOf("+");
  }

  predicate NoDigits(s: string) {
    forall i :: 0 <= i < |s| ==> !IsDigit(s[i])
  }

  /** One more group in front: what separates it is not counted. */
  lemma {:induction false} GroupInFront(gap: string, group: string, rest: string)
    requires NoDigits(gap) && AllDigits(group)
    ensures DigitsOf(gap + group + rest) == group + DigitsOf(rest)
  {
    DigitsOfConcat(gap + group, rest);
    DigitsOfConcat(gap, group);
    KeepEverything(group, c => IsDigit(c));
    KeepNothing(gap);
  }

  lemma {:induction false} DigitsOfConcat(a: string, b: string)
    ensures DigitsOf(a + b) == DigitsOf(a) + DigitsOf(b)
  {
    KeepConcat(a, b, c => IsDigit(c));
  }

  lemma {:induction false} KeepNothing(s: string)
    requires NoDigits(s)
    ensures DigitsOf(s) == ""
  {
    if s != "" {
      KeepNothing(s[1..]);
    }
  }

  /** Four groups of digits with anything but digits before each. */
  function Spelling(a: string, b: string, c: string, d: string, groups: seq<string>): string
    requires |groups| == 4
  {
    a + groups[0] + (b + groups[1] + (c + groups[2] + (d + groups[3] + "")))
  }

  lemma {:induction false} SpellingDigits(a: string, b: string, c: string, d: string, groups: seq<string>)
    requires NoDigits(a) && NoDigits(b) && NoDigits(c) && NoDigits(d)
    requires |groups| == 4 && forall i :: 0 <= i < 4 ==> AllDigits(groups[i])
    ensures DigitsOf(Spelling(a, b, c, d, groups)) == groups[0] + (groups[1] + (groups[2] + groups[3]))
  {
    var last := d + groups[3] + "";
    var third := c + groups[2] + last;
    var second := b + groups[1] + third;
    GroupInFront(d, groups[3], "");
    GroupInFront(c, groups[2], last);
    GroupInFront(b, groups[1], third);
    GroupInFront(a, groups[0], second);
    assert groups[3] + "" == groups[3];
  }

  /** The spellings a comment lists as comparing the same: the last two do, the first does not. */
  lemma {:induction false} ListedSpellings(groups: seq<string>)
    requires |groups| == 4 && forall i :: 0 <= i < 4 ==> AllDigits(groups[i])
    ensures var spaced, bracketed, dotted := Spelling("", " ", " ", " ", groups), Spelling("(", ") ", "-", "-", groups),
                                             Spelling("", ".", ".", ".", groups);
            && NormalizeCustomerPhone(bracketed) == NormalizeCustomerPhone(dotted)
            && NormalizeCustomerPhone("+" + spaced) != NormalizeCustomerPhone(dotted)
  {
    var spaced, bracketed, dotted := Spelling("", " ", " ", " ", groups), Spelling("(", ") ", "-", "-", groups),
                                     Spelling("", ".", ".", ".", groups);
    SpellingDigits("", " ", " ", " ", groups);
    SpellingDigits("(", ") ", "-", "-", groups);
    SpellingDigits("", ".", ".", ".", groups);
    SpellingHasNoSign("", " ", " ", " ", groups);
    SpellingHasNoSign("(", ") ", "-", "-", groups);
    SpellingHasNoSign("", ".", ".", ".", groups);
    OneSignDiffers(spaced, bracketed, dotted);
  }

  lemma {:induction false} OneSignDiffers(spaced: string, bracketed: string, dotted: string)
    requires '+' !in spaced && '+' !in bracketed && '+' !in dotted
    requires DigitsOf(spaced) == DigitsOf(bracketed) == DigitsOf(dotted)
    ensures NormalizeCustomerPhone(bracketed) == NormalizeCustomerPhone(dotted)
    ensures NormalizeCustomerPhone("+" + spaced) != NormalizeCustomerPhone(dotted)
  {
    UnsignedChars(spaced);
    UnsignedChars(bracketed);
    UnsignedChars(dotted);
    SameDigitsAgreeIff(bracketed, dotted);
    DigitsOfConcat("+", spaced);
    KeepNothing("+");
    SameDigitsAgreeIff("+" + spaced, dotted);
  }

  lemma {:induction false} SpellingHasNoSign(a: string, b: string, c: string, d: string, groups: seq<string>)
    requires '+' !in a && '+' !in b && '+' !in c && '+' !in d
    requires |groups| == 4 && forall i :: 0 <= i < 4 ==> AllDigits(groups[i])
    ensures '+' !in Spelling(a, b, c, d, groups)
  {
    forall i | 0 <= i < 4
      ensures '+' !in groups[i]
    {
      assert AllDigits(groups[i]);
    }
  }

  /** "+598 99 123 456", "(598) 99-123-456" and "598.99.123.456" are such spellings. */
  lemma {:induction false} ListedExample()
    ensures var groups := ["598", "99", "123", "456"];
            && "+" + Spelling("", " ", " ", " ", groups) == "+598 99 123 456"
            && Spelling("(", ") ", "-", "-", groups) == "(598) 99-123-456"
            && Spelling("", ".", ".", ".", groups) == "598.99.123.456"
  {
  }

  // ---------------------------------------------------------------- names

  /** Blanks only, never two in a row. */
  predicate SingleBlanks(s: string) {
    && (forall i :: 0 <= i < |s| && IsSpace(s[i]) ==> s[i] == ' ')
    && (forall i :: 0 <= i < |s| - 1 && IsSpace(s[i]) ==> !IsSpace(s[i + 1]))
  }

  lemma {:induction false} CollapsedHasSingleBlanks(s: string)
    ensures var r := CollapseSpaces(s);
            SingleBlanks(r) && (r == "" <==> s == "") && (s != "" ==> r[0] == if IsSpace(s[0]) then ' ' else s[0])
    decreases |s|
  {
    if s != "" {
      CollapsedHasSingleBlanks(if IsSpace(s[0]) then SkipSpaces(s[1..]) else s[1..]);
    }
  }

  lemma {:induction false} CollapsedKeepsItsEnd(s: string)
    requires s != "" && !IsSpace(s[|s| - 1])
    ensures var r := CollapseSpaces(s); r != "" && r[|r| - 1] == s[|s| - 1]
    decreases |s|
  {
    if IsSpace(s[0]) {
      SkippedKeepsItsEnd(s[1..]);
      CollapsedKeepsItsEnd(SkipSpaces(s[1..]));
    } else if |s| > 1 {
      CollapsedKeepsItsEnd(s[1..]);
    }
  }

  lemma {:induction false} SkippedKeepsItsEnd(s: string)
    requires s != "" && !IsSpace(s[|s| - 1])
    ensures var r := SkipSpaces(s); r != "" && r[|r| - 1] == s[|s| - 1]
  {
    if IsSpace(s[0]) {
      SkippedKeepsItsEnd(s[1..]);
    }
  }

  lemma {:induction false} SingleBlanksStay(s: string)
    requires SingleBlanks(s)
    ensures CollapseSpaces(s) == s
  {
    if s != "" {
      SingleBlanksStay(s[1..]);
      assert s == [s[0]] + s[1..];
      if IsSpace(s[0]) {
        assert |s| > 1 ==> !IsSpace(s[1]);
        assert SkipSpaces(s[1..]) == s[1..];
      }
    }
  }

  lemma {:induction false} LowerKeepsBlanks(s: string)
    requires SingleBlanks(s)
    ensures SingleBlanks(Lower(s))
  {
    assert forall i :: 0 <= i < |s| ==> (IsSpace(Lower(s)[i]) <==> IsSpace(s[i]));
  }

  /** A name key is its own key. */
  lemma {:induction false} NormalizingNameTwice(value: string)
    ensures NormalizeCustomerName(NormalizeCustomerName(value)) == NormalizeCustomerName(value)
  {
    var trimmed := Strip(value);
    var single := CollapseSpaces(trimmed);
    CollapsedHasSingleBlanks(trimmed);
    if trimmed != "" {
      CollapsedKeepsItsEnd(trimmed);
    }
    LowerStaysTrimmed(single);
    LowerKeepsBlanks(single);
    SingleBlanksStay(Lower(single));
    LowerTwice(single);
  }

  lemma {:induction false} SkipWithin(s: string, after: string)
    requires s != "" && !IsSpace(s[|s| - 1])
    ensures SkipSpaces(s + after) == SkipSpaces(s) + after
  {
    if IsSpace(s[0]) {
      assert (s + after)[1..] == s[1..] + after;
      SkipWithin(s[1..], after);
    }
  }

  lemma {:induction false} CollapseStep(s: string)
    requires s != ""
    ensures CollapseSpaces(s) == if IsSpace(s[0]) then " " + CollapseSpaces(SkipSpaces(s[1..])) else [s[0]] + CollapseSpaces(s[1..])
  {
  }

  lemma {:induction false} Regrouped(a: string, b: string, c: string)
    ensures a + (b + c) == (a + b) + c
  {
  }

  lemma {:induction false} FrontOf(head: string, after: string)
    requires head != ""
    ensures (head + after)[1..] == head[1..] + after && (head + after)[0] == head[0]
  {
  }

  /** Collapsing works piece by piece when the first piece does not end in a blank. */
  lemma {:induction false} CollapseConcat(head: string, after: string)
    requires head == "" || !IsSpace(head[|head| - 1])
    ensures CollapseSpaces(head + after) == CollapseSpaces(head) + CollapseSpaces(after)
    decreases |head|
  {
    if head == "" {
      assert head + after == after;
    } else {
      FrontOf(head, after);
      CollapseStep(head);
      CollapseStep(head + after);
      if IsSpace(head[0]) {
        SkippedKeepsItsEnd(head[1..]);
        SkipWithin(head[1..], after);
        CollapseConcat(SkipSpaces(head[1..]), after);
        Regrouped(" ", CollapseSpaces(SkipSpaces(head[1..])), CollapseSpaces(after));
      } else {
        CollapseConcat(head[1..], after);
        Regrouped([head[0]], CollapseSpaces(head[1..]), CollapseSpaces(after));
      }
    }
  }

  lemma {:induction false} SkipGap(gap: string, tail: string)
    requires (forall i :: 0 <= i < |gap| ==> IsSpace(gap[i])) && tail != "" && !IsSpace(tail[0])
    ensures SkipSpaces(gap + tail) == tail
  {
    if gap == "" {
      assert gap + tail == tail;
    } else {
      assert (gap + tail)[1..] == gap[1..] + tail;
      SkipGap(gap[1..], tail);
    }
  }

  lemma {:induction false} GapCollapses(head: string, gap: string, tail: string)
    requires gap != "" && (forall i :: 0 <= i < |gap| ==> IsSpace(gap[i])) && tail != "" && !IsSpace(tail[0])
    requires head == "" || !IsSpace(head[|head| - 1])
    ensures CollapseSpaces(head + gap + tail) == CollapseSpaces(head) + (" " + CollapseSpaces(tail))
  {
    assert head + gap + tail == head + (gap + tail);
    CollapseConcat(head, gap + tail);
    assert (gap + tail)[1..] == gap[1..] + tail;
    SkipGap(gap[1..], tail);
  }

  /** However many blanks stand between two parts of a name, and of whatever kind, the key is the same. */
  lemma {:induction false} BlanksBetweenNamesDoNotMatter(head: string, gap: string, other: string, tail: string)
    requires head != "" && !IsSpace(head[0]) && !IsSpace(head[|head| - 1])
    requires tail != "" && !IsSpace(tail[0]) && !IsSpace(tail[|tail| - 1])
    requires gap != "" && forall i :: 0 <= i < |gap| ==> IsSpace(gap[i])
    requires other != "" && forall i :: 0 <= i < |other| ==> IsSpace(other[i])
    ensures NormalizeCustomerName(head + gap + tail) == NormalizeCustomerName(head + other + tail)
  {
    StripTrimmed(head + gap + tail);
    StripTrimmed(head + other + tail);
    GapCollapses(head, gap, tail);
    GapCollapses(head, other, tail);
  }

  // ---------------------------------------------------------------- names, word by word

  predicate IsWord(s: string) {
    s != "" && forall i :: 0 <= i < |s| ==> !IsSpace(s[i])
  }

  predicate IsGap(s: string) {
    s != "" && AllSpaces(s)
  }

  /** Words with these gaps between them. */
  function Spaced(words: seq<string>, gaps: seq<string>): string
    requires |words| == |gaps| + 1
  {
    if gaps == [] then words[0] else words[0] + gaps[0] + Spaced(words[1..], gaps[1..])
  }

  predicate AllWords(words: seq<string>) {
    forall i :: 0 <= i < |words| ==> IsWord(words[i])
  }

  predicate AllGaps(gaps: seq<string>) {
    forall i :: 0 <= i < |gaps| ==> IsGap(gaps[i])
  }

  lemma {:induction false} SpacedIsTrimmed(words: seq<string>, gaps: seq<string>)
    requires |words| == |gaps| + 1 && AllWords(words) && AllGaps(gaps)
    ensures var text := Spaced(words, gaps); text != "" && !IsSpace(text[0]) && !IsSpace(text[|text| - 1])
  {
    assert IsWord(words[0]);
    if gaps != [] {
      SpacedIsTrimmed(words[1..], gaps[1..]);
    }
  }

  lemma {:induction false} WordStays(word: string)
    requires IsWord(word)
    ensures CollapseSpaces(word) == word
  {
    SingleBlanksStay(word);
  }

  /** Collapsing leaves the words and one blank between each two of them. */
  lemma {:induction false} CollapsedWords(words: seq<string>, gaps: seq<string>)
    requires |words| == |gaps| + 1 && AllWords(words) && AllGaps(gaps)
    ensures CollapseSpaces(Spaced(words, gaps)) == Join(words, ' ')
  {
    assert IsWord(words[0]);
    WordStays(words[0]);
    if gaps != [] {
      assert IsGap(gaps[0]);
      var tail := Spaced(words[1..], gaps[1..]);
      CollapsedWords(words[1..], gaps[1..]);
      SpacedIsTrimmed(words[1..], gaps[1..]);
      GapCollapses(words[0], gaps[0], tail);
      JoinedInFront(words, CollapseSpaces(tail));
    }
  }

  lemma {:induction false} JoinedInFront(words: seq<string>, rest: string)
    requires |words| > 1 && rest == Join(words[1..], ' ')
    ensures Join(words, ' ') == words[0] + (" " + rest)
  {
    assert words[0] + [' '] + rest == words[0] + (" " + rest);
  }

  function Lowered(words: seq<string>): (r: seq<string>)
    ensures |r| == |words| && forall i :: 0 <= i < |words| ==> r[i] == Lower(words[i])
  {
    seq(|words|, i requires 0 <= i < |words| => Lower(words[i]))
  }

  lemma {:induction false} LowerOfConcat(a: string, b: string)
    ensures Lower(a + b) == Lower(a) + Lower(b)
  {
  }

  lemma {:induction false} LowerOfJoin(words: seq<string>)
    ensures Lower(Join(words, ' ')) == Join(Lowered(words), ' ')
  {
    if |words| > 1 {
      var rest := Join(words[1..], ' ');
      LowerOfJoin(words[1..]);
      assert Lowered(words)[1..] == Lowered(words[1..]);
      LowerOfConcat(words[0] + [' '], rest);
      LowerOfConcat(words[0], [' ']);
      assert Lower([' ']) == [' '];
    }
  }

  /** A name key is the words of the name in lower case, one blank apart, whatever blanks stood around and between them. */
  lemma {:induction false} NameKeyIs(before: string, words: seq<string>, gaps: seq<string>, after: string)
    requires |words| == |gaps| + 1 && AllWords(words) && AllGaps(gaps) && AllSpaces(before) && AllSpaces(after)
    ensures NormalizeCustomerName(before + Spaced(words, gaps) + after) == Join(Lowered(words), ' ')
  {
    SpacedIsTrimmed(words, gaps);
    StripAround(before, Spaced(words, gaps), after);
    CollapsedWords(words, gaps);
    LowerOfJoin(words);
  }

  lemma {:induction false} LoweredHaveNoBlank(words: seq<string>)
    requires AllWords(words)
    ensures forall i :: 0 <= i < |words| ==> ' ' !in Lowered(words)[i]
  {
    forall i | 0 <= i < |words|
      ensures ' ' !in Lowered(words)[i]
    {
      NoBlankInLower(words[i]);
    }
  }

  lemma {:induction false} NoBlankInLower(word: string)
    requires IsWord(word)
    ensures ' ' !in Lower(word)
  {
  }

  /** Two names have the same key exactly when they have the same words in the same order, up to case. */
  lemma {:induction false} NamesAgreeIff(name: string, words: seq<string>, gaps: seq<string>,
                                         other: string, others: seq<string>, otherGaps: seq<string>)
    requires |words| == |gaps| + 1 && AllWords(words) && AllGaps(gaps) && Strip(name) == Spaced(words, gaps)
    requires |others| == |otherGaps| + 1 && AllWords(others) && AllGaps(otherGaps) && Strip(other) == Spaced(others, otherGaps)
    ensures NormalizeCustomerName(name) == NormalizeCustomerName(other) <==> Lowered(words) == Lowered(others)
  {
    CollapsedWords(words, gaps);
    CollapsedWords(others, otherGaps);
    LowerOfJoin(words);
    LowerOfJoin(others);
    LoweredHaveNoBlank(words);
    LoweredHaveNoBlank(others);
    SplitJoin(Lowered(words), ' ');
    SplitJoin(Lowered(others), ' ');
  }

  lemma {:induction false} BlankNameHasEmptyKey(name: string)
    requires AllSpaces(name)
    ensures NormalizeCustomerName(name) == ""
  {
    StripIsEmptyIff(name);
  }

  // ---------------------------------------------------------------- emails, letter by letter

  predicate SameButCase(a: string, b: string) {
    |a| == |b| && forall i :: 0 <= i < |a| ==> LowerChar(a[i]) == LowerChar(b[i])
  }

  /** Two emails have the same key exactly when, without the blanks around them, they differ in case only. */
  lemma {:induction false} EmailsAgreeIff(a: string, b: string)
    ensures NormalizeCustomerEmail(a) == NormalizeCustomerEmail(b) <==> SameButCase(Strip(a), Strip(b))
  {
    var x, y := Strip(a), Strip(b);
    if Lower(x) == Lower(y) {
      forall i | 0 <= i < |x|
        ensures LowerChar(x[i]) == LowerChar(y[i])
      {
        assert Lower(x)[i] == Lower(y)[i];
      }
    }
  }
}
