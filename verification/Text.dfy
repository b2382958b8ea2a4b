/**
 The Python string operations the identity keys and document numbers rely on, over ASCII text.
 */
module Text {

  predicate IsDigit(c: char) {
    '0' <= c <= '9'
  }

  /** `str.isspace` and the regular-expression class \s, on ASCII. */
  predicate IsSpace(c: char) {
    9 <= c as int <= 13 || 28 <= c as int <= 32
  }

  predicate AllDigits(s: string) {
    forall i :: 0 <= i < |s| ==> IsDigit(s[i])
  }

  /** `str.isdigit`, which is false on the empty string. */
  predicate IsDigitString(s: string) {
    s != "" && AllDigits(s)
  }

  function DigitValue(c: char): nat
    requires IsDigit(c)
  {
    c as int - '0' as int
  }

  function DigitChar(d: nat): (c: char)
    requires d < 10
    ensures IsDigit(c) && DigitValue(c) == d
  {
    ('0' as int + d) as char
  }

  /** `int(s)` on a digit string; the empty string counts as 0. */
  function Value(s: string): nat
    requires AllDigits(s)
  {
    if s == "" then 0 else 10 * Value(s[..|s| - 1]) + DigitValue(s[|s| - 1])
  }

  /** `str(n)` */
  function Decimal(n: nat): (s: string)
    ensures IsDigitString(s)
    ensures Value(s) == n
  {
    if n < 10 then [DigitChar(n)]
    else
      var front := Decimal(n / 10);
      assert (front + [DigitChar(n % 10)])[..|front|] == front;
      front + [DigitChar(n % 10)]
  }

  /** No leading zero, except in 0 itself. */
  lemma {:induction false} DecimalLeads(n: nat)
    requires n > 0
    ensures Decimal(n)[0] != '0'
  {
    if n >= 10 {
      DecimalLeads(n / 10);
    }
  }

  function Zeros(n: nat): (z: string)
    ensures |z| == n && forall i :: 0 <= i < n ==> z[i] == '0'
  {
    if n == 0 then "" else Zeros(n - 1) + "0"
  }

  /** f"{n:0{width}d}" */
  function ZeroPadded(n: nat, width: nat): (s: string)
    ensures IsDigitString(s) && |s| >= width
    ensures Value(s) == n
  {
    var digits := Decimal(n);
    var zeros := Zeros(if |digits| < width then width - |digits| else 0);
    LeadingZeros(zeros, digits);
    zeros + digits
  }

  /** Leading zeros never change the number. */
  lemma {:induction false} LeadingZeros(zeros: string, digits: string)
    requires forall i :: 0 <= i < |zeros| ==> zeros[i] == '0'
    requires AllDigits(digits)
    ensures AllDigits(zeros + digits) && Value(zeros + digits) == Value(digits)
  {
    if digits != "" {
      var last := |digits| - 1;
      LeadingZeros(zeros, digits[..last]);
      assert (zeros + digits)[..|zeros + digits| - 1] == zeros + digits[..last];
    } else if zeros != "" {
      var last := |zeros| - 1;
      LeadingZeros(zeros[..last], "");
      assert zeros + digits == zeros;
      assert zeros[..last] + "" == zeros[..last];
    }
  }

  /** `s.lstrip("0")` */
  function StripLeadingZeros(s: string): (r: string)
    ensures r == "" || r[0] != '0'
  {
    if s != "" && s[0] == '0' then StripLeadingZeros(s[1..]) else s
  }

  lemma {:induction false} ZerosStripped(s: string) returns (k: nat)
    ensures k <= |s| && StripLeadingZeros(s) == s[k..] && forall i :: 0 <= i < k ==> s[i] == '0'
  {
    if s != "" && s[0] == '0' {
      var rest := s[1..];
      var n := ZerosStripped(rest);
      k := n + 1;
      assert rest[n..] == s[k..];
      assert forall i :: 0 < i < k ==> s[i] == rest[i - 1];
    } else {
      k := 0;
    }
  }

  // ---------------------------------------------------------------- trimming and case

  function StripLeft(s: string): (r: string)
    ensures r == "" || !IsSpace(r[0])
    ensures |r| <= |s|
  {
    if s != "" && IsSpace(s[0]) then StripLeft(s[1..]) else s
  }

  function StripRight(s: string): (r: string)
    ensures |r| <= |s| && (r == "" || (r[0] == s[0] && !IsSpace(r[|r| - 1])))
  {
    if s != "" && IsSpace(s[|s| - 1]) then StripRight(s[..|s| - 1]) else s
  }

  /** `s.strip()` */
  function Strip(s: string): (r: string)
    ensures r == "" || (!IsSpace(r[0]) && !IsSpace(r[|r| - 1]))
  {
    StripRight(StripLeft(s))
  }

  lemma {:induction false} StripTrimmed(s: string)
    requires s == "" || (!IsSpace(s[0]) && !IsSpace(s[|s| - 1]))
    ensures Strip(s) == s
  {
  }

  predicate AllSpaces(s: string) {
    forall i :: 0 <= i < |s| ==> IsSpace(s[i])
  }

  /** Trimming takes blanks off both ends and nothing else. */
  lemma {:induction false} StripParts(s: string) returns (before: string, after: string)
    ensures s == before + Strip(s) + after && AllSpaces(before) && AllSpaces(after)
  {
    before := LeftPart(s);
    after := RightPart(StripLeft(s));
    assert before + (Strip(s) + after) == before + Strip(s) + after;
  }

  /** Nothing is left exactly of a text of blanks. */
  lemma {:induction false} StripIsEmptyIff(s: string)
    ensures Strip(s) == "" <==> AllSpaces(s)
  {
    var before, after := StripParts(s);
    if Strip(s) == "" {
      assert s == before + after;
    } else if AllSpaces(s) {
      StripOfBlanks(s);
    }
  }

  lemma {:induction false} StripOfBlanks(s: string)
    requires AllSpaces(s)
    ensures StripLeft(s) == ""
  {
    if s != "" {
      StripOfBlanks(s[1..]);
    }
  }

  lemma {:induction false} PutInFront(c: char, a: string, b: string)
    ensures [c] + (a + b) == [c] + a + b
  {
  }

  lemma {:induction false} LeftPart(s: string) returns (before: string)
    ensures s == before + StripLeft(s) && AllSpaces(before)
  {
    if s != "" && IsSpace(s[0]) {
      var rest := LeftPart(s[1..]);
      before := [s[0]] + rest;
      PutInFront(s[0], rest, StripLeft(s));
      assert s == [s[0]] + s[1..];
    } else {
      before := "";
    }
  }

  lemma {:induction false} RightPart(s: string) returns (after: string)
    ensures s == StripRight(s) + after && AllSpaces(after)
  {
    if s != "" && IsSpace(s[|s| - 1]) {
      var rest := RightPart(s[..|s| - 1]);
      after := rest + [s[|s| - 1]];
      assert s == s[..|s| - 1] + [s[|s| - 1]];
    } else {
      after := "";
    }
  }

  lemma {:induction false} StripRightOf(s: string, after: string)
    requires (s == "" || !IsSpace(s[|s| - 1])) && AllSpaces(after)
    ensures StripRight(s + after) == s
  {
    if after == "" {
      assert s + after == s;
    } else {
      var last := |after| - 1;
      assert (s + after)[..|s + after| - 1] == s + after[..last];
      StripRightOf(s, after[..last]);
    }
  }

  lemma {:induction false} StripOf(s: string, after: string)
    requires s != "" && !IsSpace(s[0]) && !IsSpace(s[|s| - 1]) && AllSpaces(after)
    ensures Strip(s + after) == s
  {
    assert StripLeft(s + after) == s + after;
    StripRightOf(s, after);
  }

  lemma {:induction false} StripAround(before: string, s: string, after: string)
    requires s != "" && !IsSpace(s[0]) && !IsSpace(s[|s| - 1]) && AllSpaces(before) && AllSpaces(after)
    ensures Strip(before + s + after) == s
  {
    if before == "" {
      assert before + s + after == s + after;
      StripOf(s, after);
    } else {
      var text := before + s + after;
      assert text[1..] == before[1..] + s + after && text[0] == before[0];
      StripAround(before[1..], s, after);
    }
  }

  function LowerChar(c: char): char {
    if 'A' <= c <= 'Z' then (c as int + 32) as char else c
  }

  /** `s.lower()` */
  function Lower(s: string): (r: string)
    ensures |r| == |s| && forall i :: 0 <= i < |s| ==> r[i] == LowerChar(s[i])
  {
    seq(|s|, i requires 0 <= i < |s| => LowerChar(s[i]))
  }

  lemma {:induction false} LowerTwice(s: string)
    ensures Lower(Lower(s)) == Lower(s)
  {
  }

  lemma {:induction false} LowerStaysTrimmed(s: string)
    requires s == "" || (!IsSpace(s[0]) && !IsSpace(s[|s| - 1]))
    ensures Strip(Lower(s)) == Lower(s)
  {
    var lower := Lower(s);
    assert s != "" ==> lower[0] == LowerChar(s[0]) && lower[|s| - 1] == LowerChar(s[|s| - 1]);
    StripTrimmed(lower);
  }

  /** `s.strip().lower()` is a normal form. */
  lemma {:induction false} LowerStripTwice(s: string)
    ensures Lower(Strip(Lower(Strip(s)))) == Lower(Strip(s))
  {
    var trimmed := Strip(s);
    LowerStaysTrimmed(trimmed);
    LowerTwice(trimmed);
  }

  /** `s.startswith(prefix)` */
  predicate StartsWith(s: string, prefix: string) {
    prefix <= s
  }

  // ---------------------------------------------------------------- characters kept or dropped

  /** Removes every character that is not kept, as `re.sub("[^...]", "", s)` does. */
  function Keep(s: string, kept: char -> bool): (r: string)
    ensures |r| <= |s| && forall i :: 0 <= i < |r| ==> kept(r[i])
  {
    if s == "" then "" else (if kept(s[0]) then [s[0]] else "") + Keep(s[1..], kept)
  }

  lemma {:induction false} KeepEverything(s: string, kept: char -> bool)
    requires forall i :: 0 <= i < |s| ==> kept(s[i])
    ensures Keep(s, kept) == s
  {
    if s != "" {
      KeepEverything(s[1..], kept);
    }
  }

  lemma {:induction false} KeepConcat(a: string, b: string, kept: char -> bool)
    ensures Keep(a + b, kept) == Keep(a, kept) + Keep(b, kept)
  {
    if a == "" {
      assert a + b == b;
    } else {
      assert (a + b)[1..] == a[1..] + b && (a + b)[0] == a[0];
      KeepConcat(a[1..], b, kept);
      var head := if kept(a[0]) then [a[0]] else "";
      assert head + (Keep(a[1..], kept) + Keep(b, kept)) == (head + Keep(a[1..], kept)) + Keep(b, kept);
    }
  }

  /** Two filters that agree on the text keep the same of it. */
  lemma {:induction false} KeepSame(s: string, kept: char -> bool, other: char -> bool)
    requires forall i :: 0 <= i < |s| ==> (kept(s[i]) <==> other(s[i]))
    ensures Keep(s, kept) == Keep(s, other)
  {
    if s != "" {
      KeepSame(s[1..], kept, other);
    }
  }

  lemma {:induction false} KeepHead(c: char, rest: string, kept: char -> bool)
    ensures Keep([c] + rest, kept) == if kept(c) then [c] + Keep(rest, kept) else Keep(rest, kept)
  {
    assert ([c] + rest)[1..] == rest;
  }

  /** Filtering again by a stricter filter is filtering by it at once. */
  lemma {:induction false} KeepTwice(s: string, kept: char -> bool, fewer: char -> bool)
    requires forall c :: fewer(c) ==> kept(c)
    ensures Keep(Keep(s, kept), fewer) == Keep(s, fewer)
  {
    if s != "" {
      KeepTwice(s[1..], kept, fewer);
      var c, rest := s[0], s[1..];
      assert s == [c] + rest;
      KeepHead(c, rest, kept);
      KeepHead(c, rest, fewer);
      KeepHead(c, Keep(rest, kept), fewer);
    }
  }

  /** A more generous filter keeps more exactly when it has something more to keep. */
  lemma {:induction false} KeepMore(s: string, kept: char -> bool, more: char -> bool)
    requires forall i :: 0 <= i < |s| && kept(s[i]) ==> more(s[i])
    ensures |Keep(s, kept)| <= |Keep(s, more)|
    ensures |Keep(s, kept)| == |Keep(s, more)| <==> forall i :: 0 <= i < |s| && more(s[i]) ==> kept(s[i])
  {
    if s != "" {
      KeepMore(s[1..], kept, more);
      assert forall i :: 0 < i < |s| ==> s[i] == s[1..][i - 1];
    }
  }

  lemma {:induction false} KeepStripLeft(s: string, kept: char -> bool)
    requires forall c :: IsSpace(c) ==> !kept(c)
    ensures Keep(StripLeft(s), kept) == Keep(s, kept)
  {
    if s != "" && IsSpace(s[0]) {
      KeepStripLeft(s[1..], kept);
    }
  }

  lemma {:induction false} KeepStripRight(s: string, kept: char -> bool)
    requires forall c :: IsSpace(c) ==> !kept(c)
    ensures Keep(StripRight(s), kept) == Keep(s, kept)
  {
    if s != "" && IsSpace(s[|s| - 1]) {
      var front, last := s[..|s| - 1], s[|s| - 1..];
      KeepStripRight(front, kept);
      KeepConcat(front, last, kept);
      assert s == front + last && last[1..] == "";
    }
  }

  /** A filter that drops blanks does not notice trimming. */
  lemma {:induction false} KeepStrip(s: string, kept: char -> bool)
    requires forall c :: IsSpace(c) ==> !kept(c)
    ensures Keep(Strip(s), kept) == Keep(s, kept)
  {
    KeepStripRight(StripLeft(s), kept);
    KeepStripLeft(s, kept);
  }

  // ---------------------------------------------------------------- split and join

  /** `s.split(sep)` on one separator character. */
  function Split(s: string, sep: char): (parts: seq<string>)
    ensures parts != []
    ensures forall i :: 0 <= i < |parts| ==> sep !in parts[i]
  {
    if s == "" then [""]
    else
      var rest := Split(s[1..], sep);
      if s[0] == sep then [""] + rest else [[s[0]] + rest[0]] + rest[1..]
  }

  /** `sep.join(parts)` */
  function Join(parts: seq<string>, sep: char): string {
    if parts == [] then ""
    else if |parts| == 1 then parts[0]
    else parts[0] + [sep] + Join(parts[1..], sep)
  }

  lemma {:induction false} SplitSeparated(head: string, tail: string, sep: char)
    requires sep !in head
    ensures Split(head + [sep] + tail, sep) == [head] + Split(tail, sep)
  {
    var s := head + [sep] + tail;
    if head == "" {
      assert s[1..] == tail;
    } else {
      assert s[1..] == head[1..] + [sep] + tail;
      SplitSeparated(head[1..], tail, sep);
      assert [head[0]] + head[1..] == head;
    }
  }

  lemma {:induction false} SplitSingle(s: string, sep: char)
    requires sep !in s
    ensures Split(s, sep) == [s]
  {
    if s != "" {
      SplitSingle(s[1..], sep);
      assert [s[0]] + s[1..] == s;
    }
  }

  lemma {:induction false} SplitHead(c: char, tail: string, sep: char)
    ensures var rest := Split(tail, sep);
            Split([c] + tail, sep) == if c == sep then [""] + rest else [[c] + rest[0]] + rest[1..]
  {
    assert ([c] + tail)[1..] == tail;
  }

  lemma {:induction false} HeadJoined(c: char, rest: seq<string>, more: seq<string>)
    requires rest != []
    ensures [[c] + (rest + more)[0]] + (rest + more)[1..] == ([[c] + rest[0]] + rest[1..]) + more
  {
  }

  /** Splitting works piece by piece. */
  lemma {:induction false} SplitConcat(a: string, b: string, sep: char)
    ensures Split(a + [sep] + b, sep) == Split(a, sep) + Split(b, sep)
  {
    if a == "" {
      assert a + [sep] + b == [sep] + b;
      SplitHead(sep, b, sep);
    } else {
      var c, tail := a[0], a[1..];
      assert a == [c] + tail && a + [sep] + b == [c] + (tail + [sep] + b);
      SplitConcat(tail, b, sep);
      SplitHead(c, tail, sep);
      SplitHead(c, tail + [sep] + b, sep);
      HeadJoined(c, Split(tail, sep), Split(b, sep));
    }
  }

  /** Splitting undoes joining for parts that do not contain the separator. */
  lemma {:induction false} SplitJoin(parts: seq<string>, sep: char)
    requires parts != [] && forall i :: 0 <= i < |parts| ==> sep !in parts[i]
    ensures Split(Join(parts, sep), sep) == parts
  {
    if |parts| == 1 {
      SplitSingle(parts[0], sep);
    } else {
      SplitJoin(parts[1..], sep);
      SplitSeparated(parts[0], Join(parts[1..], sep), sep);
    }
  }
}
