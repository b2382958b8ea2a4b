/** Printed numbers of invoices, quotes, credit notes and debit notes, and reading them back. */
module DocumentNumbers {
  import opened Wrappers
  import opened Text

  datatype Kind = Invoice | Quote | CreditNote | DebitNote

  const PADDING := 6

  function Prefix(kind: Kind): string {
    match kind
    case Invoice => "INV-"
    case Quote => "QUO-"
    case CreditNote => "CN-"
    case DebitNote => "DN-"
  }

  function FormatNumber(kind: Kind, number: nat): string {
    Prefix(kind) + ZeroPadded(number, PADDING)
  }

  /** The search term without its optional prefix, which is recognised in any case. */
  function Remainder(kind: Kind, value: string): string {
    WithoutPrefix(Prefix(kind), Strip(value))
  }

  function WithoutPrefix(prefix: string, term: string): string {
    if StartsWith(Lower(term), Lower(prefix)) then term[|prefix|..] else term
  }

  /** `term.lstrip("0") or "0"`, then the number if it is all digits. */
  function ReadDigits(rest: string): Option<nat> {
    var stripped := StripLeadingZeros(rest);
    var term := if stripped == "" then "0" else stripped;
    if IsDigitString(term) then Some(Value(term)) else None
  }

  function ParseNumber(kind: Kind, value: string): Option<nat> {
    ReadDigits(Remainder(kind, value))
  }

  lemma {:induction false} ZeroesThenRest(rest: string, k: nat)
    requires k <= |rest| && forall i :: 0 <= i < k ==> rest[i] == '0'
    ensures AllDigits(rest) <==> AllDigits(rest[k..])
    ensures AllDigits(rest) ==> Value(rest) == Value(rest[k..])
  {
    assert rest == rest[..k] + rest[k..];
    if AllDigits(rest[k..]) {
      LeadingZeros(rest[..k], rest[k..]);
    } else {
      var i :| 0 <= i < |rest[k..]| && !IsDigit(rest[k..][i]);
      assert !IsDigit(rest[k + i]);
    }
  }

  lemma {:induction false} ZeroIsZero()
    ensures IsDigitString("0") && Value("0") == 0
  {
    assert "0"[..0] == "";
  }

  lemma {:induction false} ReadsTheDigits(rest: string)
    ensures ReadDigits(rest) == if AllDigits(rest) then Some(Value(rest)) else None
  {
    var stripped := StripLeadingZeros(rest);
    var k := ZerosStripped(rest);
    ZeroesThenRest(rest, k);
    ZeroIsZero();
  }

  /**
   A term reads as a number exactly when what follows the prefix holds nothing but digits, and then as
   the number those digits spell. An empty remainder counts as 0, although the docstring rules that out.
   */
  lemma {:induction false} ParseReadsTheDigits(kind: Kind, value: string)
    ensures ParseNumber(kind, value)
         == if AllDigits(Remainder(kind, value)) then Some(Value(Remainder(kind, value))) else None
  {
    ReadsTheDigits(Remainder(kind, value));
  }

  lemma {:induction false} PrefixIsTrimmed(kind: Kind)
    ensures var p := Prefix(kind);
            p != "" && !IsSpace(p[0]) && !IsSpace(p[|p| - 1]) && !IsDigit(p[0]) && LowerChar(p[0]) != p[0]
            && !IsDigit(LowerChar(p[0]))
  {
  }

  lemma {:induction false} LowerConcat(a: string, b: string)
    ensures Lower(a + b) == Lower(a) + Lower(b)
  {
  }

  /** A prefix followed by digits is taken apart at the right place. */
  lemma {:induction false} RemainderAfterPrefix(kind: Kind, p: string, digits: string)
    requires p == Prefix(kind) && AllDigits(digits)
    ensures Remainder(kind, p + digits) == digits
  {
    PrefixIsTrimmed(kind);
    PrefixedIsTrimmed(p, digits);
    PrefixTakenOff(p, digits);
  }

  lemma {:induction false} PrefixedIsTrimmed(p: string, digits: string)
    requires p != "" && !IsSpace(p[0]) && !IsSpace(p[|p| - 1]) && AllDigits(digits)
    ensures Strip(p + digits) == p + digits
  {
    var text := p + digits;
    assert text[0] == p[0];
    assert text[|text| - 1] == if digits == "" then p[|p| - 1] else digits[|digits| - 1];
    StripTrimmed(text);
  }

  lemma {:induction false} PrefixTakenOff(p: string, rest: string)
    ensures WithoutPrefix(p, p + rest) == rest
  {
    LowerConcat(p, rest);
    assert (p + rest)[|p|..] == rest;
  }

  /** The empty term and a bare prefix both read as number 0. */
  lemma {:induction false} EmptyTermIsZero(kind: Kind)
    ensures ParseNumber(kind, "") == Some(0) && ParseNumber(kind, Prefix(kind)) == Some(0)
  {
    PrefixIsTrimmed(kind);
    StripTrimmed("");
    ReadsTheDigits("");
    RemainderAfterPrefix(kind, Prefix(kind), "");
    assert Prefix(kind) + "" == Prefix(kind);
  }

  /** What is printed reads back as the same number, beyond six digits too. */
  lemma {:induction false} ParseUndoesFormat(kind: Kind, number: nat)
    ensures ParseNumber(kind, FormatNumber(kind, number)) == Some(number)
  {
    RemainderAfterPrefix(kind, Prefix(kind), ZeroPadded(number, PADDING));
    ReadsTheDigits(ZeroPadded(number, PADDING));
  }

  /** No two kinds' prefixes begin with the same letter, in either case. */
  lemma {:induction false} PrefixesDiffer(kind: Kind, other: Kind)
    ensures kind != other ==> LowerChar(Prefix(kind)[0]) != LowerChar(Prefix(other)[0])
  {
  }

  lemma {:induction false} LowerStart(text: string, prefix: string)
    requires text != "" && prefix != "" && LowerChar(text[0]) != LowerChar(prefix[0])
    ensures !StartsWith(Lower(text), Lower(prefix))
  {
    assert Lower(text)[0] != Lower(prefix)[0];
  }

  /** Text that does not begin like the prefix is read whole. */
  lemma {:induction false} RemainderWithoutPrefix(kind: Kind, text: string)
    requires text != "" && !IsSpace(text[0]) && !IsSpace(text[|text| - 1])
    requires LowerChar(text[0]) != LowerChar(Prefix(kind)[0])
    ensures Remainder(kind, text) == text
  {
    StripTrimmed(text);
    LowerStart(text, Prefix(kind));
  }

  /** One kind's printed number is never mistaken for another's. */
  lemma {:induction false} KindsAreNotConfused(kind: Kind, other: Kind, number: nat)
    requires kind != other
    ensures ParseNumber(other, FormatNumber(kind, number)) == None
  {
    PrefixIsTrimmed(kind);
    PrefixesDiffer(kind, other);
    var p, digits := Prefix(kind), ZeroPadded(number, PADDING);
    var text := FormatNumber(kind, number);
    assert text[0] == p[0] && text[|text| - 1] == digits[|digits| - 1];
    RemainderWithoutPrefix(other, text);
    ReadsTheDigits(text);
  }

  /** A bare number, padded or not, is found under any kind. */
  lemma {:induction false} BareNumbersParse(kind: Kind, number: nat, width: nat)
    ensures ParseNumber(kind, ZeroPadded(number, width)) == Some(number)
  {
    PrefixIsTrimmed(kind);
    var text := ZeroPadded(number, width);
    assert IsDigit(LowerChar(text[0]));
    RemainderWithoutPrefix(kind, text);
    ReadsTheDigits(text);
  }

  /**
   How a number is printed: after the prefix of its kind come digits that spell it, at least six of them,
   and more only if the first is not a zero.
   */
  lemma {:induction false} PrintedIs(kind: Kind, number: nat) returns (rest: string)
    ensures FormatNumber(kind, number)
         == (match kind case Invoice => "INV-" case Quote => "QUO-" case CreditNote => "CN-" case DebitNote => "DN-") + rest
    ensures IsDigitString(rest) && Value(rest) == number && |rest| >= 6 && (|rest| > 6 ==> rest[0] != '0')
  {
    rest := ZeroPadded(number, 6);
    PaddedTo(number, 6);
  }

  lemma {:induction false} PaddedTo(number: nat, width: nat)
    requires width > 0
    ensures |ZeroPadded(number, width)| > width ==> ZeroPadded(number, width)[0] != '0'
  {
    var digits := Decimal(number);
    if |digits| > width {
      assert Zeros(0) + digits == digits;
      if number > 0 {
        DecimalLeads(number);
      }
    }
  }

  /** A printed number reads back with blanks around it, and with its prefix in any case and any number of zeros. */
  lemma {:induction false} AnySpellingParses(kind: Kind, p: string, number: nat, width: nat, before: string, after: string)
    requires Lower(p) == Lower(Prefix(kind)) && AllSpaces(before) && AllSpaces(after)
    ensures ParseNumber(kind, before + (p + ZeroPadded(number, width)) + after) == Some(number)
  {
    var digits := ZeroPadded(number, width);
    var term := p + digits;
    SpelledPrefix(kind, p);
    assert term[0] == p[0] && term[|term| - 1] == digits[|digits| - 1];
    StripAround(before, term, after);
    SpelledPrefixTakenOff(Prefix(kind), p, digits);
    ReadsTheDigits(digits);
  }

  lemma {:induction false} SpelledPrefix(kind: Kind, p: string)
    requires Lower(p) == Lower(Prefix(kind))
    ensures p != "" && !IsSpace(p[0])
  {
    PrefixIsTrimmed(kind);
    assert |p| == |Lower(p)| == |Prefix(kind)|;
    assert LowerChar(p[0]) == Lower(p)[0] == LowerChar(Prefix(kind)[0]);
  }

  lemma {:induction false} SpelledPrefixTakenOff(prefix: string, p: string, rest: string)
    requires Lower(p) == Lower(prefix)
    ensures WithoutPrefix(prefix, p + rest) == rest
  {
    LowerConcat(p, rest);
    assert |p| == |Lower(p)| == |Lower(prefix)| == |prefix|;
    assert (p + rest)[|p|..] == rest;
  }
}
