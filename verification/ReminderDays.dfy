/** Reminder day offsets stored as a comma-separated string. */
module ReminderDays {
  import opened Wrappers
  import opened Text

  const DAY_MIN := 1
  const DAY_MAX := 90

  predicate InBounds(days: seq<int>) {
    forall i :: 0 <= i < |days| ==> DAY_MIN <= days[i] <= DAY_MAX
  }

  /** What one comma-separated part contributes: its number, when it is one and within bounds. */
  function Entry(part: string): seq<int> {
    var term := Strip(part);
    if IsDigitString(term) && DAY_MIN <= Value(term) <= DAY_MAX then [Value(term)] else []
  }

  function Read(parts: seq<string>): (lists: seq<seq<int>>)
    ensures |lists| == |parts| && forall i :: 0 <= i < |parts| ==> lists[i] == Entry(parts[i])
  {
    seq(|parts|, i requires 0 <= i < |parts| => Entry(parts[i]))
  }

  function Concat(lists: seq<seq<int>>): seq<int> {
    if lists == [] then [] else Concat(lists[..|lists| - 1]) + lists[|lists| - 1]
  }

  /** The days a stored string stands for. */
  function DaysIn(raw: string): seq<int> {
    if Strip(raw) == "" then [] else Concat(Read(Split(raw, ',')))
  }

  lemma {:induction false} ConcatStep(lists: seq<seq<int>>, n: nat, last: seq<int>)
    requires n < |lists| && lists[n] == last
    ensures Concat(lists[..n + 1]) == Concat(lists[..n]) + last
  {
    assert lists[..n + 1][..n] == lists[..n];
  }

  lemma {:induction false} ConcatSingletons(lists: seq<seq<int>>, days: seq<int>)
    requires |lists| == |days| && forall i :: 0 <= i < |days| ==> lists[i] == [days[i]]
    ensures Concat(lists) == days
  {
    if days != [] {
      var last := |days| - 1;
      ConcatSingletons(lists[..last], days[..last]);
      assert days == days[..last] + [days[last]];
    }
  }

  lemma {:induction false} ConcatInBounds(lists: seq<seq<int>>)
    requires forall i :: 0 <= i < |lists| ==> InBounds(lists[i])
    ensures InBounds(Concat(lists))
  {
    if lists != [] {
      ConcatInBounds(lists[..|lists| - 1]);
    }
  }

  lemma {:induction false} ReadOne(part: string, list: seq<int>)
    requires list == Entry(part)
    ensures InBounds(list)
  {
  }

  // ---------------------------------------------------------------- what is read, piece by piece

  /** A part without a comma stands for its number if it is one, trimmed, from 1 to 90, and else for nothing. */
  lemma {:induction false} OnePart(part: string)
    requires ',' !in part
    ensures DaysIn(part)
         == if IsDigitString(Strip(part)) && 1 <= Value(Strip(part)) <= 90 then [Value(Strip(part))] else []
  {
    SplitSingle(part, ',');
    DaysBySplitting(part);
    assert Read([part])[..0] == [];
  }

  /** A text of blanks needs no case of its own. */
  lemma {:induction false} DaysBySplitting(raw: string)
    ensures DaysIn(raw) == Concat(Read(Split(raw, ',')))
  {
    if Strip(raw) == "" {
      StripIsEmptyIff(raw);
      forall i | 0 <= i < |raw|
        ensures raw[i] != ','
      {
        assert IsSpace(raw[i]);
      }
      SplitSingle(raw, ',');
      assert Read([raw])[..0] == [];
    }
  }

  lemma {:induction false} ConcatJoins(a: seq<seq<int>>, b: seq<seq<int>>)
    ensures Concat(a + b) == Concat(a) + Concat(b)
  {
    if b == [] {
      assert a + b == a;
    } else {
      var front, last := b[..|b| - 1], b[|b| - 1];
      ConcatJoins(a, front);
      ConcatSnoc(front, last, b);
      ConcatSnoc(a + front, last, a + b);
    }
  }

  lemma {:induction false} ConcatSnoc(front: seq<seq<int>>, last: seq<int>, all: seq<seq<int>>)
    requires all == front + [last]
    ensures Concat(all) == Concat(front) + last
  {
    assert all[..|front|] == front;
  }

  lemma {:induction false} ReadJoins(parts: seq<string>, more: seq<string>)
    ensures Concat(Read(parts + more)) == Concat(Read(parts)) + Concat(Read(more))
  {
    var lists, others, all := Read(parts), Read(more), Read(parts + more);
    forall i | 0 <= i < |all|
      ensures all[i] == if i < |parts| then lists[i] else others[i - |parts|]
    {
      var part := (parts + more)[i];
      assert part == if i < |parts| then parts[i] else more[i - |parts|];
      assert all[i] == Entry(part);
    }
    ListsJoin(all, lists, others);
  }

  lemma {:induction false} ListsJoin(all: seq<seq<int>>, lists: seq<seq<int>>, others: seq<seq<int>>)
    requires |all| == |lists| + |others|
    requires forall i :: 0 <= i < |all| ==> all[i] == if i < |lists| then lists[i] else others[i - |lists|]
    ensures Concat(all) == Concat(lists) + Concat(others)
  {
    assert all == lists + others;
    ConcatJoins(lists, others);
  }

  /** What stands on either side of a comma is read by itself, whatever is wrong with the other. */
  lemma {:induction false} CommaSeparates(a: string, b: string, text: string)
    requires text == a + [','] + b
    ensures DaysIn(text) == DaysIn(a) + DaysIn(b)
  {
    var parts, more := Split(a, ','), Split(b, ',');
    DaysBySplitting(a);
    DaysBySplitting(b);
    DaysBySplitting(text);
    SplitConcat(a, b, ',');
    ReadJoins(parts, more);
  }

  method ParseDayList(raw: string) returns (days: seq<int>)
    ensures days == DaysIn(raw)
  {
    days := [];
    if raw == "" || Strip(raw) == "" {
      return;
    }
    var parts := Split(raw, ',');
    ghost var lists := Read(parts);
    for n := 0 to |parts|
      invariant days == Concat(lists[..n])
    {
      var day := ReadEntry(parts[n]);
      ConcatStep(lists, n, day);
      days := days + day;
    }
    assert lists[..|parts|] == lists;
  }

  method ReadEntry(part: string) returns (day: seq<int>)
    ensures day == Entry(part)
  {
    var term := Strip(part);
    if !IsDigitString(term) {
      return [];
    }
    var value := Value(term);
    if DAY_MIN <= value <= DAY_MAX {
      return [value];
    }
    return [];
  }

  function Printed(days: seq<nat>): (parts: seq<string>)
    ensures |parts| == |days| && forall i :: 0 <= i < |days| ==> parts[i] == Decimal(days[i])
  {
    seq(|days|, i requires 0 <= i < |days| => Decimal(days[i]))
  }

  function FormatDayList(days: seq<nat>): string {
    Join(Printed(days), ',')
  }

  lemma {:induction false} DigitsAreTrimmed(term: string)
    requires IsDigitString(term)
    ensures Strip(term) == term
  {
    assert IsDigit(term[0]) && IsDigit(term[|term| - 1]);
    StripTrimmed(term);
  }

  lemma {:induction false} EntryOfNumber(term: string, day: nat)
    requires IsDigitString(term) && Value(term) == day && DAY_MIN <= day <= DAY_MAX
    ensures Entry(term) == [day]
  {
    DigitsAreTrimmed(term);
  }

  lemma {:induction false} PrintedEntry(day: nat)
    requires DAY_MIN <= day <= DAY_MAX
    ensures Entry(Decimal(day)) == [day]
  {
    EntryOfNumber(Decimal(day), day);
  }

  lemma {:induction false} JoinedStart(parts: seq<string>, sep: char)
    requires parts != [] && parts[0] != ""
    ensures Join(parts, sep) != "" && Join(parts, sep)[0] == parts[0][0]
  {
  }

  lemma {:induction false} SomethingLeft(s: string)
    requires s != "" && !IsSpace(s[0])
    ensures Strip(s) != ""
  {
    assert StripLeft(s) == s;
    LastStays(s);
  }

  lemma {:induction false} LastStays(s: string)
    requires s != "" && !IsSpace(s[0])
    ensures StripRight(s) != ""
  {
    if IsSpace(s[|s| - 1]) {
      LastStays(s[..|s| - 1]);
    }
  }

  lemma {:induction false} PrintedListIsSplit(days: seq<nat>)
    requires days != []
    ensures DaysIn(FormatDayList(days)) == Concat(Read(Printed(days)))
  {
    var parts := Printed(days);
    JoinedStart(parts, ',');
    SomethingLeft(FormatDayList(days));
    forall i | 0 <= i < |parts|
      ensures ',' !in parts[i]
    {
      assert IsDigitString(parts[i]);
    }
    SplitJoin(parts, ',');
  }

  lemma {:induction false} PrintedDaysReadBack(days: seq<nat>)
    requires InBounds(days)
    ensures Concat(Read(Printed(days))) == days
  {
    var lists := Read(Printed(days));
    forall i | 0 <= i < |days|
      ensures lists[i] == [days[i]]
    {
      PrintedEntry(days[i]);
    }
    ConcatSingletons(lists, days);
  }

  lemma {:induction false} ReadInBounds(parts: seq<string>)
    ensures InBounds(Concat(Read(parts)))
  {
    var lists := Read(parts);
    forall i | 0 <= i < |parts|
      ensures InBounds(lists[i])
    {
      ReadOne(parts[i], lists[i]);
    }
    ConcatInBounds(lists);
  }

  /** A list of days survives being stored and read back exactly when every day is within bounds. */
  lemma {:induction false} ParseUndoesFormatIff(days: seq<nat>)
    ensures DaysIn(FormatDayList(days)) == days <==> InBounds(days)
  {
    if days == [] {
      assert FormatDayList(days) == "";
    } else {
      PrintedListIsSplit(days);
      ReadInBounds(Printed(days));
      if InBounds(days) {
        PrintedDaysReadBack(days);
      }
    }
  }

  /** Whatever is stored, only days within bounds are read. */
  lemma {:induction false} AnyStringReadsInBounds(raw: string)
    ensures InBounds(DaysIn(raw))
  {
    ReadInBounds(Split(raw, ','));
  }
}
