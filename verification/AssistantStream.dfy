/**
 The Anthropic event stream: tool calls arrive as content blocks whose argument text comes in
 fragments, interleaved with each other and with text. Decoding a line and parsing an argument
 text are parameters; A is the type of parsed arguments.
 */
module AssistantStream {
  import opened Wrappers
  import Text

  /** A decoded `data:` line. A missing index, text or fragment is None or the empty string. */
  datatype ProviderEvent =
    | BlockStart(index: Option<int>, isToolUse: bool, name: string)
    | TextDelta(text: string)
    | InputJsonDelta(index: Option<int>, fragment: string)
    | BlockStop(index: Option<int>)
    | Other

  datatype StreamEvent<A> = Prose(text: string) | ToolInvocation(name: string, arguments: A)

  /** How argument text is read: a JSON parser that may fail, and the value of an empty object. */
  datatype Reader<!A> = Reader(parse: string -> Option<A>, noArguments: A) {
    function Read(json: string): Option<A> {
      if Text.Strip(json) == "" then Some(noArguments) else parse(json)
    }
  }

  datatype Buffer = Buffer(name: string, json: string)

  // ---------------------------------------------------------------- lines

  const DATA_PREFIX := "data:"

  /** Blank lines, other fields, and undecodable data carry no event. */
  function LineEvent(line: string, decode: string -> Option<ProviderEvent>): Option<ProviderEvent> {
    if !Text.StartsWith(line, DATA_PREFIX) then None
    else
      var data := Text.Strip(line[|DATA_PREFIX|..]);
      if data == "" then None else decode(data)
  }

  function LineEvents(lines: seq<string>, decode: string -> Option<ProviderEvent>): seq<ProviderEvent> {
    if lines == [] then []
    else
      LineEvents(lines[..|lines| - 1], decode)
      + match LineEvent(lines[|lines| - 1], decode) case Some(event) => [event] case None => []
  }

  // ---------------------------------------------------------------- what must come out

  /** What an event does to the block at an index. */
  function NextBlock(block: Option<Buffer>, event: ProviderEvent, index: Option<int>): Option<Buffer> {
    match event
    case BlockStart(i, isToolUse, name) => if isToolUse && i == index then Some(Buffer(name, "")) else block
    case InputJsonDelta(i, fragment) =>
      if i == index && block.Some? then Some(Buffer(block.value.name, block.value.json + fragment)) else block
    case BlockStop(i) => if i == index then None else block
    case _ => block
  }

  /** The tool block open at an index, seen through the events of that index alone. */
  function OpenBlock(events: seq<ProviderEvent>, index: Option<int>): Option<Buffer> {
    if events == [] then None
    else NextBlock(OpenBlock(events[..|events| - 1], index), events[|events| - 1], index)
  }

  /** The call a closing block turns into. */
  function Call<A>(block: Option<Buffer>, reader: Reader<A>): seq<StreamEvent<A>> {
    if block.None? then []
    else
      var arguments := reader.Read(block.value.json);
      if arguments.None? then [] else [ToolInvocation(block.value.name, arguments.value)]
  }

  /** What one event adds to the output after the events before it. */
  function EmittedBy<A>(before: seq<ProviderEvent>, event: ProviderEvent, reader: Reader<A>): seq<StreamEvent<A>> {
    match event
    case TextDelta(text) => if text == "" then [] else [Prose(text)]
    case BlockStop(index) => Call(OpenBlock(before, index), reader)
    case _ => []
  }

  function Emitted<A>(events: seq<ProviderEvent>, reader: Reader<A>): seq<StreamEvent<A>> {
    if events == [] then []
    else
      var last := |events| - 1;
      Emitted(events[..last], reader) + EmittedBy(events[..last], events[last], reader)
  }

  lemma {:induction false} OneMoreEvent<A>(before: seq<ProviderEvent>, event: ProviderEvent, reader: Reader<A>)
    ensures Emitted(before + [event], reader) == Emitted(before, reader) + EmittedBy(before, event, reader)
    ensures forall i :: OpenBlock(before + [event], i) == NextBlock(OpenBlock(before, i), event, i)
  {
    assert (before + [event])[..|before|] == before;
  }

  // ---------------------------------------------------------------- the demultiplexer

  type Buffers = map<Option<int>, Buffer>

  function Lookup(buffers: Buffers, index: Option<int>): Option<Buffer> {
    if index in buffers then Some(buffers[index]) else None
  }

  /** One dictionary entry per open index. */
  method Consume<A>(buffers: Buffers, event: ProviderEvent, reader: Reader<A>)
    returns (after: Buffers, out: seq<StreamEvent<A>>)
    ensures forall i :: Lookup(after, i) == NextBlock(Lookup(buffers, i), event, i)
    ensures out == match event
                   case TextDelta(text) => if text == "" then [] else [Prose(text)]
                   case BlockStop(index) => Call(Lookup(buffers, index), reader)
                   case _ => []
  {
    after, out := buffers, [];
    match event {
      case BlockStart(index, isToolUse, name) =>
        if isToolUse {
          after := buffers[index := Buffer(name, "")];
        }
      case TextDelta(text) =>
        if text != "" {
          out := [Prose(text)];
        }
      case InputJsonDelta(index, fragment) =>
        if index in buffers {
          after := buffers[index := Buffer(buffers[index].name, buffers[index].json + fragment)];
        }
      case BlockStop(index) =>
        if index in buffers {
          after := buffers - {index};
          var arguments := reader.Read(buffers[index].json);
          if arguments.Some? {
            out := [ToolInvocation(buffers[index].name, arguments.value)];
          }
        }
      case Other =>
    }
  }

  method IterEvents<A>(lines: seq<string>, decode: string -> Option<ProviderEvent>, reader: Reader<A>)
    returns (out: seq<StreamEvent<A>>)
    ensures out == Emitted(LineEvents(lines, decode), reader)
  {
    out := [];
    var buffers: Buffers := map[];
    for n := 0 to |lines|
      invariant out == Emitted(LineEvents(lines[..n], decode), reader)
      invariant forall i :: OpenBlock(LineEvents(lines[..n], decode), i) == Lookup(buffers, i)
    {
      assert lines[..n + 1][..n] == lines[..n];
      var event := LineEvent(lines[n], decode);
      ghost var events := LineEvents(lines[..n], decode);
      assert LineEvents(lines[..n + 1], decode) == if event.Some? then events + [event.value] else events;
      if event.None? {
        continue;
      }
      OneMoreEvent(events, event.value, reader);
      var more;
      buffers, more := Consume(buffers, event.value, reader);
      out := out + more;
    }
    assert lines[..|lines|] == lines;
  }

  // ---------------------------------------------------------------- blocks do not disturb each other

  /** The events that can change or close the tool block at an index. */
  predicate Touches(event: ProviderEvent, index: Option<int>) {
    match event
    case BlockStart(i, isToolUse, _) => isToolUse && i == index
    case InputJsonDelta(i, _) => i == index
    case BlockStop(i) => i == index
    case _ => false
  }

  function Only(events: seq<ProviderEvent>, index: Option<int>): seq<ProviderEvent> {
    if events == [] then []
    else
      var last := |events| - 1;
      Only(events[..last], index) + if Touches(events[last], index) then [events[last]] else []
  }

  function Without(events: seq<ProviderEvent>, index: Option<int>): seq<ProviderEvent> {
    if events == [] then []
    else
      var last := |events| - 1;
      Without(events[..last], index) + if Touches(events[last], index) then [] else [events[last]]
  }

  /** The part of the output owed to the block events of one index. */
  function EmittedAt<A>(events: seq<ProviderEvent>, index: Option<int>, reader: Reader<A>): seq<StreamEvent<A>> {
    if events == [] then []
    else
      var last := |events| - 1;
      EmittedAt(events[..last], index, reader)
      + if Touches(events[last], index) then EmittedBy(events[..last], events[last], reader) else []
  }

  /** The rest of the output. */
  function EmittedElsewhere<A>(events: seq<ProviderEvent>, index: Option<int>, reader: Reader<A>): seq<StreamEvent<A>> {
    if events == [] then []
    else
      var last := |events| - 1;
      EmittedElsewhere(events[..last], index, reader)
      + if Touches(events[last], index) then [] else EmittedBy(events[..last], events[last], reader)
  }

  lemma {:induction false} OpenBlockIsLocal(events: seq<ProviderEvent>, index: Option<int>)
    ensures OpenBlock(Only(events, index), index) == OpenBlock(events, index)
  {
    if events != [] {
      var last := |events| - 1;
      OpenBlockIsLocal(events[..last], index);
      var rest := Only(events[..last], index);
      assert (rest + [events[last]])[..|rest|] == rest;
      assert rest + [] == rest;
    }
  }

  lemma {:induction false} OpenBlockElsewhere(events: seq<ProviderEvent>, index: Option<int>, other: Option<int>)
    requires other != index
    ensures OpenBlock(Without(events, index), other) == OpenBlock(events, other)
  {
    if events != [] {
      var last := |events| - 1;
      OpenBlockElsewhere(events[..last], index, other);
      var rest := Without(events[..last], index);
      if Touches(events[last], index) {
        assert rest + [] == rest;
      } else {
        assert (rest + [events[last]])[..|rest|] == rest;
      }
    }
  }

  /** Whatever else is in the stream, an index emits what its own events alone would emit. */
  lemma {:induction false} BlockIsIsolated<A>(events: seq<ProviderEvent>, index: Option<int>, reader: Reader<A>)
    ensures EmittedAt(events, index, reader) == Emitted(Only(events, index), reader)
  {
    if events != [] {
      var last := |events| - 1;
      BlockIsIsolated(events[..last], index, reader);
      var rest := Only(events[..last], index);
      if Touches(events[last], index) {
        OpenBlockIsLocal(events[..last], index);
        assert (rest + [events[last]])[..|rest|] == rest;
        assert EmittedBy(rest, events[last], reader) == EmittedBy(events[..last], events[last], reader);
      } else {
        assert rest + [] == rest;
      }
    }
  }

  lemma {:induction false} EmittedWithout<A>(events: seq<ProviderEvent>, event: ProviderEvent, index: Option<int>, reader: Reader<A>)
    requires !Touches(event, index)
    ensures EmittedBy(Without(events, index), event, reader) == EmittedBy(events, event, reader)
  {
    if event.BlockStop? {
      OpenBlockElsewhere(events, index, event.index);
    }
  }

  /** Deleting a block from the stream deletes its own output and nothing else. */
  lemma {:induction false} RemovingABlock<A>(events: seq<ProviderEvent>, index: Option<int>, reader: Reader<A>)
    ensures Emitted(Without(events, index), reader) == EmittedElsewhere(events, index, reader)
  {
    if events != [] {
      var init, event := events[..|events| - 1], events[|events| - 1];
      RemovingABlock(init, index, reader);
      if Touches(event, index) {
        assert Without(events, index) == Without(init, index);
      } else {
        assert Without(events, index) == Without(init, index) + [event];
        EmittedWithout(init, event, index, reader);
        OneMoreEvent(Without(init, index), event, reader);
      }
    }
  }

  /** A block that emits nothing, because its arguments are malformed or it never closed, costs nothing else. */
  lemma {:induction false} SilentBlockDropsOnlyItself<A>(events: seq<ProviderEvent>, index: Option<int>, reader: Reader<A>)
    requires EmittedAt(events, index, reader) == []
    ensures Emitted(events, reader) == Emitted(Without(events, index), reader)
  {
    RemovingABlock(events, index, reader);
    SilentEverywhere(events, index, reader);
  }

  lemma {:induction false} SilentEverywhere<A>(events: seq<ProviderEvent>, index: Option<int>, reader: Reader<A>)
    requires EmittedAt(events, index, reader) == []
    ensures Emitted(events, reader) == EmittedElsewhere(events, index, reader)
  {
    if events != [] {
      SilentEverywhere(events[..|events| - 1], index, reader);
    }
  }

  // ---------------------------------------------------------------- one block, one call

  function Deltas(index: Option<int>, fragments: seq<string>): seq<ProviderEvent> {
    if fragments == [] then []
    else Deltas(index, fragments[..|fragments| - 1]) + [InputJsonDelta(index, fragments[|fragments| - 1])]
  }

  function Concat(fragments: seq<string>): string {
    if fragments == [] then "" else Concat(fragments[..|fragments| - 1]) + fragments[|fragments| - 1]
  }

  /** A tool block as the provider sends it. */
  function Block(index: Option<int>, name: string, fragments: seq<string>): seq<ProviderEvent> {
    [BlockStart(index, true, name)] + Deltas(index, fragments) + [BlockStop(index)]
  }

  lemma {:induction false} FragmentsConcatenate<A>(index: Option<int>, name: string, fragments: seq<string>, reader: Reader<A>)
    ensures var opening := [BlockStart(index, true, name)] + Deltas(index, fragments);
            OpenBlock(opening, index) == Some(Buffer(name, Concat(fragments))) && Emitted(opening, reader) == []
  {
    var start := [BlockStart(index, true, name)];
    if fragments == [] {
      assert start + Deltas(index, fragments) == start;
      assert start[..0] == [];
    } else {
      var last := |fragments| - 1;
      FragmentsConcatenate(index, name, fragments[..last], reader);
      var opening := start + Deltas(index, fragments[..last]);
      assert start + Deltas(index, fragments) == opening + [InputJsonDelta(index, fragments[last])];
      OneMoreEvent(opening, InputJsonDelta(index, fragments[last]), reader);
    }
  }

  /** These are the events of one whole tool block, with its argument text in these fragments. */
  predicate IsBlock(events: seq<ProviderEvent>, index: Option<int>, name: string, fragments: seq<string>) {
    && |events| == |fragments| + 2
    && events[0] == BlockStart(index, true, name)
    && (forall i :: 0 <= i < |fragments| ==> events[i + 1] == InputJsonDelta(index, fragments[i]))
    && events[|fragments| + 1] == BlockStop(index)
  }

  lemma {:induction false} DeltasAt(index: Option<int>, fragments: seq<string>)
    ensures |Deltas(index, fragments)| == |fragments|
    ensures forall i :: 0 <= i < |fragments| ==> Deltas(index, fragments)[i] == InputJsonDelta(index, fragments[i])
  {
    if fragments != [] {
      DeltasAt(index, fragments[..|fragments| - 1]);
    }
  }

  lemma {:induction false} BlockIsBlock(events: seq<ProviderEvent>, index: Option<int>, name: string, fragments: seq<string>)
    requires IsBlock(events, index, name, fragments)
    ensures events == Block(index, name, fragments)
  {
    DeltasAt(index, fragments);
    var block := Block(index, name, fragments);
    forall i | 0 <= i < |events|
      ensures events[i] == block[i]
    {
      assert 0 < i <= |fragments| ==> events[i] == events[(i - 1) + 1];
    }
  }

  /** What a whole block owes: one call, unless its argument text is neither blank nor parses. */
  function Owed<A>(name: string, json: string, reader: Reader<A>): seq<StreamEvent<A>> {
    if Text.AllSpaces(json) then [ToolInvocation(name, reader.noArguments)]
    else match reader.parse(json)
      case Some(arguments) => [ToolInvocation(name, arguments)]
      case None => []
  }

  lemma {:induction false} CallIsOwed<A>(name: string, json: string, reader: Reader<A>)
    ensures Call(Some(Buffer(name, json)), reader) == Owed(name, json, reader)
  {
    Text.StripIsEmptyIff(json);
  }

  /**
   However a block is interleaved with text and other blocks, it yields exactly one call, which carries
   what its fragments put together parse to, or the empty arguments if they are blank; it yields nothing
   if they are not blank and do not parse.
   */
  lemma {:induction false} BlockYieldsItsCall<A>(
      events: seq<ProviderEvent>, index: Option<int>, name: string, fragments: seq<string>, reader: Reader<A>)
    requires IsBlock(Only(events, index), index, name, fragments)
    ensures var json := Concat(fragments);
            EmittedAt(events, index, reader)
            == if Text.AllSpaces(json) then [ToolInvocation(name, reader.noArguments)]
               else match reader.parse(json)
                 case Some(arguments) => [ToolInvocation(name, arguments)]
                 case None => []
  {
    BlockIsBlock(Only(events, index), index, name, fragments);
    BlockIsIsolated(events, index, reader);
    FragmentsConcatenate(index, name, fragments, reader);
    OneMoreEvent([BlockStart(index, true, name)] + Deltas(index, fragments), BlockStop(index), reader);
    CallIsOwed(name, Concat(fragments), reader);
  }

  /** The same for one index, with the longer stream named. */
  lemma {:induction false} OneMoreAt<A>(so: seq<ProviderEvent>, before: seq<ProviderEvent>, event: ProviderEvent, index: Option<int>,
                                        reader: Reader<A>)
    requires so == before + [event]
    ensures OpenBlock(so, index) == NextBlock(OpenBlock(before, index), event, index)
    ensures Emitted(so, reader) == Emitted(before, reader) + EmittedBy(before, event, reader)
  {
    OneMoreEvent(before, event, reader);
  }

  lemma {:induction false} NextFragment<A>(so: seq<ProviderEvent>, before: seq<ProviderEvent>, index: Option<int>, name: string,
                                           json: string, fragment: string, reader: Reader<A>)
    requires so == before + [InputJsonDelta(index, fragment)] && OpenBlock(before, index) == Some(Buffer(name, json))
    ensures OpenBlock(so, index) == Some(Buffer(name, json + fragment)) && Emitted(so, reader) == Emitted(before, reader)
  {
    OneMoreAt(so, before, InputJsonDelta(index, fragment), index, reader);
  }

  lemma {:induction false} BlockStarts<A>(so: seq<ProviderEvent>, before: seq<ProviderEvent>, index: Option<int>, name: string,
                                          reader: Reader<A>)
    requires so == before + [BlockStart(index, true, name)]
    ensures OpenBlock(so, index) == Some(Buffer(name, "")) && Emitted(so, reader) == Emitted(before, reader)
  {
    OneMoreAt(so, before, BlockStart(index, true, name), index, reader);
  }

  lemma {:induction false} BlockEnds<A>(so: seq<ProviderEvent>, before: seq<ProviderEvent>, index: Option<int>, name: string,
                                        json: string, reader: Reader<A>)
    requires so == before + [BlockStop(index)] && OpenBlock(before, index) == Some(Buffer(name, json))
    ensures OpenBlock(so, index) == None && Emitted(so, reader) == Emitted(before, reader) + Owed(name, json, reader)
  {
    OneMoreAt(so, before, BlockStop(index), index, reader);
    CallIsOwed(name, json, reader);
  }

  /** The stream up to and with the first n fragments of a block. */
  function OpeningWith(before: seq<ProviderEvent>, index: Option<int>, name: string, fragments: seq<string>): seq<ProviderEvent> {
    if fragments == [] then before + [BlockStart(index, true, name)]
    else OpeningWith(before, index, name, fragments[..|fragments| - 1]) + [InputJsonDelta(index, fragments[|fragments| - 1])]
  }

  lemma {:induction false} OpeningWithIs(before: seq<ProviderEvent>, index: Option<int>, name: string, fragments: seq<string>)
    ensures OpeningWith(before, index, name, fragments) == before + ([BlockStart(index, true, name)] + Deltas(index, fragments))
  {
    var start := [BlockStart(index, true, name)];
    if fragments == [] {
      assert start + [] == start;
    } else {
      OpeningWithIs(before, index, name, fragments[..|fragments| - 1]);
    }
  }

  /** Whatever came before, a block start begins anew, and fragments gather without putting anything out. */
  lemma {:induction false} OpenedAnew<A>(before: seq<ProviderEvent>, index: Option<int>, name: string, fragments: seq<string>,
                                         reader: Reader<A>)
    ensures var so := OpeningWith(before, index, name, fragments);
            OpenBlock(so, index) == Some(Buffer(name, Concat(fragments))) && Emitted(so, reader) == Emitted(before, reader)
  {
    var so := OpeningWith(before, index, name, fragments);
    if fragments == [] {
      BlockStarts(so, before, index, name, reader);
    } else {
      var front, last := fragments[..|fragments| - 1], fragments[|fragments| - 1];
      OpenedAnew(before, index, name, front, reader);
      NextFragment(so, OpeningWith(before, index, name, front), index, name, Concat(front), last, reader);
    }
  }

  /** A whole block puts out its call and leaves its index closed, whatever came before. */
  lemma {:induction false} WholeBlock<A>(before: seq<ProviderEvent>, block: seq<ProviderEvent>, index: Option<int>, name: string,
                                         fragments: seq<string>, reader: Reader<A>)
    requires IsBlock(block, index, name, fragments)
    ensures OpenBlock(before + block, index) == None
    ensures Emitted(before + block, reader) == Emitted(before, reader) + Owed(name, Concat(fragments), reader)
  {
    var so := OpeningWith(before, index, name, fragments);
    OpenedAnew(before, index, name, fragments, reader);
    BlockAfter(before, block, so, index, name, fragments);
    BlockEnds(before + block, so, index, name, Concat(fragments), reader);
  }

  lemma {:induction false} BlockAfter(before: seq<ProviderEvent>, block: seq<ProviderEvent>, so: seq<ProviderEvent>,
                                      index: Option<int>, name: string, fragments: seq<string>)
    requires IsBlock(block, index, name, fragments) && so == OpeningWith(before, index, name, fragments)
    ensures before + block == so + [BlockStop(index)]
  {
    BlockIsBlock(block, index, name, fragments);
    OpeningWithIs(before, index, name, fragments);
  }

  predicate AllTouch(events: seq<ProviderEvent>, index: Option<int>) {
    forall i :: 0 <= i < |events| ==> Touches(events[i], index)
  }

  lemma {:induction false} SameEmission<A>(before: seq<ProviderEvent>, other: seq<ProviderEvent>, event: ProviderEvent,
                                           index: Option<int>, reader: Reader<A>)
    requires Touches(event, index) && OpenBlock(before, index) == OpenBlock(other, index)
    ensures EmittedBy(before, event, reader) == EmittedBy(other, event, reader)
  {
  }

  lemma {:induction false} ExtendBoth<A>(long: seq<ProviderEvent>, short: seq<ProviderEvent>, longer: seq<ProviderEvent>,
                                         shorter: seq<ProviderEvent>, event: ProviderEvent, index: Option<int>,
                                         out: seq<StreamEvent<A>>, reader: Reader<A>)
    requires longer == long + [event] && shorter == short + [event]
    requires Touches(event, index) && OpenBlock(long, index) == OpenBlock(short, index)
    requires Emitted(long, reader) == out + Emitted(short, reader)
    ensures OpenBlock(longer, index) == OpenBlock(shorter, index)
    ensures Emitted(longer, reader) == out + Emitted(shorter, reader)
  {
    OneMoreAt(longer, long, event, index, reader);
    OneMoreAt(shorter, short, event, index, reader);
    SameEmission(long, short, event, index, reader);
  }

  lemma {:induction false} OneFurther(before: seq<ProviderEvent>, after: seq<ProviderEvent>, n: nat)
    requires n < |after|
    ensures after[..n + 1] == after[..n] + [after[n]]
    ensures before + after[..n + 1] == before + after[..n] + [after[n]]
  {
  }

  /** Once an index is closed, its later events count as if nothing had come before. */
  lemma {:induction false} ClosedIsFresh<A>(before: seq<ProviderEvent>, after: seq<ProviderEvent>, n: nat, index: Option<int>,
                                            reader: Reader<A>)
    requires OpenBlock(before, index) == None && AllTouch(after, index) && n <= |after|
    ensures OpenBlock(before + after[..n], index) == OpenBlock(after[..n], index)
    ensures Emitted(before + after[..n], reader) == Emitted(before, reader) + Emitted(after[..n], reader)
  {
    if n == 0 {
      assert before + after[..0] == before;
    } else {
      ClosedIsFresh(before, after, n - 1, index, reader);
      OneFurther(before, after, n - 1);
      ExtendBoth(before + after[..n - 1], after[..n - 1], before + after[..n], after[..n], after[n - 1], index,
                 Emitted(before, reader), reader);
    }
  }

  /**
   An index may be used again: among its events each whole block puts out its own call, in its place, and
   nothing of it reaches what comes later, further fragments and stops included.
   */
  lemma {:induction false} BlocksFollowEachOther<A>(
      events: seq<ProviderEvent>, before: seq<ProviderEvent>, block: seq<ProviderEvent>, after: seq<ProviderEvent>,
      index: Option<int>, name: string, fragments: seq<string>, reader: Reader<A>)
    requires Only(events, index) == before + block + after && AllTouch(after, index)
    requires IsBlock(block, index, name, fragments)
    ensures EmittedAt(events, index, reader)
         == Emitted(before, reader) + Owed(name, Concat(fragments), reader) + Emitted(after, reader)
  {
    BlockIsIsolated(events, index, reader);
    WholeBlock(before, block, index, name, fragments, reader);
    ClosedIsFresh(before + block, after, |after|, index, reader);
    assert after[..|after|] == after;
  }

  lemma {:induction false} ConcatJoins(a: seq<string>, b: seq<string>)
    ensures Concat(a + b) == Concat(a) + Concat(b)
  {
    if b == [] {
      assert a + b == a;
    } else {
      var front, last := b[..|b| - 1], b[|b| - 1];
      ConcatJoins(a, front);
      ConcatSnoc(front, last, b);
      ConcatSnoc(a + front, last, a + b);
    }
  }

  lemma {:induction false} ConcatSnoc(front: seq<string>, last: string, all: seq<string>)
    requires all == front + [last]
    ensures Concat(all) == Concat(front) + last
  {
    assert all[..|front|] == front;
  }

  lemma {:induction false} ConcatOne(fragment: string)
    ensures Concat([fragment]) == fragment
  {
    assert [fragment][..0] == [];
  }

  /** One more cut leaves the text as it was. */
  lemma {:induction false} CutAnywhere(before: seq<string>, x: string, y: string, after: seq<string>)
    ensures Concat(before + [x + y] + after) == Concat(before + [x, y] + after)
  {
    ConcatJoins(before + [x + y], after);
    ConcatJoins(before, [x + y]);
    ConcatJoins(before + [x, y], after);
    ConcatJoins(before, [x, y]);
    ConcatJoins([x], [y]);
    ConcatOne(x + y);
    ConcatOne(x);
    ConcatOne(y);
    assert [x] + [y] == [x, y];
  }

  /** However the same argument text is cut into fragments, and wherever they come, the call is the same. */
  lemma {:induction false} CutsDoNotMatter<A>(
      events: seq<ProviderEvent>, others: seq<ProviderEvent>, index: Option<int>, name: string,
      fragments: seq<string>, pieces: seq<string>, reader: Reader<A>)
    requires IsBlock(Only(events, index), index, name, fragments) && IsBlock(Only(others, index), index, name, pieces)
    requires Concat(fragments) == Concat(pieces)
    ensures EmittedAt(events, index, reader) == EmittedAt(others, index, reader)
  {
    BlockYieldsItsCall(events, index, name, fragments, reader);
    BlockYieldsItsCall(others, index, name, pieces, reader);
  }

  /** An index at which no tool block ever starts puts out nothing. */
  lemma {:induction false} UnopenedIndexIsSilent<A>(events: seq<ProviderEvent>, index: Option<int>, reader: Reader<A>)
    requires forall i :: 0 <= i < |events| && events[i].BlockStart? && events[i].index == index ==> !events[i].isToolUse
    ensures OpenBlock(events, index) == None && EmittedAt(events, index, reader) == []
  {
    if events != [] {
      UnopenedIndexIsSilent(events[..|events| - 1], index, reader);
    }
  }

  // ---------------------------------------------------------------- what a line carries

  lemma {:induction false} LinesJoin(a: seq<string>, b: seq<string>, decode: string -> Option<ProviderEvent>)
    ensures LineEvents(a + b, decode) == LineEvents(a, decode) + LineEvents(b, decode)
  {
    if b == [] {
      assert a + b == a;
    } else {
      assert (a + b)[..|a + b| - 1] == a + b[..|b| - 1];
      LinesJoin(a, b[..|b| - 1], decode);
    }
  }

  /** A line carries an event exactly when it begins with "data:" and what follows, trimmed, is there and decodes. */
  lemma {:induction false} LineCarries(line: string, decode: string -> Option<ProviderEvent>)
    ensures LineEvents([line], decode)
         == if !("data:" <= line) || Text.AllSpaces(line[5..]) then []
            else match decode(Text.Strip(line[5..]))
              case Some(event) => [event]
              case None => []
  {
    assert [line][..0] == [];
    if "data:" <= line {
      Text.StripIsEmptyIff(line[5..]);
    }
  }

  // ---------------------------------------------------------------- text

  /** The non-empty pieces of text the provider sent, in order. */
  function TextSent(events: seq<ProviderEvent>): seq<string> {
    if events == [] then []
    else
      var last := |events| - 1;
      TextSent(events[..last])
      + if events[last].TextDelta? && events[last].text != "" then [events[last].text] else []
  }

  function ProseOf<A>(out: seq<StreamEvent<A>>): seq<string> {
    if out == [] then []
    else
      var last := |out| - 1;
      ProseOf(out[..last]) + if out[last].Prose? then [out[last].text] else []
  }

  /** Text passes through unchanged and in order, whatever happens to the tool blocks. */
  lemma {:induction false} TextPassesThrough<A>(events: seq<ProviderEvent>, reader: Reader<A>)
    ensures ProseOf(Emitted(events, reader)) == TextSent(events)
  {
    if events != [] {
      var last := |events| - 1;
      TextPassesThrough(events[..last], reader);
      var out, more := Emitted(events[..last], reader), EmittedBy(events[..last], events[last], reader);
      if more == [] {
        assert out + more == out;
      } else {
        assert (out + more)[..|out|] == out;
      }
    }
  }
}
