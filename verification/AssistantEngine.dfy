/**
 One assistant turn: prose is passed on, and the first tool call, after five checks in a fixed
 order, becomes at most one proposed action. The checks' outcomes are parameters.
 */
module AssistantEngine {
  import opened Wrappers
  import opened AssistantStream

  const ASSISTANT_ACTION_TTL_SECONDS := 600

  /** The registry entry a call names, and whether the caller's role may use it. */
  datatype Tool = Tool(name: string, permitted: bool)

  datatype BuildResult =
    | Proposal(resolvedInput: string, summary: string)
    | Ambiguous(code: string, candidates: seq<string>)
    | ToolError(code: string)
    | InvalidArguments

  /** What each check would answer for a call; later ones are consulted only if earlier ones pass. */
  datatype Checks = Checks(tool: Option<Tool>, rateLimited: Option<string>, build: BuildResult, planLimit: Option<string>)

  datatype TurnEvent =
    | TextDeltaEvent(text: string)
    | ActionProposalEvent(proposalId: string, action: string, summary: string, expiresAt: int)
    | ClarificationEvent(code: string, candidates: seq<string>)
    | ErrorEvent(code: string)

  datatype AssistantAction = AssistantAction(
    id: string, organizationId: string, userId: string, actionName: string,
    inputPayload: string, summary: string, status: string, expiresAt: int)

  /** Who is asking, when, and the id the database will give a new row. */
  datatype Turn = Turn(organizationId: string, userId: string, now: int, newId: string)

  class Database {
    var actions: seq<AssistantAction>

    constructor ()
      ensures actions == []
    {
      actions := [];
    }
  }

  // ---------------------------------------------------------------- the one tool call

  predicate Passes(checks: Checks) {
    && checks.tool.Some? && checks.tool.value.permitted
    && checks.rateLimited.None?
    && checks.build.Proposal?
    && checks.planLimit.None?
  }

  /** The row a passing call persists. */
  function ProposedAction(turn: Turn, checks: Checks): AssistantAction
    requires Passes(checks)
  {
    AssistantAction(turn.newId, turn.organizationId, turn.userId, checks.tool.value.name,
                    checks.build.resolvedInput, checks.build.summary, "proposed", turn.now + ASSISTANT_ACTION_TTL_SECONDS)
  }

  /** The event is the proposal of exactly that row. */
  predicate Announces(event: TurnEvent, action: AssistantAction) {
    event == ActionProposalEvent(action.id, action.actionName, action.summary, action.expiresAt)
  }

  /** The first check that fails decides the answer. */
  function Refusal(checks: Checks): TurnEvent
    requires !Passes(checks)
  {
    if checks.tool.None? then ErrorEvent("assistant_action_invalid")
    else if !checks.tool.value.permitted then ErrorEvent("permission_denied")
    else if checks.rateLimited.Some? then ErrorEvent(checks.rateLimited.value)
    else match checks.build
      case Ambiguous(code, candidates) => ClarificationEvent(code, candidates)
      case ToolError(code) => ErrorEvent(code)
      case InvalidArguments => ErrorEvent("assistant_action_invalid")
      case Proposal(_, _) => ErrorEvent(checks.planLimit.value)
  }

  /** The event answering a call with these outcomes. */
  predicate Answers(turn: Turn, checks: Checks, event: TurnEvent) {
    if Passes(checks) then Announces(event, ProposedAction(turn, checks)) else event == Refusal(checks)
  }

  /** The row written for a call with these outcomes, if any. */
  function Stored(turn: Turn, checks: Checks): seq<AssistantAction> {
    if Passes(checks) then [ProposedAction(turn, checks)] else []
  }

  method HandleToolInvocation(db: Database, turn: Turn, checks: Checks) returns (event: TurnEvent)
    modifies db
    ensures Answers(turn, checks, event)
    ensures db.actions == old(db.actions) + Stored(turn, checks)
  {
    if checks.tool.None? {
      return ErrorEvent("assistant_action_invalid");
    }
    var tool := checks.tool.value;
    if !tool.permitted {
      return ErrorEvent("permission_denied");
    }
    if checks.rateLimited.Some? {
      return ErrorEvent(checks.rateLimited.value);
    }
    match checks.build {
      case Ambiguous(code, candidates) => return ClarificationEvent(code, candidates);
      case ToolError(code) => return ErrorEvent(code);
      case InvalidArguments => return ErrorEvent("assistant_action_invalid");
      case Proposal(resolvedInput, summary) =>
        if checks.planLimit.Some? {
          return ErrorEvent(checks.planLimit.value);
        }
        var expiresAt := turn.now + ASSISTANT_ACTION_TTL_SECONDS;
        var action := AssistantAction(turn.newId, turn.organizationId, turn.userId, tool.name,
                                      resolvedInput, summary, "proposed", expiresAt);
        db.actions := db.actions + [action];
        event := ActionProposalEvent(action.id, tool.name, summary, expiresAt);
    }
  }

  // ---------------------------------------------------------------- the turn

  /** Position of the first tool call, or the length of the stream. */
  function FirstCall<A>(stream: seq<StreamEvent<A>>): (at: nat)
    ensures at <= |stream|
    ensures forall i :: 0 <= i < at ==> stream[i].Prose?
    ensures at < |stream| ==> stream[at].ToolInvocation?
  {
    FirstCallFrom(stream, 0)
  }

  function FirstCallFrom<A>(stream: seq<StreamEvent<A>>, from: nat): (at: nat)
    requires from <= |stream|
    ensures from <= at <= |stream|
    ensures forall i :: from <= i < at ==> stream[i].Prose?
    ensures at < |stream| ==> stream[at].ToolInvocation?
    decreases |stream| - from
  {
    if from == |stream| || stream[from].ToolInvocation? then from else FirstCallFrom(stream, from + 1)
  }

  predicate HasText<A>(event: StreamEvent<A>) {
    event.Prose? && event.text != ""
  }

  /** The non-empty prose at positions lo to hi of the stream. */
  function ProseBetween<A>(stream: seq<StreamEvent<A>>, lo: nat, hi: nat): seq<TurnEvent>
    requires hi <= |stream|
  {
    if hi <= lo then []
    else
      var before := ProseBetween(stream, lo, hi - 1);
      if HasText(stream[hi - 1]) then before + [TextDeltaEvent(stream[hi - 1].text)] else before
  }

  /**
   A turn answers the first call where it stands, between the prose before and the prose after it;
   every later call is dropped, and one row is stored when the answer is a proposal.
   */
  ghost predicate IsTurn<A>(turn: Turn, stream: seq<StreamEvent<A>>, checks: StreamEvent<A> -> Checks,
                            out: seq<TurnEvent>, rows: seq<AssistantAction>)
  {
    var at := FirstCall(stream);
    if at == |stream| then out == ProseBetween(stream, 0, |stream|) && rows == []
    else
      && rows == Stored(turn, checks(stream[at]))
      && exists answer ::
           && Answers(turn, checks(stream[at]), answer)
           && out == ProseBetween(stream, 0, at) + [answer] + ProseBetween(stream, at + 1, |stream|)
  }

  method RunChatTurn<A>(db: Database, turn: Turn, stream: seq<StreamEvent<A>>, checks: StreamEvent<A> -> Checks)
    returns (out: seq<TurnEvent>)
    modifies db
    ensures old(db.actions) <= db.actions
    ensures IsTurn(turn, stream, checks, out, db.actions[|old(db.actions)|..])
  {
    ghost var at := FirstCall(stream);
    ghost var answer := ErrorEvent("");
    out := [];
    var toolCallHandled := false;
    for n := 0 to |stream|
      invariant toolCallHandled <==> at < n
      invariant !toolCallHandled ==> out == ProseBetween(stream, 0, n) && db.actions == old(db.actions)
      invariant toolCallHandled ==>
          && out == ProseBetween(stream, 0, at) + [answer] + ProseBetween(stream, at + 1, n)
          && Answers(turn, checks(stream[at]), answer)
          && db.actions == old(db.actions) + Stored(turn, checks(stream[at]))
    {
      match stream[n] {
        case Prose(text) =>
          if text != "" {
            out := out + [TextDeltaEvent(text)];
          }
        case ToolInvocation(_, _) =>
          if toolCallHandled {
            continue;
          }
          toolCallHandled := true;
          var event := HandleToolInvocation(db, turn, checks(stream[n]));
          out := out + [event];
          answer := event;
      }
    }
  }

  // ---------------------------------------------------------------- what every turn guarantees

  function TextOf(out: seq<TurnEvent>): seq<string> {
    if out == [] then []
    else
      var before, last := TextOf(out[..|out| - 1]), out[|out| - 1];
      if last.TextDeltaEvent? then before + [last.text] else before
  }

  function NonText(out: seq<TurnEvent>): seq<TurnEvent> {
    if out == [] then []
    else
      var before, last := NonText(out[..|out| - 1]), out[|out| - 1];
      if last.TextDeltaEvent? then before else before + [last]
  }

  /** The non-empty prose at positions lo to hi. */
  function TextBetween<A>(stream: seq<StreamEvent<A>>, lo: nat, hi: nat): seq<string>
    requires hi <= |stream|
  {
    if hi <= lo then []
    else
      var before := TextBetween(stream, lo, hi - 1);
      if HasText(stream[hi - 1]) then before + [stream[hi - 1].text] else before
  }

  function NonEmptyProse<A>(stream: seq<StreamEvent<A>>): seq<string> {
    TextBetween(stream, 0, |stream|)
  }

  lemma {:induction false} FiltersAppend(out: seq<TurnEvent>, event: TurnEvent)
    ensures TextOf(out + [event]) == if event.TextDeltaEvent? then TextOf(out) + [event.text] else TextOf(out)
    ensures NonText(out + [event]) == if event.TextDeltaEvent? then NonText(out) else NonText(out) + [event]
  {
    assert (out + [event])[..|out|] == out;
  }

  lemma {:induction false} TextOfConcat(a: seq<TurnEvent>, b: seq<TurnEvent>)
    ensures TextOf(a + b) == TextOf(a) + TextOf(b)
  {
    if b == [] {
      assert a + b == a;
    } else {
      TextOfConcat(a, b[..|b| - 1]);
      assert (a + b)[..|a + b| - 1] == a + b[..|b| - 1];
    }
  }

  lemma {:induction false} NonTextConcat(a: seq<TurnEvent>, b: seq<TurnEvent>)
    ensures NonText(a + b) == NonText(a) + NonText(b)
  {
    if b == [] {
      assert a + b == a;
    } else {
      NonTextConcat(a, b[..|b| - 1]);
      assert (a + b)[..|a + b| - 1] == a + b[..|b| - 1];
    }
  }

  lemma {:induction false} TextJoins<A>(stream: seq<StreamEvent<A>>, mid: nat, hi: nat)
    requires mid <= hi <= |stream|
    ensures TextBetween(stream, 0, hi) == TextBetween(stream, 0, mid) + TextBetween(stream, mid, hi)
  {
    if mid < hi {
      TextJoins(stream, mid, hi - 1);
    }
  }

  /** The gathered prose of a stretch is its text and nothing else. */
  lemma {:induction false} ProseIsText<A>(stream: seq<StreamEvent<A>>, lo: nat, hi: nat)
    requires lo <= hi <= |stream|
    ensures TextOf(ProseBetween(stream, lo, hi)) == TextBetween(stream, lo, hi) && NonText(ProseBetween(stream, lo, hi)) == []
  {
    if lo < hi {
      ProseIsText(stream, lo, hi - 1);
      if HasText(stream[hi - 1]) {
        ProseGrows(ProseBetween(stream, lo, hi - 1), TextBetween(stream, lo, hi - 1), stream[hi - 1].text);
      }
    }
  }

  lemma {:induction false} ProseGrows(out: seq<TurnEvent>, texts: seq<string>, text: string)
    requires TextOf(out) == texts && NonText(out) == []
    ensures TextOf(out + [TextDeltaEvent(text)]) == texts + [text] && NonText(out + [TextDeltaEvent(text)]) == []
  {
    FiltersAppend(out, TextDeltaEvent(text));
  }

  /** The call itself is no text. */
  lemma {:induction false} TextAroundCall<A>(stream: seq<StreamEvent<A>>, at: nat)
    requires at < |stream| && stream[at].ToolInvocation?
    ensures NonEmptyProse(stream) == TextBetween(stream, 0, at) + TextBetween(stream, at + 1, |stream|)
  {
    TextJoins(stream, at + 1, |stream|);
  }

  /**
   All non-empty prose comes out in order; at most one event is anything else, and it is there exactly
   when the stream held a call; and it is a proposal exactly when one row was stored, the row it names.
   */
  lemma {:induction false} TurnGuarantees<A>(turn: Turn, stream: seq<StreamEvent<A>>, checks: StreamEvent<A> -> Checks,
                                            out: seq<TurnEvent>, rows: seq<AssistantAction>)
    requires IsTurn(turn, stream, checks, out, rows)
    ensures TextOf(out) == NonEmptyProse(stream)
    ensures |NonText(out)| == if FirstCall(stream) < |stream| then 1 else 0
    ensures |rows| <= 1
    ensures |rows| == 1 <==> |NonText(out)| == 1 && NonText(out)[0].ActionProposalEvent?
    ensures |rows| == 1 ==> Announces(NonText(out)[0], rows[0]) && rows[0].status == "proposed"
  {
    var at := FirstCall(stream);
    ProseIsText(stream, 0, at);
    if at < |stream| {
      ProseIsText(stream, at + 1, |stream|);
      TextAroundCall(stream, at);
      AnswerBetween(turn, checks(stream[at]), ProseBetween(stream, 0, at), ProseBetween(stream, at + 1, |stream|), out, rows);
    }
  }

  /** One answer between two stretches of prose. */
  lemma {:induction false} AnswerBetween(turn: Turn, checks: Checks, before: seq<TurnEvent>, after: seq<TurnEvent>,
                                         out: seq<TurnEvent>, rows: seq<AssistantAction>)
    requires NonText(before) == NonText(after) == [] && rows == Stored(turn, checks)
    requires exists answer :: Answers(turn, checks, answer) && out == before + [answer] + after
    ensures TextOf(out) == TextOf(before) + TextOf(after) && |NonText(out)| == 1 && |rows| <= 1
    ensures |rows| == 1 <==> NonText(out)[0].ActionProposalEvent?
    ensures |rows| == 1 ==> Announces(NonText(out)[0], rows[0]) && rows[0].status == "proposed"
  {
    var answer :| Answers(turn, checks, answer) && out == before + [answer] + after;
    AnswerIsNoText(turn, checks, answer);
    TextOfConcat(before + [answer], after);
    NonTextConcat(before + [answer], after);
    FiltersAppend(before, answer);
  }

  lemma {:induction false} AnswerIsNoText(turn: Turn, checks: Checks, answer: TurnEvent)
    requires Answers(turn, checks, answer)
    ensures !answer.TextDeltaEvent? && (answer.ActionProposalEvent? <==> Passes(checks))
  {
  }

  lemma {:induction false} FirstCallAt<A>(stream: seq<StreamEvent<A>>, n: nat)
    requires n < |stream| && stream[n].ToolInvocation? && forall i :: 0 <= i < n ==> stream[i].Prose?
    ensures FirstCall(stream) == n
  {
  }

  /**
   What the first call of a turn leads to: one row, of the asking user in their organization, with the tool
   and what it was built into, open for ten minutes, and the announcement of that row, exactly if the tool
   is known and permitted, no rate or plan limit is reached and the arguments build a proposal. Otherwise
   no row, and the answer is that of the first of these that fails.
   */
  lemma {:induction false} FirstCallDecides<A>(turn: Turn, stream: seq<StreamEvent<A>>, checks: StreamEvent<A> -> Checks,
                                              out: seq<TurnEvent>, rows: seq<AssistantAction>, n: nat)
    requires IsTurn(turn, stream, checks, out, rows)
    requires n < |stream| && stream[n].ToolInvocation? && forall i :: 0 <= i < n ==> stream[i].Prose?
    ensures var c := checks(stream[n]);
            if c.tool.None? then rows == [] && NonText(out) == [ErrorEvent("assistant_action_invalid")]
            else if !c.tool.value.permitted then rows == [] && NonText(out) == [ErrorEvent("permission_denied")]
            else if c.rateLimited.Some? then rows == [] && NonText(out) == [ErrorEvent(c.rateLimited.value)]
            else if c.build.Ambiguous? then rows == [] && NonText(out) == [ClarificationEvent(c.build.code, c.build.candidates)]
            else if c.build.ToolError? then rows == [] && NonText(out) == [ErrorEvent(c.build.code)]
            else if c.build.InvalidArguments? then rows == [] && NonText(out) == [ErrorEvent("assistant_action_invalid")]
            else if c.planLimit.Some? then rows == [] && NonText(out) == [ErrorEvent(c.planLimit.value)]
            else
              && rows == [AssistantAction(turn.newId, turn.organizationId, turn.userId, c.tool.value.name,
                                          c.build.resolvedInput, c.build.summary, "proposed", turn.now + 600)]
              && NonText(out) == [ActionProposalEvent(turn.newId, c.tool.value.name, c.build.summary, turn.now + 600)]
  {
    var answer := OnlyAnswer(turn, stream, checks, out, rows, n);
    assert Answers(turn, checks(stream[n]), answer);
  }

  lemma {:induction false} OnlyAnswer<A>(turn: Turn, stream: seq<StreamEvent<A>>, checks: StreamEvent<A> -> Checks,
                                        out: seq<TurnEvent>, rows: seq<AssistantAction>, n: nat) returns (answer: TurnEvent)
    requires IsTurn(turn, stream, checks, out, rows)
    requires n < |stream| && stream[n].ToolInvocation? && forall i :: 0 <= i < n ==> stream[i].Prose?
    ensures Answers(turn, checks(stream[n]), answer) && rows == Stored(turn, checks(stream[n])) && NonText(out) == [answer]
  {
    FirstCallAt(stream, n);
    answer :| Answers(turn, checks(stream[n]), answer)
              && out == ProseBetween(stream, 0, n) + [answer] + ProseBetween(stream, n + 1, |stream|);
    ProseIsText(stream, 0, n);
    ProseIsText(stream, n + 1, |stream|);
    AloneBetween(ProseBetween(stream, 0, n), answer, ProseBetween(stream, n + 1, |stream|));
    AnswerIsNoText(turn, checks(stream[n]), answer);
  }

  lemma {:induction false} AloneBetween(before: seq<TurnEvent>, answer: TurnEvent, after: seq<TurnEvent>)
    requires NonText(before) == NonText(after) == []
    ensures NonText(before + [answer] + after) == if answer.TextDeltaEvent? then [] else [answer]
  {
    NonTextConcat(before + [answer], after);
    FiltersAppend(before, answer);
  }

  /** Where the answer stands: after all prose that precedes the call, and before all that follows it. */
  lemma {:induction false} AnswerStandsAtTheCall<A>(turn: Turn, stream: seq<StreamEvent<A>>, checks: StreamEvent<A> -> Checks,
                                                   out: seq<TurnEvent>, rows: seq<AssistantAction>, n: nat) returns (at: nat)
    requires IsTurn(turn, stream, checks, out, rows)
    requires n < |stream| && stream[n].ToolInvocation? && forall i :: 0 <= i < n ==> stream[i].Prose?
    ensures at < |out| && !out[at].TextDeltaEvent?
    ensures TextOf(out[..at]) == TextBetween(stream, 0, n) && TextOf(out[at + 1..]) == TextBetween(stream, n + 1, |stream|)
  {
    FirstCallAt(stream, n);
    var answer :| Answers(turn, checks(stream[n]), answer)
                  && out == ProseBetween(stream, 0, n) + [answer] + ProseBetween(stream, n + 1, |stream|);
    at := |ProseBetween(stream, 0, n)|;
    ProseIsText(stream, 0, n);
    ProseIsText(stream, n + 1, |stream|);
    AnswerIsNoText(turn, checks(stream[n]), answer);
    assert out[..at] == ProseBetween(stream, 0, n) && out[at + 1..] == ProseBetween(stream, n + 1, |stream|);
  }

  /** Without a call nothing is stored and everything put out is text. */
  lemma {:induction false} NoCallNoRow<A>(turn: Turn, stream: seq<StreamEvent<A>>, checks: StreamEvent<A> -> Checks,
                                         out: seq<TurnEvent>, rows: seq<AssistantAction>)
    requires IsTurn(turn, stream, checks, out, rows) && forall i :: 0 <= i < |stream| ==> stream[i].Prose?
    ensures rows == [] && NonText(out) == []
  {
    ProseIsText(stream, 0, |stream|);
  }

  lemma {:induction false} TextOfPrefix<A>(a: seq<StreamEvent<A>>, b: seq<StreamEvent<A>>, n: nat)
    requires n <= |a|
    ensures TextBetween(a + b, 0, n) == TextBetween(a, 0, n)
  {
    if n > 0 {
      TextOfPrefix(a, b, n - 1);
    }
  }

  /** Appending at most one event appends its text. */
  lemma {:induction false} TextOfAppended<A>(stream: seq<StreamEvent<A>>, more: seq<StreamEvent<A>>)
    requires |more| <= 1
    ensures NonEmptyProse(stream + more)
         == if |more| == 1 && HasText(more[0]) then NonEmptyProse(stream) + [more[0].text] else NonEmptyProse(stream)
  {
    TextOfPrefix(stream, more, |stream|);
  }

  lemma {:induction false} NonEmptyProseEmitted<A>(events: seq<ProviderEvent>, reader: Reader<A>)
    ensures NonEmptyProse(Emitted(events, reader)) == TextSent(events)
  {
    if events != [] {
      var last := |events| - 1;
      NonEmptyProseEmitted(events[..last], reader);
      TextOfAppended(Emitted(events[..last], reader), EmittedBy(events[..last], events[last], reader));
    }
  }

  /** From the provider's events to the user: every non-empty piece of text, once and in order. */
  lemma {:induction false} ProviderTextReachesTheUser<A>(
      turn: Turn, events: seq<ProviderEvent>, reader: Reader<A>, checks: StreamEvent<A> -> Checks,
      out: seq<TurnEvent>, rows: seq<AssistantAction>)
    requires IsTurn(turn, Emitted(events, reader), checks, out, rows)
    ensures TextOf(out) == TextSent(events)
  {
    TurnGuarantees(turn, Emitted(events, reader), checks, out, rows);
    NonEmptyProseEmitted(events, reader);
  }
}
