/** The tool-calling loop of the AI command layer, in its plain and its streaming form,
    over an arbitrary model and arbitrary tools. */
module CommandAgent {
  import opened Wrappers

  const MAX_ROUNDS := 6
  const MAX_HISTORY_MESSAGES := 20
  const REQUEST_CLARIFICATION := "request_clarification"
  const DEFAULT_QUESTION := "Could you clarify that?"
  const NOT_CONFIGURED_REPLY :=
    "The AI command assistant isn't configured yet — ask an administrator "
    + "to set up the AI provider before natural-language commands will work."
  const PROVIDER_ERROR_REPLY := "Sorry, I couldn't reach the AI provider just now — please try again."
  const ROUND_CAP_REPLY :=
    "I wasn't able to finish working through that in one go — could you narrow down "
    + "the request a little?"

  datatype ToolCall = ToolCall(id: string, name: string, arguments: map<string, string>)

  datatype Operation = Operation(entityType: string, title: string)

  /** What a tool message carries back to the model. */
  datatype Payload =
    | Acknowledged
    | Data(json: string)
    | Drafted(title: string)
    | DraftedBatch(count: nat, skipped: seq<string>)
    | Error(message: string)

  datatype Message =
    | System(content: string)
    | Past(role: string, content: string)
    | User(content: string)
    | Assistant(reply: Option<string>, calls: seq<ToolCall>)
    | Tool(callId: string, payload: Payload)

  // ----- the model, the tools -----

  /** One round of the plain client. `Crash` is an exception that is not an AppError. */
  datatype Completion = Response(content: Option<string>, calls: seq<ToolCall>) | ProviderError | Crash

  datatype Delta = Delta(text: string, call: Option<ToolCall>)

  datatype StreamEnd = Finished | StreamError | StreamCrash

  /** One round of the streaming client: the deltas it yields, then how it ends. */
  datatype Streamed = Streamed(deltas: seq<Delta>, end: StreamEnd)

  datatype ToolKind = Read | Write | Clarify

  datatype ToolSpec = ToolSpec(kind: ToolKind, hasHandler: bool)

  /** What a handler does: returns data, stages one or several operations, raises an
      AppError, rejects its arguments, or raises anything else. */
  datatype HandlerResult =
    | Returned(json: string)
    | Staged(op: Operation)
    | StagedBatch(ops: seq<Operation>, skipped: seq<string>)
    | AppFailure(message: string)
    | BadArguments(message: string)
    | HandlerCrash

  /** The registry and its handlers, for a user who may or may not write. A handler does not see
      what was said, but what it does may depend on every call and answer so far. */
  datatype Toolbox = Toolbox(
    isReadOnly: bool,
    tools: map<string, ToolSpec>,
    handler: (seq<Message>, ToolCall) -> HandlerResult)

  /** The agent's surroundings: the model behind its two interfaces, and the tools. */
  datatype Agent = Agent(
    isConfigured: bool,
    complete: seq<Message> -> Completion,
    stream: seq<Message> -> Streamed,
    toolbox: Toolbox,
    progressLabel: string -> string)

  const READ_ONLY_TOOL_ERROR := AppFailure(
    "This account has read-only access and cannot make this change. "
    + "An admin or manager on this client needs to do this instead.")

  /** What a message leaves of the tools' work: the calls with their arguments, and the answers. */
  function Deed(m: Message): seq<Message> {
    match m
    case Assistant(_, calls) => [Assistant(None, calls)]
    case Tool(_, _) => [m]
    case _ => []
  }

  function Deeds(messages: seq<Message>): seq<Message> {
    if messages == [] then [] else Deeds(messages[..|messages| - 1]) + Deed(messages[|messages| - 1])
  }

  function Dispatch(tb: Toolbox, messages: seq<Message>, call: ToolCall): HandlerResult {
    if call.name !in tb.tools || !tb.tools[call.name].hasHandler then AppFailure("Unknown tool '" + call.name + "'.")
    else if tb.tools[call.name].kind == Write && tb.isReadOnly then READ_ONLY_TOOL_ERROR
    else tb.handler(Deeds(messages), call)
  }

  function PayloadOf(r: HandlerResult): Payload {
    match r
    case Returned(json) => Data(json)
    case Staged(op) => Drafted(if op.title != "" then op.title else op.entityType)
    case StagedBatch(ops, skipped) => DraftedBatch(|ops|, skipped)
    case AppFailure(message) => Error(message)
    case BadArguments(message) => Error(message)
    case HandlerCrash => Error("")
  }

  function StagedBy(r: HandlerResult): seq<Operation> {
    match r
    case Staged(op) => [op]
    case StagedBatch(ops, _) => ops
    case _ => []
  }

  function Question(call: ToolCall): string {
    if "question" in call.arguments && call.arguments["question"] != "" then call.arguments["question"]
    else DEFAULT_QUESTION
  }

  // ----- the texts and calls of a stream -----

  function JoinText(deltas: seq<Delta>): string {
    if deltas == [] then "" else JoinText(deltas[..|deltas| - 1]) + deltas[|deltas| - 1].text
  }

  function CallsIn(deltas: seq<Delta>): seq<ToolCall> {
    if deltas == [] then []
    else
      var last := deltas[|deltas| - 1].call;
      CallsIn(deltas[..|deltas| - 1]) + if last.Some? then [last.value] else []
  }

  function OrNone(text: string): Option<string> {
    if text == "" then None else Some(text)
  }

  function OrEmpty(content: Option<string>): string {
    match content case Some(text) => text case None => ""
  }

  /** The completion a stream amounts to. */
  function Collected(s: Streamed): Completion {
    match s.end
    case Finished => Response(OrNone(JoinText(s.deltas)), CallsIn(s.deltas))
    case StreamError => ProviderError
    case StreamCrash => Crash
  }

  lemma Regroup<T>(x: seq<T>, y: seq<T>, z: seq<T>)
    ensures x + (y + z) == (x + y) + z
  {
  }

  // ----- results -----

  datatype TurnResult = TurnResult(reply: string, operations: seq<Operation>)

  datatype Outcome = Done(result: TurnResult) | Raised

  datatype StreamEvent = DeltaEvent(text: string) | ToolProgress(toolName: string) | ResultEvent(result: TurnResult)

  // ----- one round of tool calls -----

  datatype Round = Round(messages: seq<Message>, staged: seq<Operation>, clarification: Option<string>, crashed: bool)

  /** Answering the calls of one assistant message in order, stopping at a crash. */
  function AnswerCalls(tb: Toolbox, r: Round, calls: seq<ToolCall>): Round
    decreases |calls|
  {
    if calls == [] || r.crashed then r
    else AnswerCalls(tb, AnswerCall(tb, r, calls[0]), calls[1..])
  }

  function AnswerCall(tb: Toolbox, r: Round, call: ToolCall): Round {
    if call.name == REQUEST_CLARIFICATION then
      r.(clarification := Some(Question(call)), messages := r.messages + [Tool(call.id, Acknowledged)])
    else
      var result := Dispatch(tb, r.messages, call);
      if result.HandlerCrash? then r.(crashed := true)
      else r.(staged := r.staged + StagedBy(result), messages := r.messages + [Tool(call.id, PayloadOf(result))])
  }

  lemma AnswerCallsStep(a: Agent, r: Round, calls: seq<ToolCall>, i: nat)
    requires i < |calls| && !r.crashed
    ensures AnswerCalls(a.toolbox, r, calls[i..])
        == AnswerCalls(a.toolbox, AnswerCall(a.toolbox, r, calls[i]), calls[i + 1..])
    ensures ProgressEvents(a, r, calls[i..]) ==
      (if calls[i].name == REQUEST_CLARIFICATION then [] else [ToolProgress(a.progressLabel(calls[i].name))])
      + ProgressEvents(a, AnswerCall(a.toolbox, r, calls[i]), calls[i + 1..])
  {
    assert calls[i..][1..] == calls[i + 1..];
  }

  function StartRound(messages: seq<Message>, staged: seq<Operation>, content: Option<string>,
                      calls: seq<ToolCall>): (r: Round)
    ensures !r.crashed && r.clarification.None?
  {
    Round(messages + [Assistant(content, calls)], staged, None, false)
  }

  function Conversation(system: string, history: seq<(string, string)>, content: string): seq<Message> {
    var recent := if |history| <= MAX_HISTORY_MESSAGES then history else history[|history| - MAX_HISTORY_MESSAGES..];
    [System(system)] + seq(|recent|, i requires 0 <= i < |recent| => Past(recent[i].0, recent[i].1)) + [User(content)]
  }

  // ----- the plain loop -----

  /** How a turn ends, and the transcripts the model was asked to continue. */
  datatype Turn = Turn(outcome: Outcome, prompts: seq<seq<Message>>)

  function RoundsFrom(a: Agent, messages: seq<Message>, staged: seq<Operation>, rounds: nat): Turn
    decreases rounds
  {
    if rounds == 0 then Turn(Done(TurnResult(ROUND_CAP_REPLY, staged)), [])
    else
      match a.complete(messages)
      case ProviderError => Turn(Done(TurnResult(PROVIDER_ERROR_REPLY, staged)), [messages])
      case Crash => Turn(Raised, [messages])
      case Response(content, calls) =>
        if calls == [] then Turn(Done(TurnResult(OrEmpty(content), staged)), [messages])
        else
          var r := AnswerCalls(a.toolbox, StartRound(messages, staged, content, calls), calls);
          if r.crashed then Turn(Raised, [messages])
          else if r.clarification.Some? then Turn(Done(TurnResult(r.clarification.value, [])), [messages])
          else
            var rest := RoundsFrom(a, r.messages, r.staged, rounds - 1);
            Turn(rest.outcome, [messages] + rest.prompts)
  }

  function PlainTurn(a: Agent, conversation: seq<Message>): Turn {
    if !a.isConfigured then Turn(Done(TurnResult(NOT_CONFIGURED_REPLY, [])), [])
    else RoundsFrom(a, conversation, [], MAX_ROUNDS)
  }

  method RunTurn(a: Agent, system: string, history: seq<(string, string)>, content: string)
      returns (outcome: Outcome, prompts: seq<seq<Message>>)
    ensures Turn(outcome, prompts) == PlainTurn(a, Conversation(system, history, content))
  {
    prompts := [];
    if !a.isConfigured {
      return Done(TurnResult(NOT_CONFIGURED_REPLY, [])), prompts;
    }
    hide AnswerCalls, Conversation, StartRound;
    var messages := Conversation(system, history, content);
    var staged := [];
    ghost var whole := PlainTurn(a, messages);
    for round := 0 to MAX_ROUNDS
      invariant whole.outcome == RoundsFrom(a, messages, staged, MAX_ROUNDS - round).outcome
      invariant whole.prompts == prompts + RoundsFrom(a, messages, staged, MAX_ROUNDS - round).prompts
    {
      ghost var asked, asking := prompts, [messages];
      prompts := prompts + [messages];
      var response := a.complete(messages);
      if response.ProviderError? {
        return Done(TurnResult(PROVIDER_ERROR_REPLY, staged)), prompts;
      }
      if response.Crash? {
        return Raised, prompts;
      }
      if response.calls == [] {
        return Done(TurnResult(OrEmpty(response.content), staged)), prompts;
      }
      var clarification, crashed;
      messages, staged, clarification, crashed :=
        AnswerPlainCalls(a, messages, staged, response.content, response.calls);
      if crashed {
        return Raised, prompts;
      }
      if clarification.Some? {
        return Done(TurnResult(clarification.value, [])), prompts;
      }
      Regroup(asked, asking, RoundsFrom(a, messages, staged, MAX_ROUNDS - round - 1).prompts);
    }
    return Done(TurnResult(ROUND_CAP_REPLY, staged)), prompts;
  }

  /** The inner loop of the plain turn: dispatches the calls of one reply. */
  method AnswerPlainCalls(a: Agent, asked: seq<Message>, stagedBefore: seq<Operation>, content: Option<string>,
                          calls: seq<ToolCall>)
      returns (messages: seq<Message>, staged: seq<Operation>, clarification: Option<string>, crashed: bool)
    ensures Round(messages, staged, clarification, crashed)
        == AnswerCalls(a.toolbox, StartRound(asked, stagedBefore, content, calls), calls)
  {
    messages, staged, clarification, crashed := asked + [Assistant(content, calls)], stagedBefore, None, false;
    ghost var answered := AnswerCalls(a.toolbox, StartRound(asked, stagedBefore, content, calls), calls);
    for i := 0 to |calls|
      invariant !crashed
      invariant answered == AnswerCalls(a.toolbox, Round(messages, staged, clarification, crashed), calls[i..])
    {
      var call := calls[i];
      AnswerCallsStep(a, Round(messages, staged, clarification, crashed), calls, i);
      if call.name == REQUEST_CLARIFICATION {
        clarification := Some(Question(call));
        messages := messages + [Tool(call.id, Acknowledged)];
        continue;
      }
      var result := Dispatch(a.toolbox, messages, call);
      ghost var before := staged;
      match result {
        case HandlerCrash =>
          crashed := true;
          return;
        case Staged(op) => staged := staged + [op];
        case StagedBatch(ops, _) => staged := staged + ops;
        case _ =>
      }
      assert staged == before + StagedBy(result);
      messages := messages + [Tool(call.id, PayloadOf(result))];
    }
  }

  // ----- the streaming loop -----

  /** The same, with every event the caller sees. */
  datatype StreamTurn = StreamTurn(events: seq<StreamEvent>, raised: bool, prompts: seq<seq<Message>>)

  function DeltaEvents(deltas: seq<Delta>): seq<StreamEvent> {
    if deltas == [] then []
    else
      var text := deltas[|deltas| - 1].text;
      DeltaEvents(deltas[..|deltas| - 1]) + if text != "" then [DeltaEvent(text)] else []
  }

  /** One progress event per dispatched call, up to and including one that crashes. */
  function ProgressEvents(a: Agent, r: Round, calls: seq<ToolCall>): seq<StreamEvent>
    decreases |calls|
  {
    if calls == [] || r.crashed then []
    else
      (if calls[0].name == REQUEST_CLARIFICATION then [] else [ToolProgress(a.progressLabel(calls[0].name))])
      + ProgressEvents(a, AnswerCall(a.toolbox, r, calls[0]), calls[1..])
  }

  function FinalEvent(reply: string, operations: seq<Operation>): seq<StreamEvent> {
    [ResultEvent(TurnResult(reply, operations))]
  }

  function StreamRoundsFrom(a: Agent, messages: seq<Message>, staged: seq<Operation>, rounds: nat): StreamTurn
    decreases rounds
  {
    if rounds == 0 then StreamTurn(FinalEvent(ROUND_CAP_REPLY, staged), false, [])
    else
      var streamed := a.stream(messages);
      var deltas := DeltaEvents(streamed.deltas);
      if streamed.end == StreamError then
        StreamTurn(deltas + FinalEvent(PROVIDER_ERROR_REPLY, staged), false, [messages])
      else if streamed.end == StreamCrash then StreamTurn(deltas, true, [messages])
      else
        var content := OrNone(JoinText(streamed.deltas));
        var calls := CallsIn(streamed.deltas);
        if calls == [] then StreamTurn(deltas + FinalEvent(OrEmpty(content), staged), false, [messages])
        else
          var start := StartRound(messages, staged, content, calls);
          var seen := deltas + ProgressEvents(a, start, calls);
          var r := AnswerCalls(a.toolbox, start, calls);
          if r.crashed then StreamTurn(seen, true, [messages])
          else if r.clarification.Some? then StreamTurn(seen + FinalEvent(r.clarification.value, []), false, [messages])
          else
            var rest := StreamRoundsFrom(a, r.messages, r.staged, rounds - 1);
            StreamTurn(seen + rest.events, rest.raised, [messages] + rest.prompts)
  }

  function StreamingTurn(a: Agent, conversation: seq<Message>): StreamTurn {
    if !a.isConfigured then StreamTurn(FinalEvent(NOT_CONFIGURED_REPLY, []), false, [])
    else StreamRoundsFrom(a, conversation, [], MAX_ROUNDS)
  }

  /** A turn of which `events` and `prompts` are already past. */
  function Resumed(events: seq<StreamEvent>, prompts: seq<seq<Message>>, rest: StreamTurn): StreamTurn {
    StreamTurn(events + rest.events, rest.raised, prompts + rest.prompts)
  }

  /** The part of a round before its rest, however that part was put together. */
  lemma ResumedOneRound(events: seq<StreamEvent>, prompts: seq<seq<Message>>, asked: seq<Message>,
                        seen: seq<StreamEvent>, more: seq<StreamEvent>, rest: StreamTurn)
    ensures Resumed(events, prompts, StreamTurn(seen + more + rest.events, rest.raised, [asked] + rest.prompts))
         == Resumed(events + seen + more, prompts + [asked], rest)
  {
    Regroup(events, seen, more);
    Regroup(events, seen + more, rest.events);
    Regroup(prompts, [asked], rest.prompts);
  }

  lemma ResumedFromStart(turn: StreamTurn)
    ensures Resumed([], [], turn) == turn
  {
  }

  lemma ResumedAtCap(events: seq<StreamEvent>, prompts: seq<seq<Message>>, final: seq<StreamEvent>)
    ensures Resumed(events, prompts, StreamTurn(final, false, [])) == StreamTurn(events + final, false, prompts)
  {
  }

  lemma ResumedToEnd(events: seq<StreamEvent>, prompts: seq<seq<Message>>, asked: seq<Message>,
                     seen: seq<StreamEvent>, more: seq<StreamEvent>, raised: bool)
    ensures Resumed(events, prompts, StreamTurn(seen + more, raised, [asked]))
        == StreamTurn(events + seen + more, raised, prompts + [asked])
  {
    Regroup(events, seen, more);
  }

  method RunTurnStream(a: Agent, system: string, history: seq<(string, string)>, content: string)
      returns (events: seq<StreamEvent>, raised: bool, prompts: seq<seq<Message>>)
    ensures StreamTurn(events, raised, prompts) == StreamingTurn(a, Conversation(system, history, content))
  {
    events, prompts := [], [];
    if !a.isConfigured {
      return FinalEvent(NOT_CONFIGURED_REPLY, []), false, [];
    }
    hide AnswerCalls, ProgressEvents, JoinText, CallsIn, DeltaEvents, FinalEvent, Conversation, StartRound, OrNone,
        OrEmpty, Resumed;
    var messages := Conversation(system, history, content);
    var staged := [];
    ghost var whole := StreamingTurn(a, messages);
    ResumedFromStart(whole);
    for round := 0 to MAX_ROUNDS
      invariant whole == Resumed(events, prompts, StreamRoundsFrom(a, messages, staged, MAX_ROUNDS - round))
    {
      ghost var past, asked, asking := events, prompts, messages;
      prompts := prompts + [messages];
      var streamed := a.stream(messages);
      var contentParts, roundCalls, deltas := ReadDeltas(streamed.deltas);
      events := events + deltas;
      if streamed.end == StreamError {
        events := events + FinalEvent(PROVIDER_ERROR_REPLY, staged);
        ResumedToEnd(past, asked, asking, deltas, FinalEvent(PROVIDER_ERROR_REPLY, staged), false);
        return events, false, prompts;
      }
      if streamed.end == StreamCrash {
        ResumedToEnd(past, asked, asking, deltas, [], true);
        assert deltas + [] == deltas && past + deltas + [] == events;
        return events, true, prompts;
      }
      var roundContent := OrNone(contentParts);
      if roundCalls == [] {
        events := events + FinalEvent(OrEmpty(roundContent), staged);
        ResumedToEnd(past, asked, asking, deltas, FinalEvent(OrEmpty(roundContent), staged), false);
        return events, false, prompts;
      }
      var r, progress := AnswerStreamedCalls(a, messages, staged, roundContent, roundCalls);
      events := events + progress;
      if r.crashed {
        ResumedToEnd(past, asked, asking, deltas, progress, true);
        return events, true, prompts;
      }
      messages, staged := r.messages, r.staged;
      if r.clarification.Some? {
        ResumedToEnd(past, asked, asking, deltas + progress, FinalEvent(r.clarification.value, []), false);
        Regroup(past, deltas, progress);
        events := events + FinalEvent(r.clarification.value, []);
        return events, false, prompts;
      }
      ResumedOneRound(past, asked, asking, deltas, progress,
                      StreamRoundsFrom(a, messages, staged, MAX_ROUNDS - round - 1));
    }
    ResumedAtCap(events, prompts, FinalEvent(ROUND_CAP_REPLY, staged));
    events := events + FinalEvent(ROUND_CAP_REPLY, staged);
    return events, false, prompts;
  }

  /** The inner loop over one stream: collects text and calls, and passes text on. */
  method ReadDeltas(deltas: seq<Delta>) returns (text: string, calls: seq<ToolCall>, events: seq<StreamEvent>)
    ensures text == JoinText(deltas) && calls == CallsIn(deltas) && events == DeltaEvents(deltas)
  {
    text, calls, events := "", [], [];
    for i := 0 to |deltas|
      invariant text == JoinText(deltas[..i]) && calls == CallsIn(deltas[..i]) && events == DeltaEvents(deltas[..i])
    {
      assert deltas[..i + 1][..i] == deltas[..i];
      if deltas[i].text != "" {
        text := text + deltas[i].text;
        events := events + [DeltaEvent(deltas[i].text)];
      }
      if deltas[i].call.Some? {
        calls := calls + [deltas[i].call.value];
      }
    }
    assert deltas[..|deltas|] == deltas;
  }

  /** The inner loop of the streaming turn: dispatches the calls and reports progress. */
  method AnswerStreamedCalls(a: Agent, messages: seq<Message>, staged: seq<Operation>, content: Option<string>,
                             calls: seq<ToolCall>)
      returns (r: Round, progress: seq<StreamEvent>)
    ensures r == AnswerCalls(a.toolbox, StartRound(messages, staged, content, calls), calls)
    ensures progress == ProgressEvents(a, StartRound(messages, staged, content, calls), calls)
  {
    r, progress := StartRound(messages, staged, content, calls), [];
    ghost var start := r;
    assert calls[0..] == calls && AnsweredUpTo(a, start, calls, 0, r, progress);
    hide Dispatch, PayloadOf, StagedBy, Question, StartRound, AnswerCalls, ProgressEvents, AnsweredUpTo;
    for i := 0 to |calls|
      invariant !r.crashed && AnsweredUpTo(a, start, calls, i, r, progress)
    {
      var call := calls[i];
      AnsweredOneMore(a, start, calls, i, r, progress);
      if call.name == REQUEST_CLARIFICATION {
        r := r.(clarification := Some(Question(call)), messages := r.messages + [Tool(call.id, Acknowledged)]);
        continue;
      }
      progress := progress + [ToolProgress(a.progressLabel(call.name))];
      var result := Dispatch(a.toolbox, r.messages, call);
      if result.HandlerCrash? {
        r := r.(crashed := true);
        AnsweredAll(a, start, calls, i + 1, r, progress);
        return;
      }
      r := r.(staged := r.staged + StagedBy(result), messages := r.messages + [Tool(call.id, PayloadOf(result))]);
    }
    AnsweredAll(a, start, calls, |calls|, r, progress);
  }

  /** What the streaming loop has done of its calls before call `i`. */
  ghost predicate AnsweredUpTo(a: Agent, start: Round, calls: seq<ToolCall>, i: nat, r: Round,
                               progress: seq<StreamEvent>) {
    && i <= |calls|
    && AnswerCalls(a.toolbox, start, calls) == AnswerCalls(a.toolbox, r, calls[i..])
    && ProgressEvents(a, start, calls) == progress + ProgressEvents(a, r, calls[i..])
  }

  lemma AnsweredOneMore(a: Agent, start: Round, calls: seq<ToolCall>, i: nat, r: Round, progress: seq<StreamEvent>)
    requires i < |calls| && !r.crashed && AnsweredUpTo(a, start, calls, i, r, progress)
    ensures AnsweredUpTo(a, start, calls, i + 1, AnswerCall(a.toolbox, r, calls[i]),
              if calls[i].name == REQUEST_CLARIFICATION then progress
              else progress + [ToolProgress(a.progressLabel(calls[i].name))])
  {
    hide AnswerCall;
    AnswerCallsStep(a, r, calls, i);
    var after := ProgressEvents(a, AnswerCall(a.toolbox, r, calls[i]), calls[i + 1..]);
    hide AnswerCalls, ProgressEvents;
    assert [] + after == after;
    Regroup(progress, [ToolProgress(a.progressLabel(calls[i].name))], after);
  }

  lemma AnsweredAll(a: Agent, start: Round, calls: seq<ToolCall>, i: nat, r: Round, progress: seq<StreamEvent>)
    requires AnsweredUpTo(a, start, calls, i, r, progress) && (r.crashed || i == |calls|)
    ensures r == AnswerCalls(a.toolbox, start, calls) && progress == ProgressEvents(a, start, calls)
  {
  }
}
