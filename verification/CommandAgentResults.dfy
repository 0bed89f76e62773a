/** What a turn returns, told by the model's replies and the handlers' results alone: a log of
    the turn that names none of the functions the loops are specified by. */
module CommandAgentResults {
  import opened Wrappers
  import opened CommandAgent
  import opened CommandAgentTheorems

  /** One call the loop reached: what its handler gave, or nothing for a clarification request,
      and the answer recorded for the model. */
  datatype Handled = Handled(call: ToolCall, result: Option<HandlerResult>, answer: Payload)

  /** One round with tool calls. */
  datatype RoundLog = RoundLog(asked: seq<Message>, handled: seq<Handled>)

  // ----- one call -----

  predicate Clarifies(call: ToolCall) {
    call.name == "request_clarification"
  }

  predicate Runnable(tb: Toolbox, name: string) {
    name in tb.tools && tb.tools[name].hasHandler
  }

  /** The tool exists, can run, and this user may use it. */
  predicate Permitted(tb: Toolbox, name: string) {
    Runnable(tb, name) && !(tb.isReadOnly && tb.tools[name].kind == Write)
  }

  /** A permitted call gets what its handler gives after everything done before, any other an error. */
  ghost predicate HandledAfter(tb: Toolbox, before: seq<Message>, h: Handled) {
    if Clarifies(h.call) then h.result == None && h.answer == Acknowledged
    else
      && h.result.Some?
      && h.result.value == (if Permitted(tb, h.call.name) then tb.handler(Deeds(before), h.call)
                            else if Runnable(tb, h.call.name) then READ_ONLY_TOOL_ERROR
                            else AppFailure("Unknown tool '" + h.call.name + "'."))
      && Reports(h.answer, h.result.value)
  }

  /** What the model is told about a result. */
  predicate Reports(answer: Payload, result: HandlerResult) {
    && (result.Returned? ==> answer == Data(result.json))
    && (result.Staged? ==> answer == Drafted(if result.op.title == "" then result.op.entityType else result.op.title))
    && (result.StagedBatch? ==> answer == DraftedBatch(|result.ops|, result.skipped))
    && (result.AppFailure? || result.BadArguments? ==> answer == Error(result.message))
  }

  predicate Crashed(h: Handled) {
    h.result == Some(HandlerCrash)
  }

  /** The operations a call contributes: one, all of a batch, or none. */
  function Given(h: Handled): seq<Operation> {
    if h.result.None? then []
    else if h.result.value.Staged? then [h.result.value.op]
    else if h.result.value.StagedBatch? then h.result.value.ops
    else []
  }

  function GivenBy(handled: seq<Handled>): seq<Operation> {
    if handled == [] then [] else Given(handled[0]) + GivenBy(handled[1..])
  }

  /** Everything the handlers of a turn gave, in the order of the calls. */
  function OperationsOf(log: seq<RoundLog>): seq<Operation> {
    if log == [] then [] else GivenBy(log[0].handled) + OperationsOf(log[1..])
  }

  function Answers(handled: seq<Handled>): (ms: seq<Message>)
    ensures |ms| == |handled|
  {
    seq(|handled|, j requires 0 <= j < |handled| => Tool(handled[j].call.id, handled[j].answer))
  }

  // ----- one round -----

  /** The calls were handled in order, each after the answers before it, up to the first crash. */
  ghost predicate AllHandled(tb: Toolbox, before: seq<Message>, calls: seq<ToolCall>, handled: seq<Handled>) {
    && |handled| <= |calls|
    && (forall j | 0 <= j < |handled| ::
          handled[j].call == calls[j] && HandledAfter(tb, before + Answers(handled[..j]), handled[j]))
    && (forall j | 0 <= j < |handled| - 1 :: !Crashed(handled[j]))
    && (|handled| < |calls| ==> Fatal(handled))
  }

  /** The last call reached crashed. */
  predicate Fatal(handled: seq<Handled>) {
    handled != [] && Crashed(handled[|handled| - 1])
  }

  predicate AsksBack(handled: seq<Handled>) {
    exists j | 0 <= j < |handled| :: Clarifies(handled[j].call)
  }

  /** The question of the last clarification request. */
  ghost predicate LastAsked(handled: seq<Handled>, question: string) {
    exists j ::
      && 0 <= j < |handled| && Clarifies(handled[j].call)
      && (forall k | j < k < |handled| :: !Clarifies(handled[k].call))
      && Asks(handled[j].call.arguments, question)
  }

  predicate Asks(arguments: map<string, string>, question: string) {
    if "question" in arguments && arguments["question"] != "" then question == arguments["question"]
    else question == "Could you clarify that?"
  }

  predicate GoesOn(r: RoundLog) {
    !Fatal(r.handled) && !AsksBack(r.handled)
  }

  /** The transcript with the model's reply to `asked` on record. */
  function Replied(a: Agent, asked: seq<Message>): seq<Message>
    requires a.complete(asked).Response?
  {
    asked + [Assistant(a.complete(asked).content, a.complete(asked).calls)]
  }

  ghost predicate Happened(a: Agent, r: RoundLog) {
    var c := a.complete(r.asked);
    c.Response? && c.calls != [] && AllHandled(a.toolbox, Replied(a, r.asked), c.calls, r.handled)
  }

  // ----- one turn -----

  /** Each round starts from the transcript of the one before it. */
  ghost predicate Chained(a: Agent, messages: seq<Message>, log: seq<RoundLog>) {
    && (forall i | 0 <= i < |log| :: Happened(a, log[i]))
    && (forall i | 0 <= i < |log| - 1 ::
          GoesOn(log[i]) && log[i + 1].asked == Replied(a, log[i].asked) + Answers(log[i].handled))
    && (log != [] ==> log[0].asked == messages)
  }

  function Asked(log: seq<RoundLog>): (ms: seq<seq<Message>>)
    ensures |ms| == |log|
  {
    seq(|log|, i requires 0 <= i < |log| => log[i].asked)
  }

  /** How a turn of at most `rounds` requests ends after its rounds with tool calls, having staged
      `operations`: an exception escapes, a clarification drops everything, or the cap, a provider
      error or an answer without calls returns all of them. */
  ghost predicate Ends(a: Agent, messages: seq<Message>, log: seq<RoundLog>, rounds: nat, operations: seq<Operation>,
                       turn: Turn)
    requires Chained(a, messages, log)
  {
    if log != [] && !GoesOn(log[|log| - 1]) then
      && turn.prompts == Asked(log)
      && if Fatal(log[|log| - 1].handled) then turn.outcome == Raised
         else turn.outcome.Done? && turn.outcome.result.operations == []
              && LastAsked(log[|log| - 1].handled, turn.outcome.result.reply)
    else if |log| == rounds then turn == Turn(Done(TurnResult(ROUND_CAP_REPLY, operations)), Asked(log))
    else
      var t := Reached(a, messages, log);
      && turn.prompts == Asked(log) + [t]
      && match a.complete(t)
         case ProviderError => turn.outcome == Done(TurnResult(PROVIDER_ERROR_REPLY, operations))
         case Crash => turn.outcome == Raised
         case Response(content, calls) =>
           calls == [] && turn.outcome == Done(TurnResult(if content.Some? then content.value else "", operations))
  }

  /** The transcript after the last of these rounds. */
  ghost function Reached(a: Agent, messages: seq<Message>, log: seq<RoundLog>): seq<Message>
    requires Chained(a, messages, log)
  {
    if log == [] then messages
    else
      assert Happened(a, log[|log| - 1]);
      Replied(a, log[|log| - 1].asked) + Answers(log[|log| - 1].handled)
  }

  // ----- every round is logged -----

  function LogOf(tb: Toolbox, before: seq<Message>, call: ToolCall): Handled {
    if Clarifies(call) then Handled(call, None, Acknowledged)
    else
      var result := Dispatch(tb, before, call);
      Handled(call, Some(result), PayloadOf(result))
  }

  lemma CallIsLogged(tb: Toolbox, r: Round, call: ToolCall)
    requires !r.crashed
    ensures var h, s := LogOf(tb, r.messages, call), AnswerCall(tb, r, call);
            && h.call == call && HandledAfter(tb, r.messages, h)
            && s.crashed == Crashed(h)
            && (!s.crashed ==> s.messages == r.messages + Answers([h]) && s.staged == r.staged + Given(h))
            && (if Clarifies(call) then s.clarification.Some? && Asks(call.arguments, s.clarification.value)
                else s.clarification == r.clarification)
  {
    hide Deeds;
    assert Clarifies(call) ==> r.staged == r.staged + [];
  }

  lemma GivenByCons(h: Handled, rest: seq<Handled>)
    ensures GivenBy([h] + rest) == Given(h) + GivenBy(rest)
    ensures Answers([h] + rest) == Answers([h]) + Answers(rest)
    ensures Fatal([h] + rest) == if rest == [] then Crashed(h) else Fatal(rest)
    ensures AsksBack([h] + rest) <==> Clarifies(h.call) || AsksBack(rest)
  {
    var all := [h] + rest;
    assert all[1..] == rest;
    if AsksBack(rest) {
      var j :| 0 <= j < |rest| && Clarifies(rest[j].call);
      assert all[j + 1] == rest[j];
    }
    if Clarifies(h.call) { assert all[0] == h; }
    if j :| 0 <= j < |all| && Clarifies(all[j].call) {
      if j > 0 { assert rest[j - 1] == all[j]; }
    }
  }

  /** The answers before a call, with one more call in front. */
  lemma AnswersBefore(before: seq<Message>, h: Handled, rest: seq<Handled>, j: nat)
    requires j <= |rest|
    ensures ([h] + rest)[..j + 1] == [h] + rest[..j]
    ensures before + Answers(([h] + rest)[..j + 1]) == before + Answers([h]) + Answers(rest[..j])
  {
    assert ([h] + rest)[..j + 1] == [h] + rest[..j];
    GivenByCons(h, rest[..j]);
    hide Answers;
    Regroup(before, Answers([h]), Answers(rest[..j]));
  }

  lemma AllHandledCons(tb: Toolbox, before: seq<Message>, calls: seq<ToolCall>, h: Handled, rest: seq<Handled>)
    requires calls != [] && h.call == calls[0] && HandledAfter(tb, before, h) && !Crashed(h)
    requires AllHandled(tb, before + Answers([h]), calls[1..], rest)
    ensures AllHandled(tb, before, calls, [h] + rest)
  {
    var all := [h] + rest;
    GivenByCons(h, rest);
    hide HandledAfter, Answers, GivenBy, AsksBack, Crashed;
    forall j | 0 <= j < |all|
      ensures all[j].call == calls[j] && HandledAfter(tb, before + Answers(all[..j]), all[j])
    {
      if j == 0 {
        NoAnswers(before, all);
      } else {
        AnswersBefore(before, h, rest, j - 1);
        assert all[j] == rest[j - 1];
      }
    }
    forall j | 0 <= j < |all| - 1 ensures !Crashed(all[j]) {
      if j > 0 { assert all[j] == rest[j - 1]; }
    }
  }

  lemma NoAnswers(before: seq<Message>, handled: seq<Handled>)
    ensures before + Answers(handled[..0]) == before
  {
  }

  /** What answering the calls of one reply amounts to. */
  ghost predicate Amounts(r: Round, handled: seq<Handled>, s: Round) {
    && s.crashed == Fatal(handled)
    && (!s.crashed ==>
          && s.messages == r.messages + Answers(handled) && s.staged == r.staged + GivenBy(handled)
          && if AsksBack(handled) then s.clarification.Some? && LastAsked(handled, s.clarification.value)
             else s.clarification == r.clarification)
  }

  lemma AmountsCons(r: Round, h: Handled, r1: Round, rest: seq<Handled>, s: Round)
    requires !Crashed(h) && Amounts(r1, rest, s)
    requires r1.messages == r.messages + Answers([h]) && r1.staged == r.staged + Given(h)
    requires if Clarifies(h.call) then r1.clarification.Some? && Asks(h.call.arguments, r1.clarification.value)
             else r1.clarification == r.clarification
    ensures Amounts(r, [h] + rest, s)
  {
    var all := [h] + rest;
    GivenByCons(h, rest);
    hide Asks;
    if !s.crashed {
      Regroup(r.messages, Answers([h]), Answers(rest));
      Regroup(r.staged, Given(h), GivenBy(rest));
      if AsksBack(rest) {
        var q := s.clarification.value;
        var j :| 0 <= j < |rest| && Clarifies(rest[j].call)
            && (forall k | j < k < |rest| :: !Clarifies(rest[k].call)) && Asks(rest[j].call.arguments, q);
        assert all[j + 1] == rest[j];
        assert forall k | j + 1 < k < |all| :: all[k] == rest[k - 1];
        assert LastAsked(all, q);
      } else if Clarifies(h.call) {
        assert all[0] == h;
        assert forall k | 0 < k < |all| :: all[k] == rest[k - 1];
        assert LastAsked(all, s.clarification.value);
      }
    }
  }

  function CallsLogged(tb: Toolbox, r: Round, calls: seq<ToolCall>): seq<Handled>
    decreases |calls|
  {
    if calls == [] then []
    else
      var r1 := AnswerCall(tb, r, calls[0]);
      [LogOf(tb, r.messages, calls[0])] + if r1.crashed then [] else CallsLogged(tb, r1, calls[1..])
  }

  lemma {:induction false} RoundIsLogged(tb: Toolbox, r: Round, calls: seq<ToolCall>)
    requires !r.crashed
    ensures AllHandled(tb, r.messages, calls, CallsLogged(tb, r, calls))
    ensures Amounts(r, CallsLogged(tb, r, calls), AnswerCalls(tb, r, calls))
    decreases |calls|
  {
    if calls == [] {
      assert r.messages + Answers([]) == r.messages && r.staged + [] == r.staged;
    } else {
      var h, r1 := LogOf(tb, r.messages, calls[0]), AnswerCall(tb, r, calls[0]);
      CallIsLogged(tb, r, calls[0]);
      hide LogOf, AnswerCall, HandledAfter, AllHandled, Amounts, Given, Asks;
      if r1.crashed {
        OneFatal(tb, r, calls, h, r1);
      } else {
        var rest := CallsLogged(tb, r1, calls[1..]);
        RoundIsLogged(tb, r1, calls[1..]);
        AllHandledCons(tb, r.messages, calls, h, rest);
        AmountsCons(r, h, r1, rest, AnswerCalls(tb, r, calls));
      }
    }
  }

  lemma OneFatal(tb: Toolbox, r: Round, calls: seq<ToolCall>, h: Handled, r1: Round)
    requires calls != [] && h.call == calls[0] && HandledAfter(tb, r.messages, h) && Crashed(h) && r1.crashed
    ensures AllHandled(tb, r.messages, calls, [h]) && Amounts(r, [h], AnswerCalls(tb, r1, calls[1..]))
  {
    assert r.messages + Answers([h][..0]) == r.messages;
  }

  // ----- every turn is logged -----

  lemma ChainedCons(a: Agent, r: RoundLog, rest: seq<RoundLog>)
    requires Happened(a, r) && GoesOn(r)
    requires Chained(a, Replied(a, r.asked) + Answers(r.handled), rest)
    ensures Chained(a, r.asked, [r] + rest)
    ensures Reached(a, r.asked, [r] + rest) == Reached(a, Replied(a, r.asked) + Answers(r.handled), rest)
    ensures Asked([r] + rest) == [r.asked] + Asked(rest)
    ensures OperationsOf([r] + rest) == GivenBy(r.handled) + OperationsOf(rest)
  {
    hide AllHandled, GoesOn, Replied;
    var log := [r] + rest;
    assert log[1..] == rest;
    forall i | 0 <= i < |log| ensures Happened(a, log[i]) {
      if i > 0 { assert log[i] == rest[i - 1]; }
    }
    forall i | 0 <= i < |log| - 1
      ensures Happened(a, log[i]) && GoesOn(log[i])
          && log[i + 1].asked == Replied(a, log[i].asked) + Answers(log[i].handled)
    {
      if i > 0 { assert log[i] == rest[i - 1] && log[i + 1] == rest[i]; }
    }
  }

  /** The operations staged before the rounds come first. */
  lemma EndsAfterOne(a: Agent, r: RoundLog, rest: seq<RoundLog>, rounds: nat, staged: seq<Operation>, turn: Turn)
    requires Happened(a, r) && GoesOn(r) && rounds > 0
    requires var t := Replied(a, r.asked) + Answers(r.handled);
      Chained(a, t, rest)
      && Ends(a, t, rest, rounds - 1, staged + GivenBy(r.handled) + OperationsOf(rest), turn)
    ensures Chained(a, r.asked, [r] + rest)
    ensures Ends(a, r.asked, [r] + rest, rounds, staged + OperationsOf([r] + rest),
                 Turn(turn.outcome, [r.asked] + turn.prompts))
  {
    ChainedCons(a, r, rest);
    var log := [r] + rest;
    assert log[|log| - 1] == if rest == [] then r else rest[|rest| - 1];
    Regroup(staged, GivenBy(r.handled), OperationsOf(rest));
    if rest != [] && !GoesOn(rest[|rest| - 1]) {
    } else if |rest| == rounds - 1 {
    } else {
      Regroup([r.asked], Asked(rest), [Reached(a, r.asked, log)]);
    }
  }

  /** A request answered without calls, or no request left. */
  lemma EndsAtOnce(a: Agent, messages: seq<Message>, staged: seq<Operation>, rounds: nat)
    requires rounds == 0 || !a.complete(messages).Response? || a.complete(messages).calls == []
    ensures Chained(a, messages, [])
    ensures Ends(a, messages, [], rounds, staged + OperationsOf([]), RoundsFrom(a, messages, staged, rounds))
  {
    assert staged + OperationsOf([]) == staged;
    assert [] + [messages] == [messages];
  }

  /** A round with calls that ends the turn. */
  lemma EndsHere(a: Agent, r: RoundLog, staged: seq<Operation>, rounds: nat, s: Round)
    requires rounds > 0 && Happened(a, r) && !GoesOn(r)
    requires s == Answering(a, r.asked, staged, a.complete(r.asked))
    requires Amounts(StartRound(r.asked, staged, a.complete(r.asked).content, a.complete(r.asked).calls), r.handled, s)
    ensures Chained(a, r.asked, [r])
    ensures Ends(a, r.asked, [r], rounds, staged + OperationsOf([r]), RoundsFrom(a, r.asked, staged, rounds))
  {
    hide AnswerCalls, AllHandled;
  }

  /** The log of the rounds from here on. */
  function RoundsLogged(a: Agent, messages: seq<Message>, staged: seq<Operation>, rounds: nat): seq<RoundLog>
    decreases rounds
  {
    var c := a.complete(messages);
    if rounds == 0 || !c.Response? || c.calls == [] then []
    else
      var r := RoundLog(messages, CallsLogged(a.toolbox, StartRound(messages, staged, c.content, c.calls), c.calls));
      var s := Answering(a, messages, staged, c);
      [r] + if GoesOn(r) then RoundsLogged(a, s.messages, s.staged, rounds - 1) else []
  }

  lemma {:induction false} RoundsAreLogged(a: Agent, messages: seq<Message>, staged: seq<Operation>, rounds: nat)
    ensures var log := RoundsLogged(a, messages, staged, rounds);
            && |log| <= rounds && Chained(a, messages, log)
            && Ends(a, messages, log, rounds, staged + OperationsOf(log), RoundsFrom(a, messages, staged, rounds))
    decreases rounds
  {
    hide RoundsFrom, AnswerCalls, AllHandled, Ends, Chained, GoesOn, OperationsOf, Amounts, CallsLogged;
    var c := a.complete(messages);
    if rounds == 0 || !c.Response? || c.calls == [] {
      EndsAtOnce(a, messages, staged, rounds);
    } else {
      var start, s := StartRound(messages, staged, c.content, c.calls), Answering(a, messages, staged, c);
      var r := RoundLog(messages, CallsLogged(a.toolbox, start, c.calls));
      RoundIsLogged(a.toolbox, start, c.calls);
      assert Happened(a, r);
      if GoesOn(r) {
        var rest := RoundsLogged(a, s.messages, s.staged, rounds - 1);
        assert RoundsLogged(a, messages, staged, rounds) == [r] + rest;
        hide RoundsLogged, Happened;
        GoesOnAmounts(a, r, staged, s);
        NextRequests(a, messages, staged, rounds);
        RoundsAreLogged(a, s.messages, s.staged, rounds - 1);
        EndsAfterOne(a, r, rest, rounds, staged, RoundsFrom(a, s.messages, s.staged, rounds - 1));
      } else {
        assert RoundsLogged(a, messages, staged, rounds) == [r];
        EndsHere(a, r, staged, rounds, s);
      }
    }
  }

  lemma GoesOnAmounts(a: Agent, r: RoundLog, staged: seq<Operation>, s: Round)
    requires Happened(a, r) && GoesOn(r) && s == Answering(a, r.asked, staged, a.complete(r.asked))
    requires Amounts(StartRound(r.asked, staged, a.complete(r.asked).content, a.complete(r.asked).calls), r.handled, s)
    ensures s.messages == Replied(a, r.asked) + Answers(r.handled) && s.staged == staged + GivenBy(r.handled)
    ensures !EndsTurn(a, r.asked, staged, a.complete(r.asked))
  {
    hide AnswerCalls, AllHandled;
  }

  /** The plain turn, for every model, every tool and every user: it has a log of at most six rounds, and
      returns, in order, exactly the operations that the handlers gave, unless it asks back or an
      exception escapes. A model that is not configured is never asked. */
  lemma PlainTurnIsLogged(a: Agent, conversation: seq<Message>) returns (log: seq<RoundLog>)
    ensures |log| <= 6 && Chained(a, conversation, log)
    ensures if a.isConfigured then Ends(a, conversation, log, 6, OperationsOf(log), PlainTurn(a, conversation))
            else PlainTurn(a, conversation) == Turn(Done(TurnResult(NOT_CONFIGURED_REPLY, [])), [])
  {
    log := RoundsLogged(a, conversation, [], 6);
    RoundsAreLogged(a, conversation, [], 6);
    assert [] + OperationsOf(log) == OperationsOf(log);
  }

  /** The model is shown the newest twenty messages of the history, in order, between the system prompt
      and what the user says now. */
  lemma NewestHistoryShown(system: string, history: seq<(string, string)>, content: string)
    ensures var t := Conversation(system, history, content);
            && |t| == (if |history| < 20 then |history| else 20) + 2
            && t[0] == System(system) && t[|t| - 1] == User(content)
            && forall i | 1 <= i < |t| - 1 ::
                 var (role, text) := history[|history| - (|t| - 1 - i)];
                 t[i] == Past(role, text)
  {
  }

  // ----- what a stream shows -----

  function TextOf(e: StreamEvent): string {
    if e.DeltaEvent? then e.text else ""
  }

  function LabelOf(e: StreamEvent): seq<string> {
    if e.ToolProgress? then [e.toolName] else []
  }

  /** The text of the delta events. */
  function TextShown(events: seq<StreamEvent>): string {
    if events == [] then "" else TextOf(events[0]) + TextShown(events[1..])
  }

  /** The labels of the progress events. */
  function LabelsShown(events: seq<StreamEvent>): seq<string> {
    if events == [] then [] else LabelOf(events[0]) + LabelsShown(events[1..])
  }

  lemma {:induction false} ShownConcat(x: seq<StreamEvent>, y: seq<StreamEvent>)
    ensures TextShown(x + y) == TextShown(x) + TextShown(y)
    ensures LabelsShown(x + y) == LabelsShown(x) + LabelsShown(y)
  {
    hide TextOf, LabelOf;
    if x == [] {
      assert x + y == y;
    } else {
      assert (x + y)[1..] == x[1..] + y && (x + y)[0] == x[0];
      ShownConcat(x[1..], y);
      Regroup(TextOf(x[0]), TextShown(x[1..]), TextShown(y));
      Regroup(LabelOf(x[0]), LabelsShown(x[1..]), LabelsShown(y));
    }
  }

  /** The text of a stream is its pieces in order, and its calls are the calls it carries. */
  lemma {:induction false} StreamedInOrder(x: seq<Delta>, y: seq<Delta>)
    ensures JoinText(x + y) == JoinText(x) + JoinText(y) && CallsIn(x + y) == CallsIn(x) + CallsIn(y)
    decreases |y|
  {
    if y == [] {
      assert x + y == x;
    } else {
      assert (x + y)[..|x + y| - 1] == x + y[..|y| - 1];
      StreamedInOrder(x, y[..|y| - 1]);
    }
  }

  lemma {:induction false} DeltasShow(deltas: seq<Delta>)
    ensures TextShown(DeltaEvents(deltas)) == JoinText(deltas) && LabelsShown(DeltaEvents(deltas)) == []
    ensures DeltaEvent("") !in DeltaEvents(deltas)
  {
    if deltas != [] {
      var front, text := deltas[..|deltas| - 1], deltas[|deltas| - 1].text;
      var last := if text != "" then [DeltaEvent(text)] else [];
      assert DeltaEvents(deltas) == DeltaEvents(front) + last;
      assert JoinText(deltas) == JoinText(front) + text;
      hide DeltaEvents, JoinText;
      DeltasShow(front);
      ShownConcat(DeltaEvents(front), last);
      OneTextShows(text);
      hide TextShown, LabelsShown;
      assert JoinText(front) + "" == JoinText(front);
    }
  }

  lemma OneTextShows(text: string)
    ensures TextShown([DeltaEvent(text)]) == text && LabelsShown([DeltaEvent(text)]) == []
    ensures TextShown([]) == "" && LabelsShown([]) == []
  {
    assert [DeltaEvent(text)][1..] == [];
  }

  /** The label of each dispatched call, in order. */
  function LabelsOf(a: Agent, handled: seq<Handled>): seq<string> {
    if handled == [] then []
    else (if Clarifies(handled[0].call) then [] else [a.progressLabel(handled[0].call.name)])
         + LabelsOf(a, handled[1..])
  }

  function AllLabels(a: Agent, log: seq<RoundLog>): seq<string> {
    if log == [] then [] else LabelsOf(a, log[0].handled) + AllLabels(a, log[1..])
  }

  function TextsStreamed(a: Agent, prompts: seq<seq<Message>>): string {
    if prompts == [] then "" else JoinText(a.stream(prompts[0]).deltas) + TextsStreamed(a, prompts[1..])
  }

  lemma LabelsOfCons(a: Agent, h: Handled, rest: seq<Handled>)
    ensures LabelsOf(a, [h] + rest) == LabelsOf(a, [h]) + LabelsOf(a, rest)
  {
    assert ([h] + rest)[1..] == rest && [h][1..] == [];
  }

  lemma OneProgress(a: Agent, h: Handled)
    ensures var p := if Clarifies(h.call) then [] else [ToolProgress(a.progressLabel(h.call.name))];
            TextShown(p) == "" && LabelsShown(p) == LabelsOf(a, [h])
  {
    var p := [ToolProgress(a.progressLabel(h.call.name))];
    assert p[1..] == [] && [h][1..] == [];
  }

  /** Progress is reported for each dispatched call, up to and including one that crashes. */
  lemma {:induction false} ProgressShows(a: Agent, r: Round, calls: seq<ToolCall>, handled: seq<Handled>)
    requires !r.crashed && handled == CallsLogged(a.toolbox, r, calls)
    ensures var p := ProgressEvents(a, r, calls); TextShown(p) == "" && LabelsShown(p) == LabelsOf(a, handled)
    decreases |calls|
  {
    if calls != [] {
      var h, r1 := LogOf(a.toolbox, r.messages, calls[0]), AnswerCall(a.toolbox, r, calls[0]);
      CallIsLogged(a.toolbox, r, calls[0]);
      hide LogOf, AnswerCall, HandledAfter, TextShown, LabelsShown, LabelsOf;
      var rest := if r1.crashed then [] else CallsLogged(a.toolbox, r1, calls[1..]);
      if r1.crashed {
        assert ProgressEvents(a, r1, calls[1..]) == [];
        assert handled == [h] + rest;
      } else {
        ProgressShows(a, r1, calls[1..], rest);
      }
      OneProgress(a, h);
      LabelsOfCons(a, h, rest);
      ShownConcat(if Clarifies(h.call) then [] else [ToolProgress(a.progressLabel(h.call.name))],
                  ProgressEvents(a, r1, calls[1..]));
    }
  }

  /** What one round of the stream shows before the rest of the turn. */
  lemma RoundShows(a: Agent, start: Round, streamed: Streamed, calls: seq<ToolCall>, more: seq<StreamEvent>)
    requires !start.crashed
    ensures var events := DeltaEvents(streamed.deltas) + ProgressEvents(a, start, calls) + more;
            && TextShown(events) == JoinText(streamed.deltas) + TextShown(more)
            && LabelsShown(events) == LabelsOf(a, CallsLogged(a.toolbox, start, calls)) + LabelsShown(more)
  {
    hide DeltaEvents, ProgressEvents, JoinText, CallsLogged, LabelsOf, TextShown, LabelsShown;
    var deltas, progress := DeltaEvents(streamed.deltas), ProgressEvents(a, start, calls);
    DeltasShow(streamed.deltas);
    ProgressShows(a, start, calls, CallsLogged(a.toolbox, start, calls));
    ShownConcat(deltas, progress);
    ShownConcat(deltas + progress, more);
  }

  lemma FinalShows(reply: string, operations: seq<Operation>)
    ensures TextShown(FinalEvent(reply, operations)) == "" && LabelsShown(FinalEvent(reply, operations)) == []
  {
    assert FinalEvent(reply, operations)[1..] == [];
  }

  /** A round whose stream asked for no tool, or broke off. */
  lemma AnswerShows(a: Agent, messages: seq<Message>, streamed: Streamed, more: seq<StreamEvent>)
    requires streamed == a.stream(messages) && TextShown(more) == "" && LabelsShown(more) == []
    ensures TextShown(DeltaEvents(streamed.deltas) + more) == TextsStreamed(a, [messages])
    ensures LabelsShown(DeltaEvents(streamed.deltas) + more) == []
  {
    hide DeltaEvents, JoinText, TextShown, LabelsShown;
    DeltasShow(streamed.deltas);
    ShownConcat(DeltaEvents(streamed.deltas), more);
    assert [messages][1..] == [];
  }

  lemma TextsCons(a: Agent, messages: seq<Message>, rest: seq<seq<Message>>)
    ensures TextsStreamed(a, [messages] + rest) == JoinText(a.stream(messages).deltas) + TextsStreamed(a, rest)
  {
    assert ([messages] + rest)[1..] == rest;
  }

  lemma LabelsCons(a: Agent, r: RoundLog, rest: seq<RoundLog>)
    ensures AllLabels(a, [r] + rest) == LabelsOf(a, r.handled) + AllLabels(a, rest)
  {
    assert ([r] + rest)[1..] == rest;
  }

  lemma NothingShown(a: Agent)
    ensures TextShown([]) == "" && LabelsShown([]) == [] && TextsStreamed(a, []) == "" && AllLabels(a, []) == []
  {
  }

  /** A stream shows the text the model streams for each request, and one progress label for each
      dispatched call. */
  lemma {:induction false} StreamShows(a: Agent, messages: seq<Message>, staged: seq<Operation>, rounds: nat)
    ensures var s := StreamRoundsFrom(a, messages, staged, rounds);
            && TextShown(s.events) == TextsStreamed(a, s.prompts)
            && LabelsShown(s.events) == AllLabels(a, RoundsLogged(CollectingAgent(a), messages, staged, rounds))
    decreases rounds
  {
    hide AnswerCalls, CallsLogged, DeltaEvents, ProgressEvents, JoinText, CallsIn, TextShown, LabelsShown, LabelsOf,
        TextsStreamed, AllLabels, FinalEvent, GoesOn, OrNone, OrEmpty;
    var log := RoundsLogged(CollectingAgent(a), messages, staged, rounds);
    if rounds == 0 {
      FinalShows(ROUND_CAP_REPLY, staged);
      NothingShown(a);
      return;
    }
    var streamed := a.stream(messages);
    assert CollectingAgent(a).complete(messages) == Collected(streamed);
    var content, calls := OrNone(JoinText(streamed.deltas)), CallsIn(streamed.deltas);
    NothingShown(a);
    if streamed.end != Finished || calls == [] {
      FinalShows(PROVIDER_ERROR_REPLY, staged);
      FinalShows(OrEmpty(content), staged);
      assert DeltaEvents(streamed.deltas) + [] == DeltaEvents(streamed.deltas);
      AnswerShows(a, messages, streamed, []);
      AnswerShows(a, messages, streamed, FinalEvent(PROVIDER_ERROR_REPLY, staged));
      AnswerShows(a, messages, streamed, FinalEvent(OrEmpty(content), staged));
      return;
    }
    var start := StartRound(messages, staged, content, calls);
    var s, r := AnswerCalls(a.toolbox, start, calls), RoundLog(messages, CallsLogged(a.toolbox, start, calls));
    GoesOnIff(a, start, calls, r);
    TextsCons(a, messages, []);
    LabelsCons(a, r, []);
    if !GoesOn(r) {
      assert [messages] + [] == [messages] && [r] + [] == [r];
      var more := if s.crashed then [] else FinalEvent(s.clarification.value, []);
      if !s.crashed { FinalShows(s.clarification.value, []); }
      RoundShows(a, start, streamed, calls, more);
      assert StreamRoundsFrom(a, messages, staged, rounds).events
          == DeltaEvents(streamed.deltas) + ProgressEvents(a, start, calls) + more;
    } else {
      var rest := StreamRoundsFrom(a, s.messages, s.staged, rounds - 1);
      StreamShows(a, s.messages, s.staged, rounds - 1);
      RoundShows(a, start, streamed, calls, rest.events);
      TextsCons(a, messages, rest.prompts);
      LabelsCons(a, r, RoundsLogged(CollectingAgent(a), s.messages, s.staged, rounds - 1));
    }
  }

  lemma GoesOnIff(a: Agent, start: Round, calls: seq<ToolCall>, r: RoundLog)
    requires !start.crashed && start.clarification == None && r.handled == CallsLogged(a.toolbox, start, calls)
    ensures var s := AnswerCalls(a.toolbox, start, calls); GoesOn(r) <==> !s.crashed && s.clarification == None
  {
    RoundIsLogged(a.toolbox, start, calls);
    hide AnswerCalls, CallsLogged, AllHandled;
  }

  /** The streaming turn has such a log too, over what its streams amount to; its last event is the only
      result and carries those operations, unless an exception escapes. Before it, the delta events
      spell the streamed text and each dispatched call is announced once, in order. */
  lemma StreamingTurnIsLogged(a: Agent, conversation: seq<Message>) returns (log: seq<RoundLog>, outcome: Outcome)
    requires a.isConfigured
    ensures |log| <= 6 && Chained(CollectingAgent(a), conversation, log)
    ensures var s := StreamingTurn(a, conversation);
            && Ends(CollectingAgent(a), conversation, log, 6, OperationsOf(log), Turn(outcome, s.prompts))
            && Delivers(s, outcome)
            && TextShown(s.events) == TextsStreamed(a, s.prompts)
            && LabelsShown(s.events) == AllLabels(a, log)
  {
    hide StreamRoundsFrom, RoundsFrom, RoundsLogged, Ends, Chained, Delivers;
    var b := CollectingAgent(a);
    log := RoundsLogged(b, conversation, [], 6);
    RoundsAreLogged(b, conversation, [], 6);
    assert [] + OperationsOf(log) == OperationsOf(log);
    StreamingIsCollecting(a, conversation, [], 6);
    outcome := RoundsFrom(b, conversation, [], 6).outcome;
    StreamShows(a, conversation, [], 6);
  }
}
