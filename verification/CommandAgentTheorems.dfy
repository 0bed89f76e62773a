/** What both loops of the command agent guarantee, for every model and every tool. */
module CommandAgentTheorems {
  import opened Wrappers
  import opened CommandAgent

  // ----- the two loops agree -----

  /** The last event carries the result, and no other event does. */
  ghost predicate EndsWithItsOnlyResult(events: seq<StreamEvent>, result: TurnResult) {
    && events != [] && events[|events| - 1] == ResultEvent(result)
    && forall i | 0 <= i < |events| - 1 :: !events[i].ResultEvent?
  }

  ghost predicate NoResult(events: seq<StreamEvent>) {
    forall i | 0 <= i < |events| :: !events[i].ResultEvent?
  }

  /** The stream of a turn delivers this outcome. */
  ghost predicate Delivers(turn: StreamTurn, outcome: Outcome) {
    match outcome
    case Done(result) => !turn.raised && EndsWithItsOnlyResult(turn.events, result)
    case Raised => turn.raised && NoResult(turn.events)
  }

  /** The plain client that collects the agent's own stream. */
  function CollectingAgent(a: Agent): Agent {
    a.(complete := (messages: seq<Message>) => Collected(a.stream(messages)))
  }

  lemma {:induction false} DeltasCarryNoResult(deltas: seq<Delta>)
    ensures NoResult(DeltaEvents(deltas))
  {
    if deltas != [] {
      DeltasCarryNoResult(deltas[..|deltas| - 1]);
    }
  }

  lemma {:induction false} ProgressCarriesNoResult(a: Agent, r: Round, calls: seq<ToolCall>)
    ensures NoResult(ProgressEvents(a, r, calls))
    decreases |calls|
  {
    if calls != [] && !r.crashed {
      ProgressCarriesNoResult(a, AnswerCall(a.toolbox, r, calls[0]), calls[1..]);
    }
  }

  /** Streaming is the plain loop over the collected stream, with events added. */
  lemma {:induction false} StreamingIsCollecting(a: Agent, messages: seq<Message>, staged: seq<Operation>, rounds: nat)
    ensures var s, p := StreamRoundsFrom(a, messages, staged, rounds),
        RoundsFrom(CollectingAgent(a), messages, staged, rounds);
      s.prompts == p.prompts && Delivers(s, p.outcome)
    decreases rounds
  {
    hide AnswerCalls, ProgressEvents, DeltaEvents, JoinText, CallsIn, OrNone, OrEmpty, Delivers, NoResult;
    if rounds == 0 {
      FinalDelivers([], ROUND_CAP_REPLY, staged, []);
      assert [] + FinalEvent(ROUND_CAP_REPLY, staged) == FinalEvent(ROUND_CAP_REPLY, staged);
    } else {
      var streamed := a.stream(messages);
      var deltas := DeltaEvents(streamed.deltas);
      DeltasCarryNoResult(streamed.deltas);
      var content, calls := OrNone(JoinText(streamed.deltas)), CallsIn(streamed.deltas);
      assert CollectingAgent(a).complete(messages) == Collected(streamed);
      var start := StartRound(messages, staged, content, calls);
      ProgressCarriesNoResult(a, start, calls);
      var seen := deltas + ProgressEvents(a, start, calls);
      NoResultConcat(deltas, ProgressEvents(a, start, calls));
      var r := AnswerCalls(a.toolbox, start, calls);
      if streamed.end == StreamError {
        FinalDelivers(deltas, PROVIDER_ERROR_REPLY, staged, [messages]);
      } else if streamed.end == StreamCrash {
        RaisedDelivers(deltas, [messages]);
      } else if calls == [] {
        FinalDelivers(deltas, OrEmpty(content), staged, [messages]);
      } else if r.crashed {
        RaisedDelivers(seen, [messages]);
      } else if r.clarification.Some? {
        FinalDelivers(seen, r.clarification.value, [], [messages]);
      } else {
        StreamingIsCollecting(a, r.messages, r.staged, rounds - 1);
        var rest := StreamRoundsFrom(a, r.messages, r.staged, rounds - 1);
        LaterDelivers(seen, rest, RoundsFrom(CollectingAgent(a), r.messages, r.staged, rounds - 1).outcome,
                      [messages] + rest.prompts);
      }
    }
  }

  lemma NoResultConcat(x: seq<StreamEvent>, y: seq<StreamEvent>)
    requires NoResult(x) && NoResult(y)
    ensures NoResult(x + y)
  {
  }

  lemma FinalDelivers(seen: seq<StreamEvent>, reply: string, operations: seq<Operation>, prompts: seq<seq<Message>>)
    requires NoResult(seen)
    ensures Delivers(StreamTurn(seen + FinalEvent(reply, operations), false, prompts),
                     Done(TurnResult(reply, operations)))
  {
  }

  lemma RaisedDelivers(seen: seq<StreamEvent>, prompts: seq<seq<Message>>)
    requires NoResult(seen)
    ensures Delivers(StreamTurn(seen, true, prompts), Raised)
  {
  }

  lemma LaterDelivers(seen: seq<StreamEvent>, rest: StreamTurn, outcome: Outcome, prompts: seq<seq<Message>>)
    requires NoResult(seen) && Delivers(rest, outcome)
    ensures Delivers(StreamTurn(seen + rest.events, rest.raised, prompts), outcome)
  {
  }

  /** The plain client's answer with an empty text read as no text, as the streaming side
      reads it. */
  function Normalized(c: Completion): Completion {
    if c.Response? then c.(content := OrNone(OrEmpty(c.content))) else c
  }

  /** Both clients speak for one model: up to empty text they say the same. */
  ghost predicate SameModel(a: Agent) {
    forall messages :: Normalized(a.complete(messages)) == Collected(a.stream(messages))
  }

  /** A reply of the plain client with an empty text beside tool calls. */
  predicate PutsEmptyText(a: Agent, messages: seq<Message>) {
    var c := a.complete(messages);
    c.Response? && c.calls != [] && c.content == Some("")
  }

  function Answering(a: Agent, messages: seq<Message>, staged: seq<Operation>, c: Completion): Round
    requires c.Response?
  {
    AnswerCalls(a.toolbox, StartRound(messages, staged, c.content, c.calls), c.calls)
  }

  predicate EndsTurn(a: Agent, messages: seq<Message>, staged: seq<Operation>, c: Completion)
    requires c.Response?
  {
    Answering(a, messages, staged, c).crashed || Answering(a, messages, staged, c).clarification.Some?
  }

  /** Rounds that differ at most in what the assistant said. */
  ghost predicate SameDeeds(r: Round, s: Round) {
    && |r.messages| == |s.messages|
    && Deeds(r.messages) == Deeds(s.messages)
    && r.(messages := []) == s.(messages := [])
  }

  /** The tools' work is every call, without the text beside it, and every answer, in order. */
  lemma DeedsAppend(messages: seq<Message>, m: Message)
    ensures Deeds(messages + [m]) == Deeds(messages) + match m
              case Assistant(_, calls) => [Assistant(None, calls)]
              case Tool(_, _) => [m]
              case _ => []
  {
    assert (messages + [m])[..|messages|] == messages;
  }

  lemma SameDeedsStep(tb: Toolbox, r: Round, s: Round, call: ToolCall)
    requires SameDeeds(r, s)
    ensures SameDeeds(AnswerCall(tb, r, call), AnswerCall(tb, s, call))
    ensures r.messages <= AnswerCall(tb, r, call).messages
  {
    var payload := if call.name == REQUEST_CLARIFICATION then Acknowledged
        else PayloadOf(Dispatch(tb, r.messages, call));
    DeedsAppend(r.messages, Tool(call.id, payload));
    DeedsAppend(s.messages, Tool(call.id, payload));
  }

  lemma {:induction false} TextIrrelevantToTools(tb: Toolbox, r: Round, s: Round, calls: seq<ToolCall>)
    requires SameDeeds(r, s)
    ensures SameDeeds(AnswerCalls(tb, r, calls), AnswerCalls(tb, s, calls))
    ensures r.messages <= AnswerCalls(tb, r, calls).messages
    decreases |calls|
  {
    if calls != [] && !r.crashed {
      assert !s.crashed;
      hide SameDeeds, AnswerCall;
      SameDeedsStep(tb, r, s, calls[0]);
      TextIrrelevantToTools(tb, AnswerCall(tb, r, calls[0]), AnswerCall(tb, s, calls[0]), calls[1..]);
    }
  }

  /** Reading an empty text as none changes only the assistant message. */
  lemma NormalizedRound(a: Agent, messages: seq<Message>, staged: seq<Operation>, c: Completion)
    requires c.Response?
    ensures SameDeeds(Answering(a, messages, staged, c), Answering(a, messages, staged, Normalized(c)))
    ensures messages + [Assistant(c.content, c.calls)] <= Answering(a, messages, staged, c).messages
  {
    DeedsAppend(messages, Assistant(c.content, c.calls));
    DeedsAppend(messages, Assistant(Normalized(c).content, c.calls));
    TextIrrelevantToTools(a.toolbox, StartRound(messages, staged, c.content, c.calls),
                          StartRound(messages, staged, Normalized(c).content, c.calls), c.calls);
  }

  lemma FirstRequest(a: Agent, messages: seq<Message>, staged: seq<Operation>, rounds: nat)
    ensures var prompts := RoundsFrom(a, messages, staged, rounds).prompts;
            if rounds == 0 then prompts == [] else prompts != [] && prompts[0] == messages
  {
  }

  lemma LastRequest(a: Agent, messages: seq<Message>, staged: seq<Operation>, rounds: nat)
    requires rounds > 0 && a.complete(messages).Response? && a.complete(messages).calls == []
    ensures RoundsFrom(a, messages, staged, rounds).outcome
         == Done(TurnResult(OrEmpty(a.complete(messages).content), staged))
  {
  }

  /** A round that goes on. */
  lemma NextRequests(a: Agent, messages: seq<Message>, staged: seq<Operation>, rounds: nat)
    requires rounds > 0 && a.complete(messages).Response? && a.complete(messages).calls != []
    requires !EndsTurn(a, messages, staged, a.complete(messages))
    ensures var r := Answering(a, messages, staged, a.complete(messages));
            var turn, rest := RoundsFrom(a, messages, staged, rounds), RoundsFrom(a, r.messages, r.staged, rounds - 1);
            turn.outcome == rest.outcome && turn.prompts == [messages] + rest.prompts
  {
  }

  /** A round that does not. */
  lemma OnlyRequest(a: Agent, messages: seq<Message>, staged: seq<Operation>, rounds: nat)
    requires rounds > 0
    requires var c := a.complete(messages); c.Response? && c.calls != [] ==> EndsTurn(a, messages, staged, c)
    ensures RoundsFrom(a, messages, staged, rounds).prompts == [messages]
  {
  }

  lemma OnlyRequestAlike(a: Agent, messages: seq<Message>, staged: seq<Operation>, rounds: nat)
    requires SameModel(a) && rounds > 0
    requires var c := a.complete(messages); c.Response? && c.calls != [] ==> EndsTurn(a, messages, staged, c)
    ensures RoundsFrom(a, messages, staged, rounds) == RoundsFrom(CollectingAgent(a), messages, staged, rounds)
  {
    hide AnswerCalls, Collected;
    var c, b := a.complete(messages), CollectingAgent(a);
    assert b.complete(messages) == Normalized(c) && b.toolbox == a.toolbox;
    if c.Response? {
      NormalizedRound(a, messages, staged, c);
      var r, s := Answering(a, messages, staged, c), Answering(a, messages, staged, Normalized(c));
      assert s.crashed == r.crashed && s.clarification == r.clarification;
      assert Answering(b, messages, staged, Normalized(c)) == s;
    }
  }

  /** The empty text is on record when the model is asked again, and only in the one transcript. */
  lemma EmptyTextSplits(a: Agent, messages: seq<Message>, staged: seq<Operation>)
    requires SameModel(a) && PutsEmptyText(a, messages) && !EndsTurn(a, messages, staged, a.complete(messages))
    ensures var c, b := a.complete(messages), CollectingAgent(a);
            var r, s := Answering(a, messages, staged, c), Answering(b, messages, staged, Normalized(c));
            && b.complete(messages) == Normalized(c)
            && !EndsTurn(b, messages, staged, Normalized(c))
            && r.messages != s.messages && r.staged == s.staged
  {
    hide AnswerCalls, Collected;
    var c, b := a.complete(messages), CollectingAgent(a);
    assert b.complete(messages) == Normalized(c) && b.toolbox == a.toolbox;
    NormalizedRound(a, messages, staged, c);
    NormalizedRound(a, messages, staged, Normalized(c));
    assert Normalized(Normalized(c)) == Normalized(c);
    var r, s := Answering(a, messages, staged, c), Answering(a, messages, staged, Normalized(c));
    assert Answering(b, messages, staged, Normalized(c)) == s;
    assert r.messages[|messages|] == Assistant(Some(""), c.calls) && s.messages[|messages|] == Assistant(None, c.calls);
  }

  /** None of these requests but the last was answered with an empty text beside tool calls. */
  ghost predicate NoneCarriedOn(a: Agent, prompts: seq<seq<Message>>) {
    forall i | 0 <= i < |prompts| - 1 :: !PutsEmptyText(a, prompts[i])
  }

  lemma NoneCarriedOnCons(a: Agent, first: seq<Message>, rest: seq<seq<Message>>)
    ensures NoneCarriedOn(a, [first] + rest) <==> (rest == [] || (!PutsEmptyText(a, first) && NoneCarriedOn(a, rest)))
  {
    hide PutsEmptyText;
    var all := [first] + rest;
    if rest != [] {
      if NoneCarriedOn(a, all) {
        assert !PutsEmptyText(a, all[0]);
        forall i | 0 <= i < |rest| - 1 ensures !PutsEmptyText(a, rest[i]) { assert all[i + 1] == rest[i]; }
      }
      if !PutsEmptyText(a, first) && NoneCarriedOn(a, rest) {
        forall i | 0 <= i < |all| - 1 ensures !PutsEmptyText(a, all[i]) {
          if i > 0 { assert all[i] == rest[i - 1]; }
        }
      }
    }
  }

  /** The plain loop and the loop over the collected stream make the same requests from this point
      on exactly when no empty text is carried into a further one, and then they end alike. */
  lemma {:induction false} RequestsAgreeIff(a: Agent, messages: seq<Message>, staged: seq<Operation>, rounds: nat)
    requires SameModel(a)
    ensures var p, q := RoundsFrom(a, messages, staged, rounds),
        RoundsFrom(CollectingAgent(a), messages, staged, rounds);
            && (p.prompts == q.prompts <==> NoneCarriedOn(a, p.prompts))
            && (p.prompts == q.prompts ==> p == q)
    decreases rounds
  {
    hide RoundsFrom, AnswerCalls, Collected;
    if rounds == 0 {
      CapReached(a, messages, staged);
      CapReached(CollectingAgent(a), messages, staged);
    } else {
      var c, b := a.complete(messages), CollectingAgent(a);
      if !c.Response? || c.calls == [] || EndsTurn(a, messages, staged, c) {
        OnlyRequest(a, messages, staged, rounds);
        OnlyRequestAlike(a, messages, staged, rounds);
      } else {
        NextRequests(a, messages, staged, rounds);
        var r := Answering(a, messages, staged, c);
        var x, y := RoundsFrom(a, r.messages, r.staged, rounds - 1), RoundsFrom(b, r.messages, r.staged, rounds - 1);
        NoneCarriedOnCons(a, messages, x.prompts);
        if PutsEmptyText(a, messages) {
          CarriedOnSplits(a, messages, staged, rounds);
        } else {
          SameRequests(a, messages, staged, rounds);
          hide SameModel, NoneCarriedOn, EndsTurn, Answering, PutsEmptyText;
          RequestsAgreeIff(a, r.messages, r.staged, rounds - 1);
          SameTail(messages, x.prompts, y.prompts);
        }
      }
    }
  }

  lemma CapReached(a: Agent, messages: seq<Message>, staged: seq<Operation>)
    ensures RoundsFrom(a, messages, staged, 0) == Turn(Done(TurnResult(ROUND_CAP_REPLY, staged)), [])
  {
  }

  /** Without an empty text the collecting loop goes on from the same transcript. */
  lemma SameRequests(a: Agent, messages: seq<Message>, staged: seq<Operation>, rounds: nat)
    requires SameModel(a) && rounds > 0 && a.complete(messages).Response? && a.complete(messages).calls != []
    requires !PutsEmptyText(a, messages) && !EndsTurn(a, messages, staged, a.complete(messages))
    ensures var b, r := CollectingAgent(a), Answering(a, messages, staged, a.complete(messages));
            var turn, rest := RoundsFrom(b, messages, staged, rounds), RoundsFrom(b, r.messages, r.staged, rounds - 1);
            turn.outcome == rest.outcome && turn.prompts == [messages] + rest.prompts
  {
    hide RoundsFrom, AnswerCalls, Collected;
    var c, b := a.complete(messages), CollectingAgent(a);
    assert b.complete(messages) == Normalized(c) == c && b.toolbox == a.toolbox;
    NextRequests(b, messages, staged, rounds);
  }

  lemma SameTail(first: seq<Message>, x: seq<seq<Message>>, y: seq<seq<Message>>)
    ensures [first] + x == [first] + y <==> x == y
  {
    assert ([first] + x)[1..] == x && ([first] + y)[1..] == y;
  }

  /** After an empty text the requests part, unless this was the last round there is. */
  lemma CarriedOnSplits(a: Agent, messages: seq<Message>, staged: seq<Operation>, rounds: nat)
    requires SameModel(a) && rounds > 0
    requires PutsEmptyText(a, messages) && !EndsTurn(a, messages, staged, a.complete(messages))
    ensures var p, q := RoundsFrom(a, messages, staged, rounds),
        RoundsFrom(CollectingAgent(a), messages, staged, rounds);
            if rounds == 1 then p == q && |p.prompts| == 1 else p.prompts != q.prompts && |p.prompts| > 1
  {
    hide RoundsFrom, AnswerCalls, Collected, Normalized, SameModel;
    var c, b := a.complete(messages), CollectingAgent(a);
    EmptyTextSplits(a, messages, staged);
    assert c.Response? && c.calls != [] && b.complete(messages).Response? && b.complete(messages).calls != [] by {
      NormalizedCalls(c);
    }
    NextRequests(a, messages, staged, rounds);
    NextRequests(b, messages, staged, rounds);
    var r, s := Answering(a, messages, staged, c), Answering(b, messages, staged, b.complete(messages));
    hide Answering, EndsTurn, PutsEmptyText;
    FirstRequest(a, r.messages, r.staged, rounds - 1);
    FirstRequest(b, s.messages, s.staged, rounds - 1);
    var x, y := RoundsFrom(a, r.messages, r.staged, rounds - 1), RoundsFrom(b, s.messages, s.staged, rounds - 1);
    if rounds == 1 {
      CapReached(a, r.messages, r.staged);
      CapReached(b, s.messages, s.staged);
    }
    SameTail(messages, x.prompts, y.prompts);
  }

  lemma NormalizedCalls(c: Completion)
    requires c.Response?
    ensures Normalized(c).Response? && Normalized(c).calls == c.calls
  {
  }

  /** For every conversation: streaming makes the plain turn's requests exactly when the plain turn
      carries no empty text beside tool calls into a further request. */
  lemma LoopsAgreeIff(a: Agent, conversation: seq<Message>)
    requires SameModel(a)
    ensures StreamingTurn(a, conversation).prompts == PlainTurn(a, conversation).prompts
       <==> NoneCarriedOn(a, PlainTurn(a, conversation).prompts)
  {
    hide RoundsFrom, StreamRoundsFrom, SameModel, Delivers, PutsEmptyText;
    StreamingIsCollecting(a, conversation, [], MAX_ROUNDS);
    RequestsAgreeIff(a, conversation, [], MAX_ROUNDS);
  }

  /** And then they end alike on every exit: the stream's last event is its only result and carries
      the plain turn's reply and staged operations, or the same exception escapes both. */
  lemma LoopsAgree(a: Agent, conversation: seq<Message>)
    requires SameModel(a) && NoneCarriedOn(a, PlainTurn(a, conversation).prompts)
    ensures Delivers(StreamingTurn(a, conversation), PlainTurn(a, conversation).outcome)
  {
    if a.isConfigured {
      hide RoundsFrom, StreamRoundsFrom, SameModel, Delivers, PutsEmptyText;
      StreamingIsCollecting(a, conversation, [], MAX_ROUNDS);
      RequestsAgreeIff(a, conversation, [], MAX_ROUNDS);
    }
  }

  // ----- the result, exactly -----

  /** The same agent, except that its model answers this one transcript with this text. */
  function Changed(a: Agent, at: seq<Message>, text: string): Agent {
    a.(complete := (t: seq<Message>) => if t == at then Response(Some(text), []) else a.complete(t),
       stream := (t: seq<Message>) => if t == at then Streamed([Delta(text, None)], Finished) else a.stream(t))
  }

  lemma ChangedIsOneModel(a: Agent, at: seq<Message>, text: string)
    requires SameModel(a) && text != ""
    ensures SameModel(Changed(a, at, text))
  {
    var b := Changed(a, at, text);
    forall t: seq<Message> ensures Normalized(b.complete(t)) == Collected(b.stream(t)) {
      if t == at { SingleDelta(Delta(text, None)); }
    }
  }

  /** What the collecting loop of the changed agent gets. */
  lemma ChangedCollects(a: Agent, at: seq<Message>, text: string, t: seq<Message>)
    requires SameModel(a) && text != ""
    ensures CollectingAgent(Changed(a, at, text)).complete(t)
         == if t == at then Response(Some(text), []) else Normalized(a.complete(t))
    ensures CollectingAgent(Changed(a, at, text)).toolbox == a.toolbox
  {
    var b := Changed(a, at, text);
    assert CollectingAgent(b).complete(t) == Collected(b.stream(t));
    if t == at {
      SingleDelta(Delta(text, None));
      assert b.stream(t) == Streamed([Delta(text, None)], Finished);
    }
  }

  /** Every later request is longer. */
  lemma {:induction false} RequestsGrow(a: Agent, messages: seq<Message>, staged: seq<Operation>, rounds: nat)
    ensures forall i | 0 <= i < |RoundsFrom(a, messages, staged, rounds).prompts| ::
              var p := RoundsFrom(a, messages, staged, rounds).prompts[i];
              if i == 0 then p == messages else |p| > |messages|
    decreases rounds
  {
    if rounds > 0 {
      var c := a.complete(messages);
      hide RoundsFrom, AnswerCalls;
      if c.Response? && c.calls != [] && !EndsTurn(a, messages, staged, c) {
        NextRequests(a, messages, staged, rounds);
        NormalizedRound(a, messages, staged, c);
        var r := Answering(a, messages, staged, c);
        RequestsGrow(a, r.messages, r.staged, rounds - 1);
      } else {
        OnlyRequest(a, messages, staged, rounds);
      }
    } else {
      CapReached(a, messages, staged);
    }
  }

  /** A transcript the plain loop never asks about makes no difference to it. */
  lemma {:induction false} UnaskedUnchanged(a: Agent, messages: seq<Message>, staged: seq<Operation>, rounds: nat,
                                            at: seq<Message>, text: string)
    requires at !in RoundsFrom(a, messages, staged, rounds).prompts
    ensures RoundsFrom(Changed(a, at, text), messages, staged, rounds) == RoundsFrom(a, messages, staged, rounds)
    decreases rounds
  {
    if rounds > 0 {
      var c, b := a.complete(messages), Changed(a, at, text);
      FirstRequest(a, messages, staged, rounds);
      assert messages in RoundsFrom(a, messages, staged, rounds).prompts;
      assert b.complete(messages) == c;
      if c.Response? && c.calls != [] && !EndsTurn(a, messages, staged, c) {
        NextRequests(a, messages, staged, rounds);
        var r := Answering(a, messages, staged, c);
        assert Answering(b, messages, staged, c) == r;
        NextRequests(b, messages, staged, rounds);
        hide RoundsFrom, Answering, EndsTurn, Changed;
        UnaskedUnchanged(a, r.messages, r.staged, rounds - 1, at, text);
      }
    }
  }

  /** Where the requests part, what the model says next decides the result of the stream, and the
      plain loop never asks there. */
  lemma {:induction false} PartingPoint(a: Agent, messages: seq<Message>, staged: seq<Operation>, rounds: nat,
                                        text: string)
      returns (at: seq<Message>, operations: seq<Operation>)
    requires SameModel(a) && text != "" && !NoneCarriedOn(a, RoundsFrom(a, messages, staged, rounds).prompts)
    ensures |at| > |messages| && at !in RoundsFrom(a, messages, staged, rounds).prompts
    ensures RoundsFrom(CollectingAgent(Changed(a, at, text)), messages, staged, rounds).outcome
        == Done(TurnResult(text, operations))
    decreases rounds
  {
    hide RoundsFrom, AnswerCalls, Collected, Changed;
    FirstRequest(a, messages, staged, rounds);
    var c := a.complete(messages);
    if !c.Response? || c.calls == [] || EndsTurn(a, messages, staged, c) {
      OnlyRequest(a, messages, staged, rounds);
      assert false;
    }
    var r := Answering(a, messages, staged, c);
    var rest := RoundsFrom(a, r.messages, r.staged, rounds - 1).prompts;
    NextRequests(a, messages, staged, rounds);
    NoneCarriedOnCons(a, messages, rest);
    NormalizedRound(a, messages, staged, c);
    RequestsGrow(a, r.messages, r.staged, rounds - 1);
    if PutsEmptyText(a, messages) {
      EmptyTextSplits(a, messages, staged);
      var s := Answering(CollectingAgent(a), messages, staged, Normalized(c));
      at, operations := s.messages, s.staged;
      NormalizedLength(a, messages, staged, c);
      FirstRequest(a, r.messages, r.staged, rounds - 1);
      assert at !in [messages] + rest;
      PartsHere(a, messages, staged, rounds, text, at);
    } else {
      at, operations := PartingPoint(a, r.messages, r.staged, rounds - 1, text);
      PartsLater(a, messages, staged, rounds, text, at);
      assert at !in [messages] + rest;
    }
  }

  lemma NormalizedLength(a: Agent, messages: seq<Message>, staged: seq<Operation>, c: Completion)
    requires c.Response?
    ensures |Answering(CollectingAgent(a), messages, staged, Normalized(c)).messages|
        == |Answering(a, messages, staged, c).messages|
    ensures |messages| < |Answering(a, messages, staged, c).messages|
  {
    hide AnswerCalls;
    NormalizedRound(a, messages, staged, c);
    assert Answering(CollectingAgent(a), messages, staged, Normalized(c))
        == Answering(a, messages, staged, Normalized(c));
  }

  lemma PartsHere(a: Agent, messages: seq<Message>, staged: seq<Operation>, rounds: nat, text: string, at: seq<Message>)
    requires SameModel(a) && text != "" && rounds > 1 && |at| > |messages|
    requires PutsEmptyText(a, messages) && !EndsTurn(a, messages, staged, a.complete(messages))
    requires at == Answering(CollectingAgent(a), messages, staged, Normalized(a.complete(messages))).messages
    ensures var operations := Answering(CollectingAgent(a), messages, staged, Normalized(a.complete(messages))).staged;
            RoundsFrom(CollectingAgent(Changed(a, at, text)), messages, staged, rounds).outcome
                == Done(TurnResult(text, operations))
  {
    hide RoundsFrom, AnswerCalls, Collected, Changed;
    var c, b := a.complete(messages), CollectingAgent(Changed(a, at, text));
    ChangedCollects(a, at, text, messages);
    ChangedCollects(a, at, text, at);
    EmptyTextSplits(a, messages, staged);
    var s := Answering(b, messages, staged, Normalized(c));
    assert s == Answering(CollectingAgent(a), messages, staged, Normalized(c));
    NormalizedCalls(c);
    NextRequests(b, messages, staged, rounds);
    LastRequest(b, at, s.staged, rounds - 1);
  }

  lemma PartsLater(a: Agent, messages: seq<Message>, staged: seq<Operation>, rounds: nat, text: string,
                   at: seq<Message>)
    requires SameModel(a) && text != "" && rounds > 0 && |at| > |messages|
    requires a.complete(messages).Response? && a.complete(messages).calls != []
    requires !PutsEmptyText(a, messages) && !EndsTurn(a, messages, staged, a.complete(messages))
    ensures var r, b := Answering(a, messages, staged, a.complete(messages)), CollectingAgent(Changed(a, at, text));
            RoundsFrom(b, messages, staged, rounds).outcome == RoundsFrom(b, r.messages, r.staged, rounds - 1).outcome
  {
    hide RoundsFrom, AnswerCalls, Collected, Changed;
    var c, b := a.complete(messages), CollectingAgent(Changed(a, at, text));
    ChangedCollects(a, at, text, messages);
    assert Normalized(c) == c;
    assert Answering(b, messages, staged, c) == Answering(a, messages, staged, c);
    NextRequests(b, messages, staged, rounds);
  }

  /** What a further request records of the reply before it. */
  lemma {:induction false} RequestsRecord(a: Agent, messages: seq<Message>, staged: seq<Operation>, rounds: nat, i: nat)
    requires i + 1 < |RoundsFrom(a, messages, staged, rounds).prompts|
    ensures var p, q := RoundsFrom(a, messages, staged, rounds).prompts[i],
        RoundsFrom(a, messages, staged, rounds).prompts[i + 1];
            && a.complete(p).Response? && a.complete(p).calls != []
            && |p| < |q| && q[|p|] == Assistant(a.complete(p).content, a.complete(p).calls)
    decreases rounds
  {
    hide RoundsFrom, AnswerCalls;
    FirstRequest(a, messages, staged, rounds);
    var c := a.complete(messages);
    if !c.Response? || c.calls == [] || EndsTurn(a, messages, staged, c) {
      OnlyRequest(a, messages, staged, rounds);
      assert false;
    }
    NextRequests(a, messages, staged, rounds);
    var r := Answering(a, messages, staged, c);
    if i == 0 {
      NormalizedRound(a, messages, staged, c);
      FirstRequest(a, r.messages, r.staged, rounds - 1);
    } else {
      RequestsRecord(a, r.messages, r.staged, rounds - 1, i - 1);
    }
  }

  /** Whether an empty text is carried on can be read off the requests, for any model that made them. */
  lemma SameRequestsSameTexts(a: Agent, b: Agent, conversation: seq<Message>)
    requires PlainTurn(a, conversation).prompts == PlainTurn(b, conversation).prompts
    ensures NoneCarriedOn(a, PlainTurn(a, conversation).prompts)
        <==> NoneCarriedOn(b, PlainTurn(b, conversation).prompts)
  {
    var prompts := PlainTurn(a, conversation).prompts;
    hide RoundsFrom;
    forall i | 0 <= i < |prompts| - 1 ensures PutsEmptyText(a, prompts[i]) <==> PutsEmptyText(b, prompts[i]) {
      RequestsRecord(a, conversation, [], MAX_ROUNDS, i);
      RequestsRecord(b, conversation, [], MAX_ROUNDS, i);
    }
  }

  /** If an empty text is carried on, some model that leads the plain loop through the very same turn
      leads the stream to another result. */
  lemma SomeModelDiverges(a: Agent, conversation: seq<Message>) returns (b: Agent)
    requires SameModel(a) && !NoneCarriedOn(a, PlainTurn(a, conversation).prompts)
    ensures SameModel(b) && b.toolbox == a.toolbox && PlainTurn(b, conversation) == PlainTurn(a, conversation)
    ensures !Delivers(StreamingTurn(b, conversation), PlainTurn(b, conversation).outcome)
  {
    hide RoundsFrom, StreamRoundsFrom, SameModel, Changed;
    var outcome := PlainTurn(a, conversation).outcome;
    var text := (if outcome.Done? then outcome.result.reply else "") + "!";
    var at, operations := PartingPoint(a, conversation, [], MAX_ROUNDS, text);
    b := Changed(a, at, text);
    ChangedIsOneModel(a, at, text);
    UnaskedUnchanged(a, conversation, [], MAX_ROUNDS, at, text);
    ChangedKeeps(a, at, text);
    StreamingIsCollecting(b, conversation, [], MAX_ROUNDS);
    assert Delivers(StreamingTurn(b, conversation), Done(TurnResult(text, operations)));
    if outcome.Done? { assert |text| != |outcome.result.reply|; }
  }

  lemma ChangedKeeps(a: Agent, at: seq<Message>, text: string)
    ensures Changed(a, at, text).toolbox == a.toolbox && Changed(a, at, text).isConfigured == a.isConfigured
  {
  }

  /** The exact condition for the promised result: whatever else the model would say, streaming ends as
      the plain turn does, exactly when the turn carries no empty text beside tool calls into a further
      request. */
  lemma ResultsAgreeIff(a: Agent, conversation: seq<Message>)
    requires SameModel(a)
    ensures NoneCarriedOn(a, PlainTurn(a, conversation).prompts) <==>
      forall b: Agent | SameModel(b) && b.toolbox == a.toolbox
                        && PlainTurn(b, conversation) == PlainTurn(a, conversation) ::
        Delivers(StreamingTurn(b, conversation), PlainTurn(b, conversation).outcome)
  {
    hide PlainTurn, StreamingTurn, SameModel, Delivers, NoneCarriedOn;
    if NoneCarriedOn(a, PlainTurn(a, conversation).prompts) {
      forall b: Agent | SameModel(b) && b.toolbox == a.toolbox
                        && PlainTurn(b, conversation) == PlainTurn(a, conversation)
        ensures Delivers(StreamingTurn(b, conversation), PlainTurn(b, conversation).outcome)
      {
        SameRequestsSameTexts(a, b, conversation);
        LoopsAgree(b, conversation);
      }
    } else {
      var b := SomeModelDiverges(a, conversation);
    }
  }

  // ----- two results for one model -----

  /** A model that first makes one call, and then says whether its own first message came back
      without a text. */
  function ExampleText(t: seq<Message>, without: string, with: string): string {
    if |t| < 2 then "" else if t[1].Assistant? && t[1].reply == None then without else with
  }

  function ExampleAgent(call: ToolCall, without: string, with: string): Agent {
    Agent(true,
      t => Response(Some(ExampleText(t, without, with)), if |t| < 2 then [call] else []),
      t => Streamed([Delta(ExampleText(t, without, with), if |t| < 2 then Some(call) else None)], Finished),
      Toolbox(false, map[], (messages, c) => HandlerCrash),
      name => name)
  }

  /** The final results can differ too, not only the requests: for any call but a clarification and
      any two replies there is a model that the plain loop ends with one and streaming with the other. */
  lemma EmptyTextDiverges(prompt: Message, call: ToolCall, without: string, with: string)
    requires call.name != REQUEST_CLARIFICATION
    ensures var a := ExampleAgent(call, without, with);
            && SameModel(a)
            && RoundsFrom(a, [prompt], [], MAX_ROUNDS).outcome == Done(TurnResult(with, []))
            && Delivers(StreamRoundsFrom(a, [prompt], [], MAX_ROUNDS), Done(TurnResult(without, [])))
  {
    var a := ExampleAgent(call, without, with);
    hide ExampleAgent, StreamRoundsFrom, RoundsFrom, SameModel, Delivers, CollectingAgent, Asks;
    ExampleModel(call, without, with);
    ExampleRound(a, prompt, call, Some(""), with);
    ExampleRound(CollectingAgent(a), prompt, call, None, without);
    StreamingIsCollecting(a, [prompt], [], MAX_ROUNDS);
  }

  ghost predicate Asks(a: Agent, call: ToolCall, first: Option<string>, reply: string) {
    && a.toolbox.tools == map[]
    && (forall t: seq<Message> | |t| == 1 :: a.complete(t) == Response(first, [call]))
    && (forall t: seq<Message> | |t| >= 2 && t[1] == Assistant(first, [call]) ::
          a.complete(t).Response? && OrEmpty(a.complete(t).content) == reply && a.complete(t).calls == [])
  }

  lemma ExampleIsOneModel(call: ToolCall, without: string, with: string)
    ensures SameModel(ExampleAgent(call, without, with))
  {
    var a := ExampleAgent(call, without, with);
    forall t: seq<Message> ensures Normalized(a.complete(t)) == Collected(a.stream(t)) {
      SingleDelta(a.stream(t).deltas[0]);
      hide JoinText, CallsIn;
    }
  }

  lemma ExampleModel(call: ToolCall, without: string, with: string)
    ensures SameModel(ExampleAgent(call, without, with))
    ensures Asks(ExampleAgent(call, without, with), call, Some(""), with)
    ensures Asks(CollectingAgent(ExampleAgent(call, without, with)), call, None, without)
  {
    var a := ExampleAgent(call, without, with);
    ExampleIsOneModel(call, without, with);
    hide JoinText, CallsIn, Collected;
    forall t: seq<Message> ensures CollectingAgent(a).complete(t) == Normalized(a.complete(t)) {}
    assert Asks(a, call, Some(""), with);
    var b := CollectingAgent(a);
    assert b.toolbox.tools == map[];
    hide SameModel, CollectingAgent;
    forall t: seq<Message> | |t| == 1 ensures b.complete(t) == Response(None, [call]) {}
    forall t: seq<Message> | |t| >= 2 && t[1] == Assistant(None, [call])
      ensures b.complete(t) == Normalized(Response(Some(without), []))
    {}
  }

  /** A call of an unknown tool is answered with an error and stages nothing. */
  lemma UnknownTool(tb: Toolbox, prompt: Message, first: Option<string>, call: ToolCall) returns (answer: Message)
    requires call.name != REQUEST_CLARIFICATION && call.name !in tb.tools
    ensures AnswerCalls(tb, StartRound([prompt], [], first, [call]), [call])
         == Round([prompt, Assistant(first, [call]), answer], [], None, false)
  {
    var start := StartRound([prompt], [], first, [call]);
    answer := Tool(call.id, PayloadOf(Dispatch(tb, start.messages, call)));
    assert StagedBy(Dispatch(tb, start.messages, call)) == [];
    assert AnswerCall(tb, start, call) == start.(messages := start.messages + [answer]);
    hide AnswerCall, Dispatch, PayloadOf;
    OneCall(tb, start, call);
    hide AnswerCalls;
    assert start.messages + [answer] == [prompt, Assistant(first, [call]), answer];
  }

  /** The turn of the example model, whose first message is recorded with this text. */
  lemma ExampleRound(a: Agent, prompt: Message, call: ToolCall, first: Option<string>, reply: string)
    requires call.name != REQUEST_CLARIFICATION && Asks(a, call, first, reply)
    ensures RoundsFrom(a, [prompt], [], MAX_ROUNDS).outcome == Done(TurnResult(reply, []))
  {
    hide AnswerCalls, AnswerCall, OrEmpty, Dispatch, PayloadOf, StartRound;
    assert a.complete([prompt]) == Response(first, [call]);
    var answer := UnknownTool(a.toolbox, prompt, first, call);
    var t := [prompt, Assistant(first, [call]), answer];
    assert t[1] == Assistant(first, [call]);
    LastRequest(a, t, [], MAX_ROUNDS - 1);
  }

  lemma OneCall(tb: Toolbox, r: Round, call: ToolCall)
    requires !r.crashed
    ensures AnswerCalls(tb, r, [call]) == AnswerCall(tb, r, call)
  {
    assert [call][1..] == [];
  }

  lemma SingleDelta(d: Delta)
    ensures JoinText([d]) == d.text
    ensures CallsIn([d]) == if d.call.Some? then [d.call.value] else []
  {
    assert [d][..0] == [];
  }

  // ----- what a turn guarantees on its own -----

  /** Every tool call of every assistant message is answered, in order and right after
      it, by exactly one tool message with its id; there are no other tool messages. */
  ghost predicate Answered(t: seq<Message>) {
    && (forall i | 0 <= i < |t| && t[i].Assistant? :: AnsweredAt(t, i))
    && (forall k | 0 <= k < |t| && t[k].Tool? :: exists i :: 0 <= i < k && t[i].Assistant? && k <= i + |t[i].calls|)
  }

  ghost predicate AnsweredAt(t: seq<Message>, i: nat)
    requires i < |t| && t[i].Assistant?
  {
    i + |t[i].calls| < |t| && Answers(t[i + 1..][..|t[i].calls|], t[i].calls)
  }

  /** One tool message for each call, in order, with its id. */
  ghost predicate Answers(messages: seq<Message>, calls: seq<ToolCall>) {
    |messages| == |calls| && forall j | 0 <= j < |calls| :: messages[j].Tool? && messages[j].callId == calls[j].id
  }

  lemma {:induction false} RoundAnswers(tb: Toolbox, r: Round, calls: seq<ToolCall>) returns (answers: seq<Message>)
    requires !AnswerCalls(tb, r, calls).crashed
    ensures AnswerCalls(tb, r, calls).messages == r.messages + answers && Answers(answers, calls)
    decreases |calls|
  {
    if calls == [] {
      answers := [];
    } else {
      var r' := AnswerCall(tb, r, calls[0]);
      var rest := RoundAnswers(tb, r', calls[1..]);
      answers := [r'.messages[|r.messages|]] + rest;
      assert r'.messages == r.messages + [r'.messages[|r.messages|]];
    }
  }

  lemma AnsweredExtends(t: seq<Message>, content: Option<string>, calls: seq<ToolCall>, answers: seq<Message>)
    requires Answered(t) && Answers(answers, calls)
    ensures Answered(t + [Assistant(content, calls)] + answers)
  {
    var t' := t + [Assistant(content, calls)] + answers;
    forall i | 0 <= i < |t'| && t'[i].Assistant? ensures AnsweredAt(t', i) {
      if i < |t| {
        assert t'[i] == t[i] && AnsweredAt(t, i);
        assert t'[i + 1..][..|t[i].calls|] == t[i + 1..][..|t[i].calls|];
      } else {
        assert t'[i + 1..][..|calls|] == answers;
      }
    }
    forall k | 0 <= k < |t'| && t'[k].Tool?
      ensures exists i :: 0 <= i < k && t'[i].Assistant? && k <= i + |t'[i].calls|
    {
      if k < |t| {
        assert t'[k] == t[k];
        var i :| 0 <= i < k && t[i].Assistant? && k <= i + |t[i].calls|;
        assert t'[i] == t[i];
      } else {
        assert t'[|t|] == Assistant(content, calls);
      }
    }
  }

  lemma ConversationAnswered(system: string, history: seq<(string, string)>, content: string)
    ensures Answered(Conversation(system, history, content))
  {
  }

  lemma {:induction false} PromptsAnswered(a: Agent, messages: seq<Message>, staged: seq<Operation>, rounds: nat)
    requires Answered(messages)
    ensures |RoundsFrom(a, messages, staged, rounds).prompts| <= rounds
    ensures forall p | p in RoundsFrom(a, messages, staged, rounds).prompts :: Answered(p) && messages <= p
    decreases rounds
  {
    if rounds > 0 && a.complete(messages).Response? && a.complete(messages).calls != [] {
      var Response(content, calls) := a.complete(messages);
      var start := StartRound(messages, staged, content, calls);
      var r := AnswerCalls(a.toolbox, start, calls);
      if !r.crashed && r.clarification.None? {
        var answers := RoundAnswers(a.toolbox, start, calls);
        hide AnswerCalls, Answered, Answers;
        AnsweredExtends(messages, content, calls, answers);
        PromptsAnswered(a, r.messages, r.staged, rounds - 1);
        assert messages <= r.messages;
      }
    }
  }

  /** Whatever the model says, both loops ask it at most six times, and each time every
      earlier tool call has been answered by exactly one tool message with its id, in order. */
  lemma EveryPromptAnswered(a: Agent, system: string, history: seq<(string, string)>, content: string)
    ensures var plain := PlainTurn(a, Conversation(system, history, content)).prompts;
      |plain| <= MAX_ROUNDS && forall p | p in plain :: Answered(p)
    ensures var streaming := StreamingTurn(a, Conversation(system, history, content)).prompts;
      |streaming| <= MAX_ROUNDS && forall p | p in streaming :: Answered(p)
  {
    var t := Conversation(system, history, content);
    ConversationAnswered(system, history, content);
    PromptsAnswered(a, t, [], MAX_ROUNDS);
    PromptsAnswered(CollectingAgent(a), t, [], MAX_ROUNDS);
    StreamingIsCollecting(a, t, [], MAX_ROUNDS);
  }

  // ----- staged operations -----

  /** Only write tools stage operations. */
  ghost predicate OnlyWritesStage(tb: Toolbox) {
    forall t: seq<Message>, call: ToolCall ::
      call.name in tb.tools && StagedBy(tb.handler(t, call)) != [] ==> tb.tools[call.name].kind == Write
  }

  lemma {:induction false} ReadOnlyRoundStagesNothing(tb: Toolbox, r: Round, calls: seq<ToolCall>)
    requires tb.isReadOnly && OnlyWritesStage(tb) && r.staged == []
    ensures AnswerCalls(tb, r, calls).staged == []
    decreases |calls|
  {
    if calls != [] && !r.crashed {
      assert StagedBy(Dispatch(tb, r.messages, calls[0])) == [];
      ReadOnlyRoundStagesNothing(tb, AnswerCall(tb, r, calls[0]), calls[1..]);
    }
  }

  lemma {:induction false} ReadOnlyRoundsStageNothing(a: Agent, messages: seq<Message>, rounds: nat)
    requires a.toolbox.isReadOnly && OnlyWritesStage(a.toolbox)
    ensures var o := RoundsFrom(a, messages, [], rounds).outcome; o.Done? ==> o.result.operations == []
    decreases rounds
  {
    if rounds > 0 && a.complete(messages).Response? && a.complete(messages).calls != [] {
      var Response(content, calls) := a.complete(messages);
      var start := StartRound(messages, [], content, calls);
      var r := AnswerCalls(a.toolbox, start, calls);
      ReadOnlyRoundStagesNothing(a.toolbox, start, calls);
      if !r.crashed && r.clarification.None? {
        ReadOnlyRoundsStageNothing(a, r.messages, rounds - 1);
      }
    }
  }

  /** A read-only user's turn returns no staged operation, however it ends, in either loop. */
  lemma ReadOnlyStagesNothing(a: Agent, conversation: seq<Message>)
    requires a.toolbox.isReadOnly && OnlyWritesStage(a.toolbox)
    ensures var o := PlainTurn(a, conversation).outcome; o.Done? ==> o.result.operations == []
    ensures var s := StreamingTurn(a, conversation).events;
      forall i | 0 <= i < |s| && s[i].ResultEvent? :: s[i].result.operations == []
  {
    hide StreamRoundsFrom, RoundsFrom, OnlyWritesStage;
    ReadOnlyRoundsStageNothing(a, conversation, MAX_ROUNDS);
    ReadOnlyRoundsStageNothing(CollectingAgent(a), conversation, MAX_ROUNDS);
    StreamingIsCollecting(a, conversation, [], MAX_ROUNDS);
  }

  /** The question of the last clarification request among the calls. */
  function LastQuestion(calls: seq<ToolCall>): Option<string> {
    if calls == [] then None
    else if LastQuestion(calls[1..]).Some? then LastQuestion(calls[1..])
    else if calls[0].name == REQUEST_CLARIFICATION then Some(Question(calls[0])) else None
  }

  lemma {:induction false} RoundClarifies(tb: Toolbox, r: Round, calls: seq<ToolCall>)
    requires !AnswerCalls(tb, r, calls).crashed
    ensures AnswerCalls(tb, r, calls).clarification
         == if LastQuestion(calls).Some? then LastQuestion(calls) else r.clarification
    decreases |calls|
  {
    if calls != [] {
      RoundClarifies(tb, AnswerCall(tb, r, calls[0]), calls[1..]);
    }
  }

  /** A reply that asks for clarification ends the turn with its last question and drops
      everything staged, in this round and in every round before it. */
  lemma ClarificationDropsStaged(a: Agent, messages: seq<Message>, staged: seq<Operation>, rounds: nat)
    requires rounds > 0 && a.complete(messages).Response? && LastQuestion(a.complete(messages).calls).Some?
    ensures var o := RoundsFrom(a, messages, staged, rounds).outcome;
      o.Done? ==> o == Done(TurnResult(LastQuestion(a.complete(messages).calls).value, []))
  {
    var Response(content, calls) := a.complete(messages);
    var start := StartRound(messages, staged, content, calls);
    if !AnswerCalls(a.toolbox, start, calls).crashed {
      RoundClarifies(a.toolbox, start, calls);
    }
  }
}
