/** Reading a request body through the size guard and, for audited JSON writes, through
    the buffer that peeks at the body and replays it to the app. */
module BodyGuard {
  const MAX_REQUEST_PEEK := 64_000

  type Bytes = seq<bv8>

  /** An incoming ASGI message; an absent `body` is empty and an absent `more_body` false. */
  datatype Message = Request(body: Bytes, moreBody: bool) | Disconnect

  /** What one `receive()` gives: a message, the guard's exception, or nothing yet. */
  datatype Received = Got(message: Message) | TooLarge | Waiting

  datatype Out = ResponseStart(status: int) | ResponseBody(body: string)

  /** The `Content-Length` header. */
  datatype Declared = Absent | Malformed | Length(value: int)

  const REJECTION: seq<Out> :=
    [ResponseStart(413),
     ResponseBody("{\"error\": {\"code\": \"payload_too_large\", \"message\": \"Request body too large.\"}}")]

  // ----- what the guard lets through -----

  function Size(m: Message): nat {
    if m.Request? then |m.body| else 0
  }

  function TotalUpTo(source: seq<Message>, n: nat): nat
    requires n <= |source|
  {
    if n == 0 then 0 else TotalUpTo(source, n - 1) + Size(source[n - 1])
  }

  /** The outcome of the receive that consumes message `i`. */
  function Outcome(source: seq<Message>, maxBytes: int, i: nat): Received
    requires i < |source|
  {
    if source[i].Request? && TotalUpTo(source, i + 1) > maxBytes then TooLarge else Got(source[i])
  }

  function ReceiveAt(source: seq<Message>, maxBytes: int, i: nat): Received
    requires i <= |source|
  {
    if i == |source| then Waiting else Outcome(source, maxBytes, i)
  }

  function After(source: seq<Message>, i: nat): nat {
    if i < |source| then i + 1 else i
  }

  /** `guarded_receive` over the messages the server will deliver. */
  class GuardedReceive {
    const source: seq<Message>
    const maxBytes: int
    var position: nat
    var total: nat

    ghost predicate Valid() reads this {
      position <= |source| && total == TotalUpTo(source, position)
    }

    constructor (source: seq<Message>, maxBytes: int)
      ensures Valid() && this.source == source && this.maxBytes == maxBytes && position == 0
    {
      this.source, this.maxBytes := source, maxBytes;
      position, total := 0, 0;
    }

    method Receive() returns (r: Received)
      requires Valid()
      modifies this
      ensures Valid() && position == After(source, old(position))
      ensures r == ReceiveAt(source, maxBytes, old(position))
    {
      if position == |source| { return Waiting; }
      var message := source[position];
      position := position + 1;
      if message.Request? {
        total := total + |message.body|;
        if total > maxBytes { return TooLarge; }
      }
      return Got(message);
    }
  }

  // ----- buffering and replay -----

  function Bodies(ms: seq<Message>): (b: Bytes) {
    if ms == [] then []
    else Bodies(ms[..|ms| - 1]) + (if ms[|ms| - 1].Request? then ms[|ms| - 1].body else [])
  }

  /** Whether buffering stops at message `i`, having begun at `first`. */
  predicate StopsAt(source: seq<Message>, cap: int, first: nat, i: nat)
    requires first <= i < |source|
  {
    || source[i].Disconnect?
    || !source[i].moreBody
    || TotalUpTo(source, i + 1) - TotalUpTo(source, first) > cap
  }

  datatype BufferEnd = Complete(end: nat) | Rejected | Blocked

  /** How buffering from `first` ends, when nothing stopped it before message `i`. */
  function BufferEndFrom(source: seq<Message>, maxBytes: int, cap: int, first: nat, i: nat): (e: BufferEnd)
    requires first <= i <= |source|
    ensures e.Complete? ==> i < e.end <= |source|
    decreases |source| - i
  {
    if i == |source| then Blocked
    else if Outcome(source, maxBytes, i) == TooLarge then Rejected
    else if StopsAt(source, cap, first, i) then Complete(i + 1)
    else BufferEndFrom(source, maxBytes, cap, first, i + 1)
  }

  /** Buffered messages are all messages the guard let through, and only the last one stops. */
  lemma {:induction false} BufferEndMeaning(source: seq<Message>, maxBytes: int, cap: int, first: nat, i: nat)
    requires first <= i <= |source|
    ensures var e := BufferEndFrom(source, maxBytes, cap, first, i);
            e.Complete? ==>
              && i < e.end <= |source|
              && StopsAt(source, cap, first, e.end - 1)
              && (forall k | i <= k < e.end :: Outcome(source, maxBytes, k) == Got(source[k]))
              && (forall k | i <= k < e.end - 1 :: !StopsAt(source, cap, first, k))
    decreases |source| - i
  {
    if i < |source| && Outcome(source, maxBytes, i) != TooLarge && !StopsAt(source, cap, first, i) {
      BufferEndMeaning(source, maxBytes, cap, first, i + 1);
    }
  }

  /** The messages from `first` up to `n`. */
  function Read(source: seq<Message>, first: nat, n: nat): (ms: seq<Message>)
    requires first <= n <= |source|
    ensures |ms| == n - first
  {
    source[first..n]
  }

  lemma {:induction false} BodiesSize(source: seq<Message>, first: nat, n: nat)
    requires first <= n <= |source|
    ensures |Bodies(Read(source, first, n))| == TotalUpTo(source, n) - TotalUpTo(source, first)
    decreases n
  {
    if first < n {
      BodiesSize(source, first, n - 1);
      BodiesAppend(source, first, n - 1);
    } else {
      assert source[first..n] == [];
    }
  }

  lemma BodiesAppend(source: seq<Message>, first: nat, n: nat)
    requires first <= n < |source|
    ensures Bodies(Read(source, first, n + 1))
         == Bodies(Read(source, first, n)) + (if source[n].Request? then source[n].body else [])
    ensures Read(source, first, n + 1) == Read(source, first, n) + [source[n]]
  {
    var more := source[first..n + 1];
    assert more[..|more| - 1] == source[first..n];
  }

  /** The `receive` handed to the app after buffering. */
  class ReplayReceive {
    const guarded: GuardedReceive
    const first: nat
    const messages: seq<Message>
    var index: nat

    ghost predicate Valid() reads this, guarded {
      && guarded.Valid()
      && index <= |messages|
      && first + |messages| <= |guarded.source|
      && messages == Read(guarded.source, first, first + |messages|)
      && (forall k | first <= k < first + |messages| ::
            Outcome(guarded.source, guarded.maxBytes, k) == Got(guarded.source[k]))
      && first + |messages| <= guarded.position
      && (index < |messages| ==> guarded.position == first + |messages|)
    }

    /** The number of messages the app has read. */
    ghost function Cursor(): nat reads this, guarded {
      if index < |messages| then first + index else guarded.position
    }

    constructor (guarded: GuardedReceive, first: nat, messages: seq<Message>)
      requires guarded.Valid()
      requires first + |messages| <= |guarded.source| && messages == Read(guarded.source, first, first + |messages|)
      requires guarded.position == first + |messages|
      requires forall k | first <= k < first + |messages| ::
                 Outcome(guarded.source, guarded.maxBytes, k) == Got(guarded.source[k])
      ensures Valid() && this.guarded == guarded && Cursor() == first
    {
      this.guarded, this.first, this.messages, index := guarded, first, messages, 0;
    }

    /** The app cannot tell replay from the guard: the same contract, message by message. */
    method Receive() returns (r: Received)
      requires Valid()
      modifies this, guarded
      ensures Valid() && Cursor() == After(guarded.source, old(Cursor()))
      ensures r == ReceiveAt(guarded.source, guarded.maxBytes, old(Cursor()))
    {
      if index < |messages| {
        r := Got(messages[index]);
        index := index + 1;
      } else {
        r := guarded.Receive();
      }
    }
  }

  datatype Buffered = Buffered(body: Bytes, messages: seq<Message>) | RaisedTooLarge | StillWaiting

  function BufferedBy(source: seq<Message>, first: nat, e: BufferEnd): Buffered
    requires e.Complete? ==> first <= e.end <= |source|
  {
    match e
    case Complete(end) => Buffered(Bodies(Read(source, first, end)), Read(source, first, end))
    case Rejected => RaisedTooLarge
    case Blocked => StillWaiting
  }

  /** What the loop has gathered before message `i`. */
  ghost predicate Buffering(source: seq<Message>, maxBytes: int, cap: int, first: nat, i: nat,
                            messages: seq<Message>, chunks: Bytes)
  {
    && first <= i <= |source|
    && messages == Read(source, first, i)
    && chunks == Bodies(messages)
    && BufferEndFrom(source, maxBytes, cap, first, first) == BufferEndFrom(source, maxBytes, cap, first, i)
  }

  lemma BufferingStep(source: seq<Message>, maxBytes: int, cap: int, first: nat, i: nat,
                      messages: seq<Message>, chunks: Bytes)
    requires Buffering(source, maxBytes, cap, first, i, messages, chunks)
    ensures var result := BufferedBy(source, first, BufferEndFrom(source, maxBytes, cap, first, first));
            match ReceiveAt(source, maxBytes, i)
            case Waiting => result == StillWaiting
            case TooLarge => result == RaisedTooLarge
            case Got(m) =>
              var more, all := messages + [m], if m.Request? then chunks + m.body else chunks;
              if m.Disconnect? || !m.moreBody || |all| > cap
              then result == Buffered(all, more) && |more| == i + 1 - first
              else Buffering(source, maxBytes, cap, first, i + 1, more, all)
  {
    hide Bodies, TotalUpTo, Read;
    if i < |source| && Outcome(source, maxBytes, i) != TooLarge {
      BodiesAppend(source, first, i);
      BodiesSize(source, first, i + 1);
      assert Outcome(source, maxBytes, i) == Got(source[i]);
    }
  }

  /** `_buffer_request_body`: read until the body ends, the client is gone or the cap is passed. */
  method BufferRequestBody(guarded: GuardedReceive, cap: int) returns (r: Buffered)
    requires guarded.Valid()
    modifies guarded
    ensures guarded.Valid()
    ensures var first := old(guarded.position);
            r == BufferedBy(guarded.source, first, BufferEndFrom(guarded.source, guarded.maxBytes, cap, first, first))
    ensures r.Buffered? ==> guarded.position == old(guarded.position) + |r.messages|
  {
    ghost var first := guarded.position;
    var messages: seq<Message>, chunks: Bytes, size := [], [], 0;
    while true
      invariant guarded.Valid()
      invariant Buffering(guarded.source, guarded.maxBytes, cap, first, guarded.position, messages, chunks)
      invariant size == |chunks|
      decreases |guarded.source| - guarded.position
    {
      BufferingStep(guarded.source, guarded.maxBytes, cap, first, guarded.position, messages, chunks);
      hide Buffering, BufferedBy, BufferEndFrom, TotalUpTo, Bodies;
      var received := guarded.Receive();
      match received {
        case Waiting => return StillWaiting;
        case TooLarge => return RaisedTooLarge;
        case Got(message) =>
          messages := messages + [message];
          if message.Disconnect? { return Buffered(chunks, messages); }
          chunks := chunks + message.body;
          size := size + |message.body|;
          if !message.moreBody || size > cap { return Buffered(chunks, messages); }
      }
    }
  }

  // ----- a whole request -----

  /** What the app does next. Any adaptive app's run is one such script. */
  datatype Action = Receive | Send(out: Out)

  /** Whether the app, when done, lets an exception it was given escape. */
  datatype Ending = Returns | LetsEscape

  /** What the app was given and what was sent. */
  datatype Exchange = Exchange(seen: seq<Received>, sent: seq<Out>)

  /** Running a script from message `cursor`; it stops for good at a receive that waits. */
  function PlayFrom(source: seq<Message>, maxBytes: int, cursor: nat, script: seq<Action>): Exchange
    requires cursor <= |source|
    decreases |script|
  {
    if script == [] then Exchange([], [])
    else match script[0]
      case Send(out) =>
        var rest := PlayFrom(source, maxBytes, cursor, script[1..]);
        Exchange(rest.seen, [out] + rest.sent)
      case Receive =>
        if cursor == |source| then Exchange([Waiting], [])
        else
          var rest := PlayFrom(source, maxBytes, cursor + 1, script[1..]);
          Exchange([Outcome(source, maxBytes, cursor)] + rest.seen, rest.sent)
  }

  predicate Started(sent: seq<Out>) {
    exists i | 0 <= i < |sent| :: sent[i].ResponseStart?
  }

  /** The exception handler: reject unless the app has begun its response. */
  function Finished(x: Exchange, ending: Ending): Exchange {
    if ending == LetsEscape && TooLarge in x.seen && Waiting !in x.seen && !Started(x.sent)
    then x.(sent := x.sent + REJECTION)
    else x
  }

  function Served(source: seq<Message>, maxBytes: int, declared: Declared, audited: bool,
                  script: seq<Action>, ending: Ending): Exchange
  {
    var played := Finished(PlayFrom(source, maxBytes, 0, script), ending);
    if declared.Length? && declared.value > maxBytes then Exchange([], REJECTION)
    else if audited then
      match BufferEndFrom(source, maxBytes, MAX_REQUEST_PEEK, 0, 0)
      case Blocked => Exchange([], [])
      case Rejected => Exchange([], REJECTION)
      case Complete(_) => played
    else played
  }

  function Prepend(seen: seq<Received>, sent: seq<Out>, x: Exchange): Exchange {
    Exchange(seen + x.seen, sent + x.sent)
  }

  /** The app's run; reading with nothing buffered is reading from the guard itself. */
  method Play(receive: ReplayReceive, script: seq<Action>) returns (x: Exchange, started: bool)
    requires receive.Valid() && receive.Cursor() <= |receive.guarded.source|
    modifies receive, receive.guarded
    ensures x == PlayFrom(receive.guarded.source, receive.guarded.maxBytes, old(receive.Cursor()), script)
    ensures started == Started(x.sent)
  {
    ghost var source, maxBytes := receive.guarded.source, receive.guarded.maxBytes;
    ghost var whole := PlayFrom(source, maxBytes, receive.Cursor(), script);
    var seen: seq<Received>, sent: seq<Out> := [], [];
    started := false;
    var i := 0;
    assert script[0..] == script;
    hide PlayFrom, Prepend, Started, Outcome, TotalUpTo;
    PrependNothing(whole);
    while i < |script|
      invariant 0 <= i <= |script|
      invariant receive.Valid() && receive.Cursor() <= |source|
      invariant started == Started(sent)
      invariant whole == Prepend(seen, sent, PlayFrom(source, maxBytes, receive.Cursor(), script[i..]))
    {
      ghost var cursor := receive.Cursor();
      PlayStep(source, maxBytes, cursor, script, i);
      match script[i] {
        case Send(out) =>
          PrependMore(seen, sent, [], [out], PlayFrom(source, maxBytes, cursor, script[i + 1..]));
          StartedAppend(sent, out);
          started := started || out.ResponseStart?;
          sent := sent + [out];
        case Receive =>
          var r := receive.Receive();
          if r == Waiting {
            PrependMore(seen, sent, [r], [], Exchange([], []));
            PlayEnd(source, maxBytes, cursor, seen + [r], sent);
            return Exchange(seen + [r], sent), started;
          }
          PrependMore(seen, sent, [r], [], PlayFrom(source, maxBytes, cursor + 1, script[i + 1..]));
          seen := seen + [r];
      }
      i := i + 1;
    }
    PlayEnd(source, maxBytes, receive.Cursor(), seen, sent);
    x := Exchange(seen, sent);
  }

  lemma PlayStep(source: seq<Message>, maxBytes: int, cursor: nat, script: seq<Action>, i: nat)
    requires cursor <= |source| && i < |script|
    ensures match script[i]
            case Send(out) =>
              PlayFrom(source, maxBytes, cursor, script[i..])
              == Prepend([], [out], PlayFrom(source, maxBytes, cursor, script[i + 1..]))
            case Receive =>
              if cursor == |source| then
                PlayFrom(source, maxBytes, cursor, script[i..]) == Prepend([Waiting], [], Exchange([], []))
              else
                PlayFrom(source, maxBytes, cursor, script[i..])
                == Prepend([Outcome(source, maxBytes, cursor)], [],
                           PlayFrom(source, maxBytes, cursor + 1, script[i + 1..]))
  {
    assert script[i..][0] == script[i] && script[i..][1..] == script[i + 1..];
  }

  lemma PlayEnd(source: seq<Message>, maxBytes: int, cursor: nat, seen: seq<Received>, sent: seq<Out>)
    requires cursor <= |source|
    ensures Prepend(seen, sent, PlayFrom(source, maxBytes, cursor, [])) == Exchange(seen, sent)
    ensures Prepend(seen, sent, Exchange([], [])) == Exchange(seen, sent)
  {
  }

  lemma PrependNothing(x: Exchange)
    ensures Prepend([], [], x) == x && !Started([])
  {
  }

  /** `BodySizeLimitMiddleware.__call__` around an app that buffers first when `audited`. */
  method Call(source: seq<Message>, maxBytes: int, declared: Declared, audited: bool,
              script: seq<Action>, ending: Ending) returns (x: Exchange)
    ensures x == Served(source, maxBytes, declared, audited, script, ending)
  {
    if declared.Length? && declared.value > maxBytes { return Exchange([], REJECTION); }
    var guarded := new GuardedReceive(source, maxBytes);
    var messages: seq<Message> := [];
    if audited {
      BufferEndMeaning(source, maxBytes, MAX_REQUEST_PEEK, 0, 0);
      var buffered := BufferRequestBody(guarded, MAX_REQUEST_PEEK);
      match buffered {
        case StillWaiting => return Exchange([], []);
        case RaisedTooLarge => return Exchange([], REJECTION);
        case Buffered(_, read) => messages := read;
      }
    }
    var receive := new ReplayReceive(guarded, 0, messages);
    var started: bool;
    x, started := Play(receive, script);
    if ending == LetsEscape && TooLarge in x.seen && Waiting !in x.seen && !started {
      x := x.(sent := x.sent + REJECTION);
    }
  }

  lemma PrependMore(seen: seq<Received>, sent: seq<Out>, seen2: seq<Received>, sent2: seq<Out>, x: Exchange)
    ensures Prepend(seen, sent, Prepend(seen2, sent2, x)) == Prepend(seen + seen2, sent + sent2, x)
    ensures seen + [] == seen && sent + [] == sent
  {
    assert seen + (seen2 + x.seen) == seen + seen2 + x.seen;
    assert sent + (sent2 + x.sent) == sent + sent2 + x.sent;
  }

  lemma StartedAppend(sent: seq<Out>, out: Out)
    ensures Started(sent + [out]) == (Started(sent) || out.ResponseStart?)
  {
    var more := sent + [out];
    assert more[|sent|] == out;
    forall i | 0 <= i < |sent| ensures more[i] == sent[i] {}
    if i :| 0 <= i < |sent| && sent[i].ResponseStart? {
      assert more[i].ResponseStart?;
    }
  }
}
