/** What the size guard and the replay buffer promise for every message sequence and app. */
module BodyGuardTheorems {
  import opened BodyGuard

  lemma {:induction false} TotalGrows(source: seq<Message>, i: nat, n: nat)
    requires i <= n <= |source|
    ensures TotalUpTo(source, i) <= TotalUpTo(source, n)
  {
    if i < n { TotalGrows(source, i, n - 1); }
  }

  // ----- what the app reads -----

  lemma {:induction false} PlayedInOrder(source: seq<Message>, maxBytes: int, cursor: nat, script: seq<Action>)
    requires cursor <= |source|
    ensures var seen := PlayFrom(source, maxBytes, cursor, script).seen;
            && cursor + |seen| <= |source| + 1
            && forall k | 0 <= k < |seen| :: seen[k] == ReceiveAt(source, maxBytes, cursor + k)
    decreases |script|
  {
    if script != [] {
      match script[0]
      case Send(_) => PlayedInOrder(source, maxBytes, cursor, script[1..]);
      case Receive =>
        if cursor < |source| { PlayedInOrder(source, maxBytes, cursor + 1, script[1..]); }
    }
  }

  /** What was read is the source, message by message. */
  ghost predicate InOrder(source: seq<Message>, maxBytes: int, seen: seq<Received>) {
    && |seen| <= |source| + 1
    && forall k | 0 <= k < |seen| :: seen[k] == ReceiveAt(source, maxBytes, k)
  }

  lemma ServedInOrder(source: seq<Message>, maxBytes: int, declared: Declared, audited: bool,
                      script: seq<Action>, ending: Ending)
    ensures InOrder(source, maxBytes, Served(source, maxBytes, declared, audited, script, ending).seen)
  {
    PlayedInOrder(source, maxBytes, 0, script);
  }

  lemma RefusedFromThenOn(source: seq<Message>, maxBytes: int, j: nat, k: nat)
    requires j < k < |source| && Outcome(source, maxBytes, j) == TooLarge
    ensures Outcome(source, maxBytes, k) == (if source[k].Request? then TooLarge else Got(Disconnect))
  {
    TotalGrows(source, j + 1, k + 1);
  }

  /** The app reads the original messages in order, none skipped, repeated or changed; the first
      body message that takes the total past the limit is refused, and so is every later one. */
  lemma AppReadsTheOriginal(source: seq<Message>, maxBytes: int, declared: Declared, audited: bool,
                            script: seq<Action>, ending: Ending, k: nat)
    requires k < |Served(source, maxBytes, declared, audited, script, ending).seen|
    ensures var seen := Served(source, maxBytes, declared, audited, script, ending).seen;
            && k <= |source|
            && (k == |source| <==> seen[k] == Waiting)
            && (k < |source| ==>
                  && (seen[k] == TooLarge <==> source[k].Request? && |Bodies(source[..k + 1])| > maxBytes)
                  && (seen[k] != TooLarge ==> seen[k] == Got(source[k]))
                  && (TooLarge in seen[..k] ==> seen[k] == TooLarge || source[k] == Disconnect))
  {
    ServedInOrder(source, maxBytes, declared, audited, script, ending);
    var seen := Served(source, maxBytes, declared, audited, script, ending).seen;
    if k < |source| {
      BodiesSize(source, 0, k + 1);
      assert Read(source, 0, k + 1) == source[..k + 1];
    }
    hide Served, TotalUpTo, Bodies;
    if TooLarge in seen[..k] && k < |source| {
      var j :| 0 <= j < k && seen[..k][j] == TooLarge;
      assert seen[j] == Outcome(source, maxBytes, j);
      RefusedFromThenOn(source, maxBytes, j, k);
    }
  }

  /** The body bytes among the first receives. */
  function Delivered(seen: seq<Received>): nat {
    if seen == [] then 0
    else
      var last := seen[|seen| - 1];
      Delivered(seen[..|seen| - 1]) + if last.Got? && last.message.Request? then |last.message.body| else 0
  }

  lemma {:induction false} DeliveredWithin(source: seq<Message>, maxBytes: nat, seen: seq<Received>)
    requires InOrder(source, maxBytes, seen)
    ensures Delivered(seen) <= maxBytes
    ensures |seen| <= |source| ==> Delivered(seen) <= TotalUpTo(source, |seen|)
  {
    if seen != [] {
      DeliveredWithin(source, maxBytes, seen[..|seen| - 1]);
    }
  }

  /** The app never gets more than `maxBytes` of body, however the request is chunked, whatever
      length it declares, and even if the app swallows the exception and reads on. */
  lemma NeverMoreThanTheLimit(source: seq<Message>, maxBytes: nat, declared: Declared, audited: bool,
                              script: seq<Action>, ending: Ending)
    ensures Delivered(Served(source, maxBytes, declared, audited, script, ending).seen) <= maxBytes
  {
    var seen := Served(source, maxBytes, declared, audited, script, ending).seen;
    ServedInOrder(source, maxBytes, declared, audited, script, ending);
    DeliveredWithin(source, maxBytes, seen);
  }

  // ----- what the client is sent -----

  function Starts(sent: seq<Out>): nat {
    if sent == [] then 0 else (if sent[0].ResponseStart? then 1 else 0) + Starts(sent[1..])
  }

  function StartsIn(script: seq<Action>): nat {
    if script == [] then 0
    else (if script[0].Send? && script[0].out.ResponseStart? then 1 else 0) + StartsIn(script[1..])
  }

  lemma {:induction false} StartsPlayed(source: seq<Message>, maxBytes: int, cursor: nat, script: seq<Action>)
    requires cursor <= |source|
    ensures Starts(PlayFrom(source, maxBytes, cursor, script).sent) <= StartsIn(script)
    decreases |script|
  {
    if script != [] {
      match script[0]
      case Send(out) =>
        var rest := PlayFrom(source, maxBytes, cursor, script[1..]).sent;
        assert ([out] + rest)[1..] == rest;
        StartsPlayed(source, maxBytes, cursor, script[1..]);
      case Receive =>
        if cursor < |source| { StartsPlayed(source, maxBytes, cursor + 1, script[1..]); }
    }
  }

  lemma {:induction false} StartsAppend(sent: seq<Out>, more: seq<Out>)
    ensures Starts(sent + more) == Starts(sent) + Starts(more)
    ensures Starts(sent) == 0 <==> !Started(sent)
  {
    if sent == [] {
      assert sent + more == more;
    } else {
      assert (sent + more)[1..] == sent[1..] + more;
      StartsAppend(sent[1..], more);
      if i :| 0 <= i < |sent| && sent[i].ResponseStart? {
        if i > 0 { assert sent[1..][i - 1].ResponseStart?; }
      }
      if j :| 0 <= j < |sent[1..]| && sent[1..][j].ResponseStart? { assert sent[j + 1].ResponseStart?; }
    }
  }

  /** At most one response is begun, provided the app itself begins at most one; an escaped
      rejection is answered with 413 exactly when the app had begun none. */
  lemma AtMostOneStart(source: seq<Message>, maxBytes: int, declared: Declared, audited: bool,
                       script: seq<Action>, ending: Ending)
    requires StartsIn(script) <= 1
    ensures Starts(Served(source, maxBytes, declared, audited, script, ending).sent) <= 1
    ensures var seen := Served(source, maxBytes, declared, audited, script, ending).seen;
            ending == LetsEscape && TooLarge in seen && Waiting !in seen ==>
            Starts(Served(source, maxBytes, declared, audited, script, ending).sent) == 1
  {
    var played := PlayFrom(source, maxBytes, 0, script);
    StartsPlayed(source, maxBytes, 0, script);
    StartsAppend(played.sent, REJECTION);
    assert Starts(REJECTION) == 1 by {
      assert REJECTION[1..][1..] == [];
      assert Starts(REJECTION[1..]) == 0;
    }
  }

  // ----- the whole exchange, in literals -----

  /** Exactly the two messages of a 413 (section 15.5.14 of RFC 9110). */
  ghost predicate Is413(sent: seq<Out>) {
    && |sent| == 2 && sent[0] == ResponseStart(413)
    && sent[1]
       == ResponseBody("{\"error\": {\"code\": \"payload_too_large\", \"message\": \"Request body too large.\"}}")
  }

  lemma {:induction false} BodiesInOrder(x: seq<Message>, y: seq<Message>)
    ensures Bodies(x + y) == Bodies(x) + Bodies(y)
    decreases |y|
  {
    if y == [] {
      assert x + y == x;
    } else {
      assert (x + y)[..|x + y| - 1] == x + y[..|y| - 1];
      BodiesInOrder(x, y[..|y| - 1]);
    }
  }

  lemma BodyOfOne(m: Message)
    ensures Bodies([m]) == if m.Request? then m.body else []
  {
    assert [m][..0] == [];
  }

  /** The first `n` messages bring more body than allowed, the last of them included. */
  ghost predicate Over(source: seq<Message>, maxBytes: int, k: nat)
    requires k < |source|
  {
    source[k].Request? && |Bodies(source[..k + 1])| > maxBytes
  }

  /** Reading up to this message gives the buffer all it wants: the end of the body, a disconnect, or
      more than it would keep. */
  ghost predicate Enough(source: seq<Message>, k: nat)
    requires k < |source|
  {
    source[k] == Disconnect || !source[k].moreBody || |Bodies(source[..k + 1])| > 64_000
  }

  ghost predicate OverBeforeEnough(source: seq<Message>, maxBytes: int, k: nat) {
    && k < |source| && Over(source, maxBytes, k)
    && forall j | 0 <= j < k :: !Over(source, maxBytes, j) && !Enough(source, j)
  }

  ghost predicate NeverEnough(source: seq<Message>, maxBytes: int) {
    forall j | 0 <= j < |source| :: !Over(source, maxBytes, j) && !Enough(source, j)
  }

  lemma OverIs(source: seq<Message>, maxBytes: int, k: nat)
    requires k < |source|
    ensures Over(source, maxBytes, k) <==> Outcome(source, maxBytes, k) == TooLarge
    ensures Enough(source, k) <==> StopsAt(source, MAX_REQUEST_PEEK, 0, k)
  {
    BodiesSize(source, 0, k + 1);
    assert Read(source, 0, k + 1) == source[..k + 1];
  }

  /** How buffering ends, by the first message that is too much or enough. */
  lemma BufferingEnds(source: seq<Message>, maxBytes: int)
    ensures var end := BufferEndFrom(source, maxBytes, MAX_REQUEST_PEEK, 0, 0);
            && (end == Rejected <==> exists k :: OverBeforeEnough(source, maxBytes, k))
            && (end == Blocked <==> NeverEnough(source, maxBytes))
            && (BufferedBy(source, 0, end) == RaisedTooLarge <==> exists k :: OverBeforeEnough(source, maxBytes, k))
            && (BufferedBy(source, 0, end) == StillWaiting <==> NeverEnough(source, maxBytes))
  {
    RejectedMeaning(source, maxBytes, MAX_REQUEST_PEEK, 0);
    BlockedMeaning(source, maxBytes, MAX_REQUEST_PEEK, 0);
    forall k | 0 <= k < |source| { OverIs(source, maxBytes, k); }
    hide Over, Enough, Outcome, StopsAt, BufferEndFrom;
    if k :| RefusedWhileBuffering(source, maxBytes, MAX_REQUEST_PEEK, 0, k) {
      assert OverBeforeEnough(source, maxBytes, k);
    }
    if k :| OverBeforeEnough(source, maxBytes, k) {
      assert RefusedWhileBuffering(source, maxBytes, MAX_REQUEST_PEEK, 0, k);
    }
  }

  lemma {:induction false} BlockedMeaning(source: seq<Message>, maxBytes: int, cap: int, from: nat)
    requires from <= |source|
    ensures BufferEndFrom(source, maxBytes, cap, 0, from) == Blocked <==>
            forall j | from <= j < |source| :: Outcome(source, maxBytes, j) != TooLarge && !StopsAt(source, cap, 0, j)
    decreases |source| - from
  {
    if from < |source| {
      BlockedMeaning(source, maxBytes, cap, from + 1);
    }
  }

  function Outs(script: seq<Action>): seq<Out> {
    if script == [] then [] else (if script[0].Send? then [script[0].out] else []) + Outs(script[1..])
  }

  function Receives(script: seq<Action>): nat {
    if script == [] then 0 else (if script[0].Receive? then 1 else 0) + Receives(script[1..])
  }

  /** The app did all of its script, or everything up to a receive that waits for ever. */
  ghost predicate Performed(script: seq<Action>, n: nat, seen: seq<Received>) {
    && n <= |script| && |seen| == Receives(script[..n])
    && (forall i | 0 <= i < |seen| - 1 :: seen[i] != Waiting)
    && if seen != [] && seen[|seen| - 1] == Waiting then n > 0 && script[n - 1] == Receive else n == |script|
  }

  lemma {:induction false} PlayPerforms(source: seq<Message>, maxBytes: int, cursor: nat, script: seq<Action>)
      returns (n: nat)
    requires cursor <= |source|
    ensures var x := PlayFrom(source, maxBytes, cursor, script);
            Performed(script, n, x.seen) && x.sent == Outs(script[..n])
    decreases |script|
  {
    if script == [] {
      n := 0;
    } else if script[0] == Receive && cursor == |source| {
      n := 1;
      assert script[..1][1..] == [];
    } else {
      var next := if script[0] == Receive then cursor + 1 else cursor;
      n := PlayPerforms(source, maxBytes, next, script[1..]);
      var seen := PlayFrom(source, maxBytes, next, script[1..]).seen;
      PerformedMore(script, n, seen, ReceiveAt(source, maxBytes, cursor));
      n := n + 1;
    }
  }

  lemma PerformedMore(script: seq<Action>, n: nat, seen: seq<Received>, r: Received)
    requires script != [] && Performed(script[1..], n, seen)
    ensures script[..n + 1][1..] == script[1..][..n] && script[..n + 1][0] == script[0]
    ensures script[0] != Receive ==> Performed(script, n + 1, seen)
    ensures script[0] == Receive && r != Waiting ==> Performed(script, n + 1, [r] + seen)
  {
    var more := [r] + seen;
    assert script[..n + 1][1..] == script[1..][..n];
    assert more[|more| - 1] == if seen == [] then r else seen[|seen| - 1];
    assert forall i | 0 < i < |more| :: more[i] == seen[i - 1];
  }

  /** A request is refused before the app runs when its declared length is over the limit, or when the
      body passes the limit while it is buffered: nothing is read and the 413 is sent. It waits, with
      nothing sent, while the buffer wants more than the client has sent. Otherwise the app runs its
      script, and what it sends is sent, followed by the 413 when it lets the rejection escape before
      its response has begun. */
  lemma WhatIsSent(source: seq<Message>, maxBytes: int, declared: Declared, audited: bool,
                   script: seq<Action>, ending: Ending)
    ensures var x := Served(source, maxBytes, declared, audited, script, ending);
            if (declared.Length? && declared.value > maxBytes)
               || (audited && exists k :: OverBeforeEnough(source, maxBytes, k)) then x.seen == [] && Is413(x.sent)
            else if audited && NeverEnough(source, maxBytes) then x == Exchange([], [])
            else exists n: nat ::
              && Performed(script, n, x.seen)
              && Outs(script[..n]) <= x.sent
              && if ending == LetsEscape && TooLarge in x.seen && Waiting !in x.seen
                    && (forall i | 0 <= i < |Outs(script[..n])| :: !Outs(script[..n])[i].ResponseStart?)
                 then Is413(x.sent[|Outs(script[..n])|..])
                 else x.sent == Outs(script[..n])
  {
    BufferingEnds(source, maxBytes);
    var n := PlayPerforms(source, maxBytes, 0, script);
    var outs := Outs(script[..n]);
    assert (outs + REJECTION)[|outs|..] == REJECTION;
    hide BufferEndFrom, PlayFrom, Performed, Outs, OverBeforeEnough, NeverEnough;
  }

  // ----- the declared length -----

  lemma HonestTotal(source: seq<Message>, maxBytes: int, k: nat)
    requires k < |source| && TotalUpTo(source, |source|) <= maxBytes
    ensures Outcome(source, maxBytes, k) == Got(source[k])
  {
    TotalGrows(source, k + 1, |source|);
  }

  lemma {:induction false} NeverRejected(source: seq<Message>, maxBytes: int, cap: int, i: nat)
    requires i <= |source| && TotalUpTo(source, |source|) <= maxBytes
    ensures BufferEndFrom(source, maxBytes, cap, 0, i) != Rejected
    decreases |source| - i
  {
    if i < |source| {
      HonestTotal(source, maxBytes, i);
      NeverRejected(source, maxBytes, cap, i + 1);
    }
  }

  /** With a truthful `Content-Length` the header alone decides: a body within the limit is never
      refused, wherever it is read, and one over it gets the 413 with nothing read. */
  lemma HonestLengthDecides(source: seq<Message>, maxBytes: int, audited: bool, script: seq<Action>, ending: Ending)
    ensures var total := |Bodies(source)|;
            var x := Served(source, maxBytes, Length(total), audited, script, ending);
            if total > maxBytes then x.seen == [] && Is413(x.sent)
            else
              && TooLarge !in x.seen
              && (x == PlayFrom(source, maxBytes, 0, script)
                  || (audited && NeverEnough(source, maxBytes) && x == Exchange([], [])))
  {
    var seen := PlayFrom(source, maxBytes, 0, script).seen;
    BodiesSize(source, 0, |source|);
    assert Read(source, 0, |source|) == source;
    if TotalUpTo(source, |source|) <= maxBytes {
      NeverRejected(source, maxBytes, MAX_REQUEST_PEEK, 0);
      BufferingEnds(source, maxBytes);
      PlayedInOrder(source, maxBytes, 0, script);
      forall k | 0 <= k < |seen| ensures seen[k] != TooLarge {
        if k < |source| { HonestTotal(source, maxBytes, k); }
      }
    }
  }

  // ----- the audit copy -----

  /** Buffering changes nothing an app can observe, unless the limit is passed before buffering would
      have stopped, or the client never sends enough to stop it. */
  lemma BufferingIsTransparent(source: seq<Message>, maxBytes: int, declared: Declared,
                               script: seq<Action>, ending: Ending)
    requires !(exists k :: OverBeforeEnough(source, maxBytes, k)) && !NeverEnough(source, maxBytes)
    ensures Served(source, maxBytes, declared, true, script, ending)
         == Served(source, maxBytes, declared, false, script, ending)
  {
    BufferingEnds(source, maxBytes);
  }

  ghost predicate RefusedWhileBuffering(source: seq<Message>, maxBytes: int, cap: int, from: nat, k: nat) {
    && from <= k < |source|
    && Outcome(source, maxBytes, k) == TooLarge
    && (forall j | from <= j < k :: Outcome(source, maxBytes, j) != TooLarge && !StopsAt(source, cap, 0, j))
  }

  lemma {:induction false} RejectedMeaning(source: seq<Message>, maxBytes: int, cap: int, from: nat)
    requires from <= |source|
    ensures BufferEndFrom(source, maxBytes, cap, 0, from) == Rejected <==>
            exists k :: RefusedWhileBuffering(source, maxBytes, cap, from, k)
    decreases |source| - from
  {
    if from < |source| {
      if Outcome(source, maxBytes, from) == TooLarge {
        assert RefusedWhileBuffering(source, maxBytes, cap, from, from);
      } else if !StopsAt(source, cap, 0, from) {
        var next := from + 1;
        RejectedMeaning(source, maxBytes, cap, next);
        if k :| RefusedWhileBuffering(source, maxBytes, cap, next, k) {
          assert RefusedWhileBuffering(source, maxBytes, cap, from, k);
        }
        if k :| RefusedWhileBuffering(source, maxBytes, cap, from, k) {
          assert RefusedWhileBuffering(source, maxBytes, cap, next, k);
        }
      }
    }
  }

  /** Whether the whole body has been read by message `end`. */
  predicate WholeBody(source: seq<Message>, end: nat)
    requires 0 < end <= |source|
  {
    source[end - 1].Request? && !source[end - 1].moreBody
  }

  /** What is buffered is what was read, and a copy small enough for the audit diff is the whole body, or
      the client disconnected before finishing it; it is never one the peek cap cut short. */
  lemma AuditBodyNotTruncated(source: seq<Message>, maxBytes: int, cap: int, first: nat)
    requires first <= |source| && BufferEndFrom(source, maxBytes, cap, first, first).Complete?
    ensures var end := BufferEndFrom(source, maxBytes, cap, first, first).end;
            && first < end <= |source|
            && BufferedBy(source, first, Complete(end)) == Buffered(Bodies(source[first..end]), source[first..end])
            && (|Bodies(source[first..end])| <= cap ==> (WholeBody(source, end) <==> source[end - 1] != Disconnect))
            && (forall k | first < k < end :: |Bodies(source[first..k])| <= cap && !WholeBody(source, k))
  {
    BufferEndMeaning(source, maxBytes, cap, first, first);
    var end := BufferEndFrom(source, maxBytes, cap, first, first).end;
    BodiesSize(source, first, end);
    forall k | first < k < end ensures |Bodies(source[first..k])| <= cap && !WholeBody(source, k) {
      BodiesSize(source, first, k);
      assert !StopsAt(source, cap, first, k - 1);
    }
  }

  /** Any part of a body, such as the object `{"a":1}`, that the client sends before disconnecting is
      returned as the copy, although it is not the whole body. */
  lemma DisconnectLeavesUnfinishedCopy(part: Bytes, maxBytes: int, cap: int)
    requires |part| <= maxBytes && |part| <= cap
    ensures var source := [Request(part, true), Disconnect];
            && BufferEndFrom(source, maxBytes, cap, 0, 0) == Complete(2)
            && BufferedBy(source, 0, Complete(2)) == Buffered(part, source)
            && !WholeBody(source, 2)
  {
    var source := [Request(part, true), Disconnect];
    assert TotalUpTo(source, 0) == 0 && TotalUpTo(source, 1) == |part|;
    assert !StopsAt(source, cap, 0, 0) && StopsAt(source, cap, 0, 1);
    assert Read(source, 0, 0) == [] && Bodies([]) == [];
    hide TotalUpTo, StopsAt, Bodies, Read;
    assert BufferEndFrom(source, maxBytes, cap, 0, 1) == Complete(2);
    BodiesAppend(source, 0, 0);
    BodiesAppend(source, 0, 1);
    assert [] + part == part && part + [] == part;
  }
}
