/** The cached dashboard of one client: builds as interleaved steps that switch only
    where the code awaits, over one snapshot row, one build lock and the decision history. */
module DashboardCache {
  import opened Wrappers
  import opened Decisions

  const SNAPSHOT_MAX_AGE_HOURS := 24.0

  /** One recommendation and the decision shown on it. A reply of the model is parsed with this
      whole schema, so it may bring a decision along that nobody recorded. */
  datatype Rec = Rec(id: string, decision: Option<Action>)

  datatype Response = Response(content: string, recs: seq<Rec>)

  /** The cached row, with the time its generation started. */
  datatype Snapshot = Snapshot(payload: Response, inputsHash: string, computedAt: real, startedAt: real)

  /** Where a build stands. `holdsLock` is false for a forced build. `seen` counts the
      decisions recorded when the draft was merged. */
  datatype Build =
    | Waiting(hash: string)
    | Drafting(hash: string, holdsLock: bool, startedAt: real)
    | Reviewing(hash: string, holdsLock: bool, startedAt: real, draft: Response, seen: nat)
    | Ended

  /** What has been stored and what has been served from the cache, in order. */
  datatype Entry =
    | Stored(snapshot: Snapshot)
    | Served(hash: string, at: real, response: Response, shown: seq<Action>)
    | Returned(response: Response, shown: seq<Action>)

  datatype State = State(
    now: real,
    snapshot: Option<Snapshot>,
    lockHolder: Option<nat>,
    builds: map<nat, Build>,
    history: seq<Action>,
    log: seq<Entry>)

  datatype Step =
    | Tick(hours: real)
    | Decide(recKey: string, decision: Decision, reason: string, at: real)
    | Start(id: nat, hash: string, force: bool)
    | AcquireLock(id: nat)
    | DraftArrives(id: nat, content: string, recs: seq<Rec>)
    | ReviewArrives(id: nat)
    | Fail(id: nat)

  function MergeDecisions(history: seq<Action>, recs: seq<Rec>): (r: seq<Rec>)
    ensures |r| == |recs|
  {
    seq(|recs|, i requires 0 <= i < |recs| =>
      var action := Latest(history, recs[i].id);
      if action.Some? then recs[i].(decision := action) else recs[i])
  }

  /** A snapshot usable for these inputs now. */
  predicate Fresh(s: State, hash: string) {
    && s.snapshot.Some?
    && s.snapshot.value.inputsHash == hash
    && s.now - s.snapshot.value.computedAt <= SNAPSHOT_MAX_AGE_HOURS
  }

  function Serve(s: State, id: nat, hash: string): State
    requires s.snapshot.Some?
  {
    var payload := s.snapshot.value.payload;
    var response := payload.(recs := MergeDecisions(s.history, payload.recs));
    s.(builds := s.builds[id := Ended], log := s.log + [Served(hash, s.now, response, s.history)])
  }

  /** The second check, made once the lock is held. */
  function Recheck(s: State, id: nat, hash: string): State {
    if Fresh(s, hash) then Serve(s, id, hash)
    else s.(lockHolder := Some(id), builds := s.builds[id := Drafting(hash, true, s.now)])
  }

  function Release(s: State, holdsLock: bool): State {
    if holdsLock then s.(lockHolder := None) else s
  }

  /** One atomic step. A step that cannot happen leaves the state as it is. */
  function Next(s: State, step: Step): State {
    match step
    case Tick(hours) => if hours >= 0.0 then s.(now := s.now + hours) else s
    case Decide(recKey, decision, reason, at) =>
      if at > s.now
         || (exists i :: 0 <= i < |s.history| && s.history[i].recKey == recKey && s.history[i].createdAt == at)
      then s
      else s.(history := s.history + [Action(recKey, decision, reason, at)])
    case Start(id, hash, force) =>
      if id in s.builds then s
      else if force then s.(builds := s.builds[id := Drafting(hash, false, s.now)])
      else if Fresh(s, hash) then Serve(s, id, hash)
      else if s.lockHolder == None then Recheck(s, id, hash)
      else s.(builds := s.builds[id := Waiting(hash)])
    case AcquireLock(id) =>
      if id in s.builds && s.builds[id].Waiting? && s.lockHolder == None then Recheck(s, id, s.builds[id].hash) else s
    case DraftArrives(id, content, recs) =>
      if id in s.builds && s.builds[id].Drafting? then
        var b := s.builds[id];
        var draft := Response(content, MergeDecisions(s.history, recs));
        s.(builds := s.builds[id := Reviewing(b.hash, b.holdsLock, b.startedAt, draft, |s.history|)])
      else s
    case ReviewArrives(id) =>
      if id in s.builds && s.builds[id].Reviewing? then
        var b := s.builds[id];
        var snapshot := Snapshot(b.draft, b.hash, s.now, b.startedAt);
        Release(s.(snapshot := Some(snapshot), builds := s.builds[id := Ended],
                   log := s.log + [Stored(snapshot), Returned(b.draft, s.history)]), b.holdsLock)
      else s
    case Fail(id) =>
      if id in s.builds && (s.builds[id].Drafting? || s.builds[id].Reviewing?) then
        Release(s.(builds := s.builds[id := Ended]), s.builds[id].holdsLock)
      else s
  }

  function Run(s: State, steps: seq<Step>): State
    decreases |steps|
  {
    if steps == [] then s else Run(Next(s, steps[0]), steps[1..])
  }

  function Initial(now: real): State {
    State(now, None, None, map[], [], [])
  }

  // ----- what every step keeps -----

  /** The recommendations show exactly the current decisions of this history. */
  ghost predicate ShowsCurrent(recs: seq<Rec>, history: seq<Action>) {
    forall i | 0 <= i < |recs| :: recs[i].decision == Latest(history, recs[i].id)
  }

  /** Every decision shown is on a recommendation that has a recorded one. */
  ghost predicate ShowsOnlyRecorded(recs: seq<Rec>, history: seq<Action>) {
    forall i | 0 <= i < |recs| :: recs[i].decision.Some? ==> Latest(history, recs[i].id).Some?
  }

  /** Every recommendation that has a recorded decision shows its current one. */
  ghost predicate Merged(recs: seq<Rec>, history: seq<Action>) {
    forall i | 0 <= i < |recs| && Latest(history, recs[i].id).Some? :: recs[i].decision == Latest(history, recs[i].id)
  }

  /** Exactly the build that holds the lock is a non-forced build under way. */
  ghost predicate Locked(s: State) {
    forall id :: s.lockHolder == Some(id) <==>
      id in s.builds && (s.builds[id].Drafting? || s.builds[id].Reviewing?) && s.builds[id].holdsLock
  }

  ghost predicate HistoryUpToNow(s: State) {
    DistinctTimes(s.history) && forall i | 0 <= i < |s.history| :: s.history[i].createdAt <= s.now
  }

  /** A draft shows what was current when it was merged. */
  ghost predicate DraftsMerged(s: State) {
    forall id | id in s.builds && s.builds[id].Reviewing? ::
      s.builds[id].seen <= |s.history| && Merged(s.builds[id].draft.recs, s.history[..s.builds[id].seen])
  }

  /** The row is the last one stored, and is never newer than the clock. */
  ghost predicate SnapshotStored(s: State) {
    s.snapshot.Some? ==> Stored(s.snapshot.value) in s.log && s.snapshot.value.computedAt <= s.now
  }

  /** Every cache-served response comes from one generation stored before. */
  ghost predicate ServedWell(log: seq<Entry>, k: nat)
    requires k < |log| && log[k].Served?
  {
    exists i :: 0 <= i < k && log[i].Stored? && ServedFrom(log[k], log[i].snapshot)
  }

  /** Its content, made under an equal hash at most 24 hours earlier, with each recommendation's
      current decision if it has one, and otherwise what was stored. */
  ghost predicate ServedFrom(e: Entry, from: Snapshot)
    requires e.Served?
  {
    && from.inputsHash == e.hash
    && 0.0 <= e.at - from.computedAt <= 24.0
    && from.payload.content == e.response.content
    && |from.payload.recs| == |e.response.recs|
    && (forall j | 0 <= j < |e.response.recs| :: ServedRec(e.response.recs[j], from.payload.recs[j], e.shown))
  }

  ghost predicate ServedRec(rec: Rec, stored: Rec, history: seq<Action>) {
    && rec.id == stored.id
    && rec.decision == if Latest(history, rec.id).Some? then Latest(history, rec.id) else stored.decision
  }

  ghost predicate AllServedWell(log: seq<Entry>) {
    forall k | 0 <= k < |log| && log[k].Served? :: ServedWell(log, k)
  }

  ghost predicate Invariant(s: State) {
    Locked(s) && HistoryUpToNow(s) && DraftsMerged(s) && SnapshotStored(s) && AllServedWell(s.log)
  }

  // ----- decisions -----

  lemma LatestAppended(history: seq<Action>, a: Action, key: string)
    ensures Latest(history + [a], key)
         == if a.recKey == key && Newer(a, Latest(history, key)) then Some(a) else Latest(history, key)
  {
    assert (history + [a])[..|history|] == history;
  }

  lemma OnlyRecordedLater(recs: seq<Rec>, history: seq<Action>, a: Action)
    requires ShowsOnlyRecorded(recs, history)
    ensures ShowsOnlyRecorded(recs, history + [a])
  {
    forall i | 0 <= i < |recs| && recs[i].decision.Some? ensures Latest(history + [a], recs[i].id).Some? {
      LatestAppended(history, a, recs[i].id);
    }
  }

  /** Merging shows exactly the current decisions when, and only when, no recommendation without a
      recorded decision already carries one. */
  lemma MergeShowsCurrentIff(history: seq<Action>, recs: seq<Rec>)
    ensures ShowsCurrent(MergeDecisions(history, recs), history) <==> ShowsOnlyRecorded(recs, history)
    ensures Merged(MergeDecisions(history, recs), history)
  {
    var merged := MergeDecisions(history, recs);
    if ShowsCurrent(merged, history) {
      forall i | 0 <= i < |recs| && recs[i].decision.Some? ensures Latest(history, recs[i].id).Some? {
        assert merged[i].decision == Latest(history, merged[i].id);
      }
    }
  }

  // ----- preservation -----

  lemma LogExtended(log: seq<Entry>, more: seq<Entry>)
    requires AllServedWell(log)
    requires forall k | |log| <= k < |log + more| && (log + more)[k].Served? :: ServedWell(log + more, k)
    ensures AllServedWell(log + more)
  {
    var l := log + more;
    forall k | 0 <= k < |l| && l[k].Served? ensures ServedWell(l, k) {
      if k < |log| {
        assert l[k] == log[k] && ServedWell(log, k);
        var i :| 0 <= i < k && log[i].Stored? && ServedFrom(log[k], log[i].snapshot);
        assert l[i] == log[i];
      }
    }
  }

  lemma ServeKeeps(s: State, id: nat, hash: string)
    requires Invariant(s) && Fresh(s, hash) && !(s.lockHolder == Some(id))
    requires id in s.builds ==> !s.builds[id].Drafting? && !s.builds[id].Reviewing?
    ensures Invariant(Serve(s, id, hash))
  {
    var s' := Serve(s, id, hash);
    var snap := s.snapshot.value;
    var i :| 0 <= i < |s.log| && s.log[i] == Stored(snap);
    var entry := s'.log[|s.log|];
    assert ServedFrom(entry, s'.log[i].snapshot);
    assert ServedWell(s'.log, |s.log|);
    LogExtended(s.log, [entry]);
    assert Stored(snap) in s'.log;
  }

  lemma StartKeeps(s: State, id: nat, hash: string, force: bool)
    requires Invariant(s)
    ensures Invariant(Next(s, Start(id, hash, force)))
  {
    if id !in s.builds && !force && Fresh(s, hash) {
      ServeKeeps(s, id, hash);
    }
  }

  lemma AcquireKeeps(s: State, id: nat)
    requires Invariant(s)
    ensures Invariant(Next(s, AcquireLock(id)))
  {
    if id in s.builds && s.builds[id].Waiting? && s.lockHolder == None && Fresh(s, s.builds[id].hash) {
      ServeKeeps(s, id, s.builds[id].hash);
    }
  }

  lemma DecideKeeps(s: State, recKey: string, decision: Decision, reason: string, at: real)
    requires Invariant(s)
    ensures Invariant(Next(s, Decide(recKey, decision, reason, at)))
  {
    var s' := Next(s, Decide(recKey, decision, reason, at));
    if s' != s {
      hide Merged, AllServedWell;
      forall id | id in s'.builds && s'.builds[id].Reviewing?
        ensures s'.builds[id].seen <= |s'.history|
        ensures Merged(s'.builds[id].draft.recs, s'.history[..s'.builds[id].seen])
      {
        assert s'.history[..s'.builds[id].seen] == s.history[..s.builds[id].seen];
      }
    }
  }

  lemma DraftKeeps(s: State, id: nat, content: string, recs: seq<Rec>)
    requires Invariant(s)
    ensures Invariant(Next(s, DraftArrives(id, content, recs)))
  {
    MergeShowsCurrentIff(s.history, recs);
    assert s.history[..|s.history|] == s.history;
  }

  lemma ReviewKeeps(s: State, id: nat)
    requires Invariant(s)
    ensures Invariant(Next(s, ReviewArrives(id)))
  {
    var s' := Next(s, ReviewArrives(id));
    if s' != s {
      LogExtended(s.log, s'.log[|s.log|..]);
      assert s'.log == s.log + s'.log[|s.log|..];
      assert s'.log[|s.log|] == Stored(s'.snapshot.value);
    }
  }

  lemma {:induction false} RunKeeps(s: State, steps: seq<Step>)
    requires Invariant(s)
    ensures Invariant(Run(s, steps))
    decreases |steps|
  {
    if steps != [] {
      StepKeeps(s, steps[0]);
      RunKeeps(Next(s, steps[0]), steps[1..]);
    }
  }

  lemma StepKeeps(s: State, step: Step)
    requires Invariant(s)
    ensures Invariant(Next(s, step))
  {
    match step
    case Tick(_) =>
    case Decide(recKey, decision, reason, at) => DecideKeeps(s, recKey, decision, reason, at);
    case Start(id, hash, force) => StartKeeps(s, id, hash, force);
    case AcquireLock(id) => AcquireKeeps(s, id);
    case DraftArrives(id, content, recs) => DraftKeeps(s, id, content, recs);
    case ReviewArrives(id) => ReviewKeeps(s, id);
    case Fail(_) =>
  }
}
