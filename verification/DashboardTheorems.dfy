/** What the dashboard cache guarantees over every interleaving. */
module DashboardTheorems {
  import opened Wrappers
  import opened Decisions
  import opened DashboardCache

  lemma RunFromStart(now: real, steps: seq<Step>)
    ensures Invariant(Run(Initial(now), steps))
  {
    RunKeeps(Initial(now), steps);
  }

  /** Under any interleaving of forced and ordinary builds with any inputs, replies, failures,
      decisions and passing time, every cache-served response has the content of a single
      earlier generation, made under an equal hash at most 24 hours before, and shows the
      current decision of every recommendation that has one. It shows exactly the current
      decisions when, and only when, the stored payload has none on any other recommendation. */
  lemma EveryServedResponse(now: real, steps: seq<Step>, k: nat)
    requires k < |Run(Initial(now), steps).log| && Run(Initial(now), steps).log[k].Served?
    ensures var log := Run(Initial(now), steps).log;
      && Merged(log[k].response.recs, log[k].shown)
      && exists i :: 0 <= i < k && log[i].Stored? && ServedFrom(log[k], log[i].snapshot)
           && (ShowsCurrent(log[k].response.recs, log[k].shown)
               <==> ShowsOnlyRecorded(log[i].snapshot.payload.recs, log[k].shown))
  {
    RunFromStart(now, steps);
    var log := Run(Initial(now), steps).log;
    assert ServedWell(log, k);
    var i :| 0 <= i < k && log[i].Stored? && ServedFrom(log[k], log[i].snapshot);
    ServedCurrentIff(log[k], log[i].snapshot);
  }

  lemma ServedCurrentIff(e: Entry, from: Snapshot)
    requires e.Served? && ServedFrom(e, from)
    ensures Merged(e.response.recs, e.shown)
    ensures ShowsCurrent(e.response.recs, e.shown) <==> ShowsOnlyRecorded(from.payload.recs, e.shown)
  {
    var recs, stored := e.response.recs, from.payload.recs;
    forall j | 0 <= j < |recs|
      ensures recs[j].decision == Latest(e.shown, recs[j].id)
         <==> (stored[j].decision.Some? ==> Latest(e.shown, stored[j].id).Some?)
    {
      assert ServedRec(recs[j], stored[j], e.shown);
    }
    if ShowsCurrent(recs, e.shown) {
      forall j | 0 <= j < |stored| && stored[j].decision.Some? ensures Latest(e.shown, stored[j].id).Some? {
        assert recs[j].decision == Latest(e.shown, recs[j].id);
      }
    }
    if ShowsOnlyRecorded(stored, e.shown) {
      forall j | 0 <= j < |recs| ensures recs[j].decision == Latest(e.shown, recs[j].id) {
        assert stored[j].decision.Some? ==> Latest(e.shown, stored[j].id).Some?;
      }
    }
  }

  /** The replies of the model bring no decisions along. */
  ghost predicate PlainReplies(steps: seq<Step>) {
    forall n, i | 0 <= n < |steps| && steps[n].DraftArrives? && 0 <= i < |steps[n].recs| ::
      steps[n].recs[i].decision == None
  }

  /** Nothing on its way to the client shows a decision nobody recorded. */
  ghost predicate NothingInvented(s: State) {
    && (forall id | id in s.builds && s.builds[id].Reviewing? :: ShowsOnlyRecorded(s.builds[id].draft.recs, s.history))
    && (s.snapshot.Some? ==> ShowsOnlyRecorded(s.snapshot.value.payload.recs, s.history))
    && (forall k | 0 <= k < |s.log| && s.log[k].Served? :: ShowsCurrent(s.log[k].response.recs, s.log[k].shown))
  }

  lemma PlainStep(s: State, step: Step)
    requires NothingInvented(s) && PlainReplies([step])
    ensures NothingInvented(Next(s, step))
  {
    match step
    case Decide(_, _, _, _) =>
      var s' := Next(s, step);
      if s' != s {
        var a := s'.history[|s.history|];
        assert s'.history == s.history + [a];
        hide Next, ShowsOnlyRecorded;
        forall recs | ShowsOnlyRecorded(recs, s.history) ensures ShowsOnlyRecorded(recs, s'.history) {
          OnlyRecordedLater(recs, s.history, a);
        }
      }
    case DraftArrives(id, _, recs) =>
      assert [step][0] == step;
      assert ShowsOnlyRecorded(recs, s.history);
      MergeShowsCurrentIff(s.history, recs);
      CurrentIsRecorded(MergeDecisions(s.history, recs), s.history);
    case _ =>
      if s.snapshot.Some? { MergeShowsCurrentIff(s.history, s.snapshot.value.payload.recs); }
      hide MergeDecisions, ShowsOnlyRecorded, ShowsCurrent;
  }

  lemma CurrentIsRecorded(recs: seq<Rec>, history: seq<Action>)
    requires ShowsCurrent(recs, history)
    ensures ShowsOnlyRecorded(recs, history)
  {
  }

  lemma {:induction false} PlainRun(s: State, steps: seq<Step>)
    requires NothingInvented(s) && PlainReplies(steps)
    ensures NothingInvented(Run(s, steps))
    decreases |steps|
  {
    if steps != [] {
      assert PlainReplies([steps[0]]) && PlainReplies(steps[1..]);
      PlainStep(s, steps[0]);
      PlainRun(Next(s, steps[0]), steps[1..]);
    }
  }

  /** If no reply of the model brings a decision along, every cache-served response shows exactly
      the decisions current at the moment it was served. */
  lemma PlainRepliesServeCurrent(now: real, steps: seq<Step>, k: nat)
    requires PlainReplies(steps)
    requires k < |Run(Initial(now), steps).log| && Run(Initial(now), steps).log[k].Served?
    ensures var e := Run(Initial(now), steps).log[k]; ShowsCurrent(e.response.recs, e.shown)
  {
    PlainRun(Initial(now), steps);
  }

  /** Otherwise any decision the model makes up for an undecided recommendation is served from the
      cache, with no decision recorded at all. */
  lemma InventedDecisionIsServed(key: string, invented: Action, content: string, hash: string)
    ensures var steps := [Start(0, hash, false), DraftArrives(0, content, [Rec(key, Some(invented))]),
                          ReviewArrives(0), Start(1, hash, false)];
      var s := Run(Initial(0.0), steps);
      && s.history == [] && |s.log| == 3 && s.log[2].Served?
      && s.log[2].response.recs == [Rec(key, Some(invented))]
      && !ShowsCurrent(s.log[2].response.recs, s.log[2].shown)
  {
    var recs := [Rec(key, Some(invented))];
    var steps := [Start(0, hash, false), DraftArrives(0, content, recs), ReviewArrives(0), Start(1, hash, false)];
    NothingToMerge(recs);
    var s1 := Next(Initial(0.0), steps[0]);
    var s2 := Next(s1, steps[1]);
    var s3 := Next(s2, steps[2]);
    var s4 := Next(s3, steps[3]);
    assert s3.snapshot.Some? && s3.snapshot.value.payload.recs == recs && Fresh(s3, hash);
    assert s4.log[2].response.recs == recs && s4.log[2].shown == [];
    assert recs[0].decision != Latest([], key);
    RunOfFour(Initial(0.0), steps[0], steps[1], steps[2], steps[3]);
    hide Next, Run;
    assert Run(Initial(0.0), steps) == s4;
  }

  lemma RunOfFour(s: State, a: Step, b: Step, c: Step, d: Step)
    ensures Run(s, [a, b, c, d]) == Next(Next(Next(Next(s, a), b), c), d)
  {
    hide Next;
    var s1, s2, s3 := Next(s, a), Next(Next(s, a), b), Next(Next(Next(s, a), b), c);
    assert [a, b, c, d][1..] == [b, c, d] && Run(s, [a, b, c, d]) == Run(s1, [b, c, d]);
    assert [b, c, d][1..] == [c, d] && Run(s1, [b, c, d]) == Run(s2, [c, d]);
    assert [c, d][1..] == [d] && Run(s2, [c, d]) == Run(s3, [d]);
    assert [d][1..] == [];
  }

  lemma NothingToMerge(recs: seq<Rec>)
    ensures MergeDecisions([], recs) == recs
  {
    forall i | 0 <= i < |recs| ensures MergeDecisions([], recs)[i] == recs[i] {
      assert Latest([], recs[i].id) == None;
    }
  }

  /** At most one ordinary generation is under way at any time. */
  lemma OneGenerationAtATime(now: real, steps: seq<Step>, id1: nat, id2: nat)
    requires var b := Run(Initial(now), steps).builds;
      && id1 in b && (b[id1].Drafting? || b[id1].Reviewing?) && b[id1].holdsLock
      && id2 in b && (b[id2].Drafting? || b[id2].Reviewing?) && b[id2].holdsLock
    ensures id1 == id2
  {
    RunFromStart(now, steps);
    var s := Run(Initial(now), steps);
    assert s.lockHolder == Some(id1) && s.lockHolder == Some(id2);
  }

  // ----- one generation per freshness window -----

  /** Every build of the run is ordinary and sees the same inputs. */
  ghost predicate UnchangedInputs(steps: seq<Step>, hash: string) {
    forall i | 0 <= i < |steps| && steps[i].Start? :: steps[i].hash == hash && !steps[i].force
  }

  ghost predicate Running(b: Build) {
    b.Drafting? || b.Reviewing?
  }

  /** A started generation lies more than a freshness window after the row's. */
  ghost predicate StartsLate(s: State) {
    forall id | id in s.builds && Running(s.builds[id]) ::
      && s.builds[id].startedAt <= s.now
      && (s.snapshot.Some? ==> s.builds[id].startedAt - s.snapshot.value.computedAt > 24.0)
  }

  ghost predicate OneHash(s: State, hash: string) {
    && (forall id | id in s.builds && !s.builds[id].Ended? :: s.builds[id].hash == hash)
    && (forall id | id in s.builds && Running(s.builds[id]) :: s.builds[id].holdsLock)
    && (s.snapshot.Some? ==> s.snapshot.value.inputsHash == hash)
  }

  /** The row is the newest generation stored. */
  ghost predicate RowIsNewest(s: State) {
    forall i | 0 <= i < |s.log| && s.log[i].Stored? ::
      s.snapshot.Some? && s.log[i].snapshot.computedAt <= s.snapshot.value.computedAt
  }

  /** Any later generation started more than a window after an earlier one was stored. */
  ghost predicate Apart(log: seq<Entry>) {
    forall i, j | 0 <= i < j < |log| && log[i].Stored? && log[j].Stored? ::
      log[j].snapshot.startedAt - log[i].snapshot.computedAt > 24.0
  }

  ghost predicate WindowInvariant(s: State, hash: string) {
    Invariant(s) && OneHash(s, hash) && StartsLate(s) && RowIsNewest(s) && Apart(s.log)
  }

  lemma WindowStep(s: State, step: Step, hash: string)
    requires WindowInvariant(s, hash) && UnchangedInputs([step], hash)
    ensures WindowInvariant(Next(s, step), hash)
  {
    hide Invariant;
    StepKeeps(s, step);
    match step
    case ReviewArrives(id) => WindowReview(s, id, hash);
    case Start(id, h, force) => assert [step][0] == step;
    case _ =>
  }

  lemma WindowReview(s: State, id: nat, hash: string)
    requires WindowInvariant(s, hash)
    ensures var s' := Next(s, ReviewArrives(id));
      OneHash(s', hash) && StartsLate(s') && RowIsNewest(s') && Apart(s'.log)
  {
  }

  lemma {:induction false} WindowRun(s: State, steps: seq<Step>, hash: string)
    requires WindowInvariant(s, hash) && UnchangedInputs(steps, hash)
    ensures WindowInvariant(Run(s, steps), hash)
    decreases |steps|
  {
    if steps != [] {
      WindowStep(s, steps[0], hash);
      WindowRun(Next(s, steps[0]), steps[1..], hash);
    }
  }

  /** With unchanged inputs and no forced build, of two stored generations the later started more
      than 24 hours after the earlier was stored. */
  lemma OneGenerationPerWindow(now: real, steps: seq<Step>, hash: string, i: nat, j: nat)
    requires UnchangedInputs(steps, hash)
    requires var log := Run(Initial(now), steps).log; i < j < |log| && log[i].Stored? && log[j].Stored?
    ensures var log := Run(Initial(now), steps).log;
      log[j].snapshot.startedAt - log[i].snapshot.computedAt > 24.0
  {
    WindowRun(Initial(now), steps, hash);
  }

  /** The same of every generation under way, whether it will be stored or fail. */
  lemma GenerationStartsLate(now: real, steps: seq<Step>, hash: string, id: nat, i: nat)
    requires UnchangedInputs(steps, hash)
    requires var s := Run(Initial(now), steps);
             && id in s.builds && Running(s.builds[id])
             && i < |s.log| && s.log[i].Stored?
    ensures var s := Run(Initial(now), steps);
      s.builds[id].startedAt - s.log[i].snapshot.computedAt > 24.0
  {
    WindowRun(Initial(now), steps, hash);
  }

  // ----- what a build does -----

  /** An ordinary build looks at the cache: when it starts, and again when it gets the lock. */
  ghost predicate ChecksCache(s: State, step: Step, id: nat, hash: string) {
    || (step == Start(id, hash, false) && id !in s.builds)
    || (step == AcquireLock(id) && id in s.builds && s.builds[id] == Waiting(hash) && s.lockHolder == None)
  }

  ghost predicate RowServes(s: State, hash: string) {
    s.snapshot.Some? && s.snapshot.value.inputsHash == hash && s.now - s.snapshot.value.computedAt <= 24.0
  }

  /** A response comes from the cache exactly when an ordinary build looks and the row has its hash and is
      at most 24 hours old: a forced build never gets one, and no other step brings one about. */
  lemma ServedExactlyWhen(s: State, step: Step)
    ensures (exists e: Entry :: e.Served? && Next(s, step).log == s.log + [e])
       <==> exists id, hash :: ChecksCache(s, step, id, hash) && RowServes(s, hash)
  {
    var log := Next(s, step).log;
    if id, hash :| ChecksCache(s, step, id, hash) && RowServes(s, hash) {
      assert log == s.log + [log[|s.log|]] && log[|s.log|].Served?;
    }
    if e: Entry :| e.Served? && log == s.log + [e] {
      assert log[|s.log|] == e;
      match step
      case Start(id, hash, force) => assert ChecksCache(s, step, id, hash);
      case AcquireLock(id) => assert ChecksCache(s, step, id, s.builds[id].hash);
      case _ =>
    }
  }

  /** A generation begins exactly with a forced build, which takes no lock, or with an ordinary one that
      looks, finds no usable row and the lock free, and takes it. If the lock is taken, it waits. */
  lemma GeneratesExactlyWhen(s: State, step: Step, id: nat, hash: string)
    requires !(id in s.builds && s.builds[id].Drafting?)
    ensures var t := Next(s, step);
      && (id in t.builds && t.builds[id] == Drafting(hash, false, s.now) <==>
            step == Start(id, hash, true) && id !in s.builds)
      && (id in t.builds && t.builds[id] == Drafting(hash, true, s.now) <==>
            ChecksCache(s, step, id, hash) && !RowServes(s, hash) && s.lockHolder == None)
      && (id in t.builds && t.builds[id] == Drafting(hash, true, s.now) ==> t.lockHolder == Some(id))
      && (id in t.builds && t.builds[id] == Waiting(hash) <==>
            if ChecksCache(s, step, id, hash) then !RowServes(s, hash) && s.lockHolder != None
            else id in s.builds && s.builds[id] == Waiting(hash) && !ChecksCache(s, step, id, s.builds[id].hash))
  {
  }

  /** Steps of other builds, decisions and time. */
  ghost predicate LeaveBuild(steps: seq<Step>, id: nat) {
    forall i | 0 <= i < |steps| :: !NamesBuild(steps[i], id)
  }

  predicate NamesBuild(step: Step, id: nat) {
    match step
    case Start(i, _, _) => i == id
    case AcquireLock(i) => i == id
    case DraftArrives(i, _, _) => i == id
    case ReviewArrives(i) => i == id
    case Fail(i) => i == id
    case _ => false
  }

  lemma {:induction false} BuildStays(s: State, steps: seq<Step>, id: nat)
    requires LeaveBuild(steps, id) && id in s.builds
    ensures id in Run(s, steps).builds && Run(s, steps).builds[id] == s.builds[id]
    decreases |steps|
  {
    if steps != [] {
      assert !NamesBuild(steps[0], id) && LeaveBuild(steps[1..], id);
      BuildStays(Next(s, steps[0]), steps[1..], id);
    }
  }

  /** From the start of a generation to its end, with anything of other builds in between: what it drafted
      is stored under its hash and the time of the review, and returned, each recommendation with the
      decision current when the draft arrived, or else the one it came with. The lock it held is free. */
  lemma GenerationStoresItsDraft(s: State, id: nat, hash: string, holdsLock: bool, before: seq<Step>,
                                 content: string, recs: seq<Rec>, between: seq<Step>)
    requires id in s.builds && s.builds[id] == Drafting(hash, holdsLock, s.now)
    requires LeaveBuild(before, id) && LeaveBuild(between, id)
    ensures var drafting := Run(s, before);
      var reviewing := Run(Next(drafting, DraftArrives(id, content, recs)), between);
      var done := Next(reviewing, ReviewArrives(id));
      && done.snapshot.Some?
      && var row := done.snapshot.value;
         && row.inputsHash == hash && row.computedAt == reviewing.now && row.startedAt == s.now
         && done.log == reviewing.log + [Stored(row), Returned(row.payload, reviewing.history)]
         && row.payload.content == content && |row.payload.recs| == |recs|
         && (forall i | 0 <= i < |recs| :: ServedRec(row.payload.recs[i], recs[i], drafting.history))
         && (holdsLock ==> done.lockHolder == None) && done.builds[id] == Ended
  {
    BuildStays(s, before, id);
    var drafting := Run(s, before);
    var drafted := Next(drafting, DraftArrives(id, content, recs));
    BuildStays(drafted, between, id);
  }

  // ----- the response of the generation itself -----

  /** A row among these that is about the key and newer than its decision so far. */
  ghost predicate Superseded(current: Option<Action>, rows: seq<Action>, key: string) {
    exists i :: 0 <= i < |rows| && rows[i].recKey == key && Newer(rows[i], current)
  }

  /** The current decision of a key changes with the rows after `n` exactly when one of
      them supersedes it. */
  lemma {:induction false} LatestSince(history: seq<Action>, n: nat, key: string)
    requires DistinctTimes(history) && n <= |history|
    ensures Latest(history, key) != Latest(history[..n], key)
        <==> Superseded(Latest(history[..n], key), history[n..], key)
    decreases |history|
  {
    if n == |history| {
      assert history[..n] == history && history[n..] == [];
    } else {
      var front, last := history[..|history| - 1], history[|history| - 1];
      LatestSince(front, n, key);
      SupersededAppend(Latest(history[..n], key), front[n..], last, key);
      assert front[..n] == history[..n] && history[n..] == front[n..] + [last];
      LatestIsNewest(history[..n], key);
      LatestIsNewest(front, key);
      var before := Latest(history[..n], key);
      if before.Some? {
        var i :| 0 <= i < n && history[..n][i] == before.value;
        assert front[i] == before.value;
      }
    }
  }

  lemma SupersededAppend(current: Option<Action>, rows: seq<Action>, a: Action, key: string)
    ensures Superseded(current, rows + [a], key)
       <==> Superseded(current, rows, key) || (a.recKey == key && Newer(a, current))
  {
    var more := rows + [a];
    assert more[|rows|] == a;
    if Superseded(current, rows, key) {
      var i :| 0 <= i < |rows| && rows[i].recKey == key && Newer(rows[i], current);
      assert more[i] == rows[i];
    }
  }

  /** Rows of a key whose earlier rows are all about other keys. */
  lemma {:induction false} LatestOfRest(history: seq<Action>, n: nat, key: string)
    requires n <= |history| && Latest(history[..n], key) == None
    ensures Latest(history, key) == Latest(history[n..], key)
    decreases |history|
  {
    if n == |history| {
      assert history[..n] == history && history[n..] == [];
    } else {
      var front := history[..|history| - 1];
      assert front[..n] == history[..n];
      LatestOfRest(front, n, key);
      assert history[n..][..|history[n..]| - 1] == front[n..];
    }
  }

  /** What a draft shows on a recommendation is still current: no decision on it was recorded since
      that supersedes the one it had, and a decision the model made up is the one recorded since. */
  ghost predicate StillCurrent(rec: Rec, history: seq<Action>, seen: nat)
    requires seen <= |history|
  {
    var before := Latest(history[..seen], rec.id);
    if before.None? && rec.decision.Some? then Latest(history[seen..], rec.id) == rec.decision
    else !Superseded(before, history[seen..], rec.id)
  }

  /** The response a generation returns shows the decisions as of its draft, so it is current exactly
      when none of its recommendations was decided during the review, except that a decision the
      model made up is current only if the very same one was recorded meanwhile. */
  lemma GeneratedResponseCurrentIff(now: real, steps: seq<Step>, id: nat)
    requires var s := Run(Initial(now), steps); id in s.builds && s.builds[id].Reviewing?
    ensures var s := Run(Initial(now), steps);
      var b := s.builds[id];
      && b.seen <= |s.history|
      && (ShowsCurrent(b.draft.recs, s.history) <==>
          forall i | 0 <= i < |b.draft.recs| :: StillCurrent(b.draft.recs[i], s.history, b.seen))
  {
    RunFromStart(now, steps);
    var s := Run(Initial(now), steps);
    var b := s.builds[id];
    forall i | 0 <= i < |b.draft.recs|
      ensures b.draft.recs[i].decision == Latest(s.history, b.draft.recs[i].id)
         <==> StillCurrent(b.draft.recs[i], s.history, b.seen)
    {
      CurrentIff(b.draft.recs[i], s.history, b.seen);
    }
    hide StillCurrent, Run, Latest, Invariant;
  }

  lemma CurrentIff(rec: Rec, history: seq<Action>, seen: nat)
    requires seen <= |history| && DistinctTimes(history)
    requires Latest(history[..seen], rec.id).Some? ==> rec.decision == Latest(history[..seen], rec.id)
    ensures rec.decision == Latest(history, rec.id) <==> StillCurrent(rec, history, seen)
  {
    LatestSince(history, seen, rec.id);
    if Latest(history[..seen], rec.id).None? {
      LatestOfRest(history, seen, rec.id);
    }
  }

  /** A decision taken while the review is awaited is missing from the generated response. */
  lemma DecisionDuringReviewIsMissed(key: string, decision: Decision, reason: string, content: string, hash: string)
    ensures var steps := [Start(0, hash, false), DraftArrives(0, content, [Rec(key, None)]),
                          Decide(key, decision, reason, 0.0), ReviewArrives(0)];
      var s := Run(Initial(0.0), steps);
      && |s.log| == 2 && s.log[1].Returned?
      && s.log[1].response.recs == [Rec(key, None)]
      && s.log[1].shown == [Action(key, decision, reason, 0.0)]
      && !ShowsCurrent(s.log[1].response.recs, s.log[1].shown)
  {
    var recs, action := [Rec(key, None)], Action(key, decision, reason, 0.0);
    var steps := [Start(0, hash, false), DraftArrives(0, content, recs), Decide(key, decision, reason, 0.0),
                  ReviewArrives(0)];
    NothingToMerge(recs);
    LatestOfOne(action);
    hide MergeDecisions, Latest;
    var s1 := Next(Initial(0.0), steps[0]);
    var s2 := Next(s1, steps[1]);
    var s3 := Next(s2, steps[2]);
    var s4 := Next(s3, steps[3]);
    assert s3.history == [action];
    assert s4.log[1].response.recs == recs && s4.log[1].shown == [action];
    assert recs[0].decision != Latest([action], key);
    RunOfFour(Initial(0.0), steps[0], steps[1], steps[2], steps[3]);
    hide Next, Run;
    assert Run(Initial(0.0), steps) == s4;
  }

  lemma LatestOfOne(a: Action)
    ensures Latest([a], a.recKey) == Some(a)
  {
    assert [a][..0] == [];
  }
}
