/** How old an answer of the route cache can be, and when an update is seen at once. */
module RouteCacheTheorems {
  import opened Wrappers
  import opened RouteCache

  /** Every lookup answers with the routes as they stood at some moment between 30 seconds before it
      began and its answer, or with the empty map of a load that failed in that time; commits,
      invalidations and other lookups may fall anywhere. */
  lemma EveryAnswerRecent(table: RouteTable, now: real, steps: seq<Step>, t: State, i: nat)
    requires Steps(Start(table, now), steps, t) && i < |t.answers|
    ensures Recent(t, t.answers[i])
    ensures var a := t.answers[i];
            a.snapshot.origin.Read? ==>
              forall c :: c in a.snapshot.routes <==>
                c in t.versions[a.snapshot.origin.version].table
                && t.versions[a.snapshot.origin.version].table[c].isActive
                && t.versions[a.snapshot.origin.version].table[c].modelId.Some?
  {
    RunKeeps(Start(table, now), steps, t);
  }

  /** Even with no invalidation at all, a commit is seen by every lookup that begins more than
      30 seconds after it. */
  lemma EveryCommitSeenInTime(table: RouteTable, now: real, steps: seq<Step>, t: State, i: nat, v: nat)
    requires Steps(Start(table, now), steps, t) && i < |t.answers| && v < |t.versions|
    requires t.answers[i].startedAt > t.versions[v].from + 30.0
    ensures t.answers[i].snapshot.origin.version >= v
  {
    RunKeeps(Start(table, now), steps, t);
    assert Recent(t, t.answers[i]);
  }

  // ----- what the cache spares -----

  ghost predicate CacheUndisturbed(steps: seq<Step>) {
    forall i | 0 <= i < |steps| :: !steps[i].Invalidate? && !steps[i].Publish?
  }

  lemma {:induction false} CacheStays(s: State, steps: seq<Step>, t: State)
    requires WellFormed(s) && Steps(s, steps, t) && CacheUndisturbed(steps)
    ensures WellFormed(t) && t.cache == s.cache
    decreases |steps|
  {
    if steps != [] {
      assert CacheUndisturbed(steps[1..]);
      CacheStays(Next(s, steps[0]), steps[1..], t);
    }
  }

  /** Once a map is published, a lookup is answered with it, at once and without asking the database,
      exactly as long as its load began at most 30 seconds ago, whatever else goes on short of an
      invalidation or another publication. */
  lemma LookupsShareALoad(s: State, published: nat, steps: seq<Step>, t: State, id: nat)
    requires WellFormed(s) && Enabled(s, Publish(published)) && Steps(Next(s, Publish(published)), steps, t)
    requires CacheUndisturbed(steps) && id !in t.lookups
    ensures WellFormed(t)
    ensures var load, u := s.lookups[published], Next(t, Check(id));
            if t.now - load.startedAt <= 30.0 then
              u.lookups == t.lookups && |u.answers| == |t.answers| + 1
              && u.answers[|t.answers|].snapshot == load.snapshot && u.answers[|t.answers|].answeredAt == t.now
            else u.answers == t.answers && u.lookups.Keys == t.lookups.Keys + {id} && u.lookups[id].Checked?
  {
    CacheStays(Next(s, Publish(published)), steps, t);
  }

  // ----- after an invalidation -----

  /** No lookup holds, fetched and not yet published, routes older than version `v` that it began
      to look up recently enough for the cache to serve them. */
  ghost predicate NoStaleInFlight(s: State, v: nat) {
    forall id | id in s.lookups && s.lookups[id].Fetched? ::
      s.lookups[id].snapshot.origin.version >= v || s.now - s.lookups[id].startedAt > 30.0
  }

  /** Nothing older than version `v` can be served from the cache. */
  ghost predicate CacheSince(s: State, v: nat) {
    Hit(s) ==> s.cache.value.snapshot.origin.version >= v
  }

  /** The lookups begun as number `first` or later answer with version `v` or later. */
  ghost predicate AnswersSince(s: State, first: nat, v: nat) {
    forall i | 0 <= i < |s.answers| && s.answers[i].begun >= first :: s.answers[i].snapshot.origin.version >= v
  }

  ghost predicate LookupsSince(s: State, first: nat, v: nat) {
    forall id | id in s.lookups && s.lookups[id].Fetched? && s.lookups[id].begun >= first ::
      s.lookups[id].snapshot.origin.version >= v
  }

  /** Whatever happens from now on, no lookup that begins now or later answers with less than `v`. */
  ghost predicate NeverAnswersOlder(s: State, v: nat) {
    forall steps: seq<Step>, m: State | Steps(s, steps, m) :: AnswersSince(m, s.begun, v)
  }

  ghost predicate FreshFrom(s: State, first: nat, v: nat) {
    && WellFormed(s) && v <= CurrentVersion(s)
    && CacheSince(s, v) && NoStaleInFlight(s, v) && LookupsSince(s, first, v) && AnswersSince(s, first, v)
  }

  lemma StepStaysFresh(s: State, first: nat, v: nat, step: Step)
    requires FreshFrom(s, first, v) && Enabled(s, step)
    ensures FreshFrom(Next(s, step), first, v)
  {
    hide ActiveRoutes;
  }

  lemma {:induction false} StaysFresh(s: State, first: nat, v: nat, steps: seq<Step>, m: State)
    requires FreshFrom(s, first, v) && Steps(s, steps, m)
    ensures FreshFrom(m, first, v)
    decreases |steps|
  {
    if steps != [] {
      hide FreshFrom, Next;
      StepStaysFresh(s, first, v, steps[0]);
      StaysFresh(Next(s, steps[0]), first, v, steps[1..], m);
    }
  }

  /** After an invalidation every lookup that begins answers with version `v` or later, whatever
      follows, exactly when no stale map that the cache could still serve is in flight: otherwise
      its publication undoes the invalidation. */
  lemma InvalidationHoldsIff(s: State, v: nat)
    requires Invariant(s) && v <= CurrentVersion(s) && s.cache == None
    ensures NeverAnswersOlder(s, v) <==> NoStaleInFlight(s, v)
  {
    if NoStaleInFlight(s, v) {
      assert FreshFrom(s, s.begun, v);
      forall steps: seq<Step>, m: State | Steps(s, steps, m) ensures AnswersSince(m, s.begun, v) {
        StaysFresh(s, s.begun, v, steps, m);
      }
    } else {
      var id :| id in s.lookups && s.lookups[id].Fetched?
                && s.lookups[id].snapshot.origin.version < v
                && s.now - s.lookups[id].startedAt <= 30.0;
      var published := Next(s, Publish(id));
      var m := Next(published, Check(id));
      assert m.answers[|published.answers|].begun == s.begun;
      assert !AnswersSince(m, s.begun, v);
      hide Next, AnswersSince;
      StepsCons(published, Check(id), [], m);
      StepsCons(s, Publish(id), [Check(id)] + [], m);
    }
  }

  lemma StepsCons(s: State, step: Step, rest: seq<Step>, t: State)
    requires WellFormed(s) && Enabled(s, step) && Steps(Next(s, step), rest, t)
    ensures Steps(s, [step] + rest, t)
  {
    assert ([step] + rest)[1..] == rest;
  }

  // ----- an administrator's update -----

  predicate Shows(routes: Routes, category: string, route: Route) {
    if route.isActive && route.modelId.Some?
    then category in routes && Some(routes[category]) == route.modelId
    else category !in routes
  }

  ghost predicate LeavesAlone(steps: seq<Step>, category: string) {
    forall i | 0 <= i < |steps| && steps[i].Commit? :: steps[i].category != category
  }

  ghost predicate HeldSince(s: State, v: nat, category: string, route: Route) {
    forall i | v <= i < |s.versions| ::
      category in s.versions[i].table && s.versions[i].table[category] == route
  }

  lemma {:induction false} StaysHeld(s: State, v: nat, category: string, route: Route, steps: seq<Step>, m: State)
    requires WellFormed(s) && v <= CurrentVersion(s) && HeldSince(s, v, category, route)
    requires Steps(s, steps, m) && LeavesAlone(steps, category)
    ensures WellFormed(m) && v <= CurrentVersion(m) && HeldSince(m, v, category, route)
    decreases |steps|
  {
    if steps != [] {
      assert LeavesAlone(steps[1..], category);
      StaysHeld(Next(s, steps[0]), v, category, route, steps[1..], m);
    }
  }

  /** `update_route` commits and then invalidates. If at the invalidation no older map is in flight,
      then every lookup that begins later, with whatever in between its steps, answers with the new
      route, or with the failure of a load made since the commit. */
  lemma UpdateIsSeen(s: State, category: string, route: Route, between: seq<Step>, committed: State,
                     after: seq<Step>, m: State, i: nat)
    requires Invariant(s)
    requires Steps(Next(s, Commit(category, route)), between, committed) && WellFormed(committed)
    requires NoStaleInFlight(Next(committed, Invalidate), |s.versions|)
    requires Steps(Next(committed, Invalidate), after, m)
    requires LeavesAlone(between, category) && LeavesAlone(after, category)
    requires i < |m.answers| && m.answers[i].begun >= committed.begun
    ensures var seen := m.answers[i].snapshot;
            && seen.origin.version >= |s.versions|
            && (seen.origin.Read? ==> Shows(seen.routes, category, route))
  {
    var v := |s.versions|;
    var updated := Next(s, Commit(category, route));
    StepKeeps(s, Commit(category, route));
    RunKeeps(updated, between, committed);
    assert HeldSince(updated, v, category, route);
    StaysHeld(updated, v, category, route, between, committed);
    var dropped := Next(committed, Invalidate);
    StepKeeps(committed, Invalidate);
    RunKeeps(dropped, after, m);
    StaysHeld(dropped, v, category, route, after, m);
    assert FreshFrom(dropped, committed.begun, v);
    StaysFresh(dropped, committed.begun, v, after, m);
    assert Recent(m, m.answers[i]);
  }

  /** Writing one row changes the answer for its category, to what the row says, and for no other. */
  lemma UpdateChangesOneRoute(table: RouteTable, category: string, route: Route)
    ensures var before, after := ActiveRoutes(table), ActiveRoutes(table[category := route]);
            && Shows(after, category, route)
            && forall c | c != category :: (c in after <==> c in before) && (c in after ==> after[c] == before[c])
  {
    var before, after := ActiveRoutes(table), ActiveRoutes(table[category := route]);
    forall c | c != category && c in after ensures after[c] == before[c] {
      assert Some(after[c]) == table[c].modelId == Some(before[c]);
    }
  }

  function LateLoad(category: string, route: Route): seq<Step> {
    [Check(0)] + ([Load(0, false)] + ([Commit(category, route)] +
      ([Invalidate] + ([Publish(0)] + ([Tick(30.0)] + ([Check(1)] + []))))))
  }

  /** Without that condition it fails for every update: a lookup that read the table before the
      commit and publishes after the invalidation brings the old routes back for 30 seconds. */
  lemma LateLoadHidesUpdate(table: RouteTable, category: string, route: Route)
    ensures exists t: State ::
              && Steps(Start(table, 0.0), LateLoad(category, route), t)
              && WellFormed(t)
              && t.versions[CurrentVersion(t)].table == table[category := route]
              && |t.answers| == 2 && t.answers[1].begun == 1 && t.answers[1].startedAt == 30.0
              && t.answers[1].snapshot.routes == ActiveRoutes(table)
  {
    var s0 := Start(table, 0.0);
    var s1 := Next(s0, Check(0));
    var s2 := Next(s1, Load(0, false));
    var s3 := Next(s2, Commit(category, route));
    var s4 := Next(s3, Invalidate);
    var s5 := Next(s4, Publish(0));
    var s6 := Next(s5, Tick(30.0));
    assert s6.cache == Some(Cached(s2.lookups[0].snapshot, 0.0)) && s6.now == 30.0;
    var t := Next(s6, Check(1));
    assert t.versions == [Version(table, 0.0), Version(table[category := route], 0.0)];
    assert |t.answers| == 2 && t.answers[1].snapshot.routes == ActiveRoutes(table);
    var r6 := [Check(1)] + [];
    var r5 := [Tick(30.0)] + r6;
    var r4 := [Publish(0)] + r5;
    var r3 := [Invalidate] + r4;
    var r2 := [Commit(category, route)] + r3;
    var r1 := [Load(0, false)] + r2;
    StepsCons(s6, Check(1), [], t);
    StepsCons(s5, Tick(30.0), r6, t);
    StepsCons(s4, Publish(0), r5, t);
    StepsCons(s3, Invalidate, r4, t);
    StepsCons(s2, Commit(category, route), r3, t);
    StepsCons(s1, Load(0, false), r2, t);
    StepsCons(s0, Check(0), r1, t);
    hide Steps, Next;
    assert Steps(s0, LateLoad(category, route), t) && WellFormed(t);
  }
}
