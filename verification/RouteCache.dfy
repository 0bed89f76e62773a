/** The in-process model route cache: lookups as separate check, load and publish steps,
    with commits to the route table and invalidations interleaved anywhere. */
module RouteCache {
  import opened Wrappers

  const CACHE_TTL_SECONDS := 30.0

  datatype Route = Route(modelId: Option<string>, isActive: bool)

  type RouteTable = map<string, Route>

  type Routes = map<string, string>

  /** The query of `_load_active_routes`: the active rows that have a model. */
  function ActiveRoutes(table: RouteTable): (r: Routes)
    ensures forall c :: c in r <==> c in table && table[c].isActive && table[c].modelId.Some?
    ensures forall c | c in r :: Some(r[c]) == table[c].modelId
  {
    map c | c in table && table[c].isActive && table[c].modelId.Some? :: table[c].modelId.value
  }

  /** The globals `_cache` and `_cache_loaded_at`. */
  class RouteCacheGlobals {
    var cache: Option<Routes>
    var loadedAt: real

    constructor ()
      ensures cache == None && loadedAt == 0.0
    {
      cache, loadedAt := None, 0.0;
    }

    method InvalidateCache()
      modifies this`cache
      ensures cache == None
    {
      cache := None;
    }

    /** `_active_routes`, `loaded` being what the database gives if it is asked (`None`: it fails). */
    method Lookup(now: real, loaded: Option<RouteTable>) returns (routes: Routes)
      modifies this
      ensures (cache, loadedAt, routes) == LookupAlone(old(cache), old(loadedAt), now, loaded)
    {
      if cache == None || now - loadedAt > CACHE_TTL_SECONDS {
        cache := Some(Loaded(loaded));
        loadedAt := now;
      }
      return cache.value;
    }
  }

  /** A failed load is an empty map. */
  function Loaded(table: Option<RouteTable>): Routes {
    if table == None then map[] else ActiveRoutes(table.value)
  }

  function LookupAlone(cache: Option<Routes>, loadedAt: real, now: real, loaded: Option<RouteTable>)
    : (Option<Routes>, real, Routes)
  {
    if cache.Some? && now - loadedAt <= CACHE_TTL_SECONDS then (cache, loadedAt, cache.value)
    else (Some(Loaded(loaded)), now, Loaded(loaded))
  }

  // ----- the interleaved system -----

  /** Where a map came from, for the statements only: no step looks at it. */
  datatype Origin = Read(version: nat, at: real) | Failed(version: nat, at: real)

  datatype Snapshot = Snapshot(routes: Routes, origin: Origin)

  datatype Cached = Cached(snapshot: Snapshot, loadedAt: real)

  /** A lookup under way. `begun` numbers the lookups in the order of their checks. */
  datatype Lookup = Checked(begun: nat, startedAt: real) | Fetched(begun: nat, startedAt: real, snapshot: Snapshot)

  datatype Version = Version(table: RouteTable, from: real)

  datatype Answer = Answer(begun: nat, startedAt: real, answeredAt: real, snapshot: Snapshot)

  datatype State = State(
    now: real,
    versions: seq<Version>,
    cache: Option<Cached>,
    lookups: map<nat, Lookup>,
    answers: seq<Answer>,
    begun: nat)

  datatype Step =
    | Tick(seconds: real)
    | Commit(category: string, route: Route)
    | Invalidate
    | Check(id: nat)
    | Load(id: nat, fails: bool)
    | Publish(id: nat)

  predicate WellFormed(s: State) {
    |s.versions| > 0
  }

  function CurrentVersion(s: State): nat
    requires WellFormed(s)
  {
    |s.versions| - 1
  }

  predicate Enabled(s: State, step: Step) {
    match step
    case Tick(seconds) => seconds >= 0.0
    case Commit(_, _) => true
    case Invalidate => true
    case Check(id) => id !in s.lookups
    case Load(id, _) => id in s.lookups && s.lookups[id].Checked?
    case Publish(id) => id in s.lookups && s.lookups[id].Fetched?
  }

  predicate Hit(s: State) {
    s.cache.Some? && s.now - s.cache.value.loadedAt <= CACHE_TTL_SECONDS
  }

  function Next(s: State, step: Step): (t: State)
    requires WellFormed(s) && Enabled(s, step)
    ensures WellFormed(t)
  {
    match step
    case Tick(seconds) => s.(now := s.now + seconds)
    case Commit(category, route) =>
      var table := s.versions[CurrentVersion(s)].table[category := route];
      s.(versions := s.versions + [Version(table, s.now)])
    case Invalidate => s.(cache := None)
    case Check(id) =>
      if Hit(s) then
        s.(answers := s.answers + [Answer(s.begun, s.now, s.now, s.cache.value.snapshot)], begun := s.begun + 1)
      else s.(lookups := s.lookups[id := Checked(s.begun, s.now)], begun := s.begun + 1)
    case Load(id, fails) =>
      var snapshot :=
        if fails then Snapshot(map[], Failed(CurrentVersion(s), s.now))
        else Snapshot(ActiveRoutes(s.versions[CurrentVersion(s)].table), Read(CurrentVersion(s), s.now));
      s.(lookups := s.lookups[id := Fetched(s.lookups[id].begun, s.lookups[id].startedAt, snapshot)])
    case Publish(id) =>
      var l := s.lookups[id];
      s.(cache := Some(Cached(l.snapshot, l.startedAt)),
         lookups := s.lookups - {id},
         answers := s.answers + [Answer(l.begun, l.startedAt, s.now, l.snapshot)])
  }

  /** A run of enabled steps. */
  ghost predicate Steps(s: State, steps: seq<Step>, t: State)
    decreases |steps|
  {
    if steps == [] then s == t
    else WellFormed(s) && Enabled(s, steps[0]) && Steps(Next(s, steps[0]), steps[1..], t)
  }

  function Start(table: RouteTable, now: real): State {
    State(now, [Version(table, now)], None, map[], [], 0)
  }

  /** With nothing in between, check, load and publish are the one call of the code. */
  lemma UninterruptedLookup(s: State, id: nat, fails: bool)
    requires WellFormed(s) && id !in s.lookups
    ensures var t := Next(s, Check(id));
            var done := if Hit(s) then t else Next(Next(t, Load(id, fails)), Publish(id));
            var cache := if s.cache.Some? then Some(s.cache.value.snapshot.routes) else None;
            var loadedAt := if s.cache.Some? then s.cache.value.loadedAt else 0.0;
            var table := if fails then None else Some(s.versions[CurrentVersion(s)].table);
            && done.cache.Some?
            && |done.answers| == |s.answers| + 1
            && (done.cache.value.snapshot.routes, done.cache.value.loadedAt)
               == (LookupAlone(cache, loadedAt, s.now, table).2, LookupAlone(cache, loadedAt, s.now, table).1)
            && done.answers[|s.answers|].snapshot.routes == LookupAlone(cache, loadedAt, s.now, table).2
            && done.lookups == s.lookups
  {
    if !Hit(s) {
      var t := Next(s, Check(id));
      assert t.lookups == s.lookups[id := Checked(s.begun, s.now)];
      var done := Next(Next(t, Load(id, fails)), Publish(id));
      assert done.lookups == s.lookups;
    }
  }

  // ----- staleness -----

  /** The version was current at the stated moment, and showed these routes unless the load failed. */
  ghost predicate Genuine(s: State, snapshot: Snapshot) {
    var v, at := snapshot.origin.version, snapshot.origin.at;
    && v < |s.versions|
    && snapshot.routes == (if snapshot.origin.Failed? then map[] else ActiveRoutes(s.versions[v].table))
    && s.versions[v].from <= at <= s.now
    && (v + 1 < |s.versions| ==> at <= s.versions[v + 1].from)
  }

  /** Genuine, and from no more than the cache lifetime before the lookup began. */
  ghost predicate Recent(s: State, a: Answer) {
    && Genuine(s, a.snapshot)
    && a.startedAt - 30.0 <= a.snapshot.origin.at <= a.answeredAt <= s.now
  }

  ghost predicate InTime(versions: seq<Version>, now: real) {
    && (forall i | 0 <= i < |versions| :: versions[i].from <= now)
    && (forall i, j | 0 <= i < j < |versions| :: versions[i].from <= versions[j].from)
  }

  ghost predicate CacheGenuine(s: State) {
    s.cache.Some? ==>
      Genuine(s, s.cache.value.snapshot) && s.cache.value.loadedAt <= s.cache.value.snapshot.origin.at
  }

  ghost predicate LookupsGenuine(s: State) {
    forall id | id in s.lookups ::
      && s.lookups[id].startedAt <= s.now && s.lookups[id].begun < s.begun
      && (s.lookups[id].Fetched? ==>
            Genuine(s, s.lookups[id].snapshot) && s.lookups[id].startedAt <= s.lookups[id].snapshot.origin.at)
  }

  ghost predicate AnswersRecent(s: State) {
    forall i | 0 <= i < |s.answers| :: Recent(s, s.answers[i]) && s.answers[i].begun < s.begun
  }

  ghost predicate Invariant(s: State) {
    WellFormed(s) && InTime(s.versions, s.now) && CacheGenuine(s) && LookupsGenuine(s) && AnswersRecent(s)
  }

  lemma GenuineStays(s: State, step: Step, snapshot: Snapshot)
    requires WellFormed(s) && Enabled(s, step) && Genuine(s, snapshot)
    ensures Genuine(Next(s, step), snapshot)
  {
  }

  lemma LoadIsGenuine(s: State, id: nat, fails: bool)
    requires WellFormed(s) && InTime(s.versions, s.now) && Enabled(s, Load(id, fails))
    ensures var t := Next(s, Load(id, fails));
            Genuine(t, t.lookups[id].snapshot) && t.lookups[id].snapshot.origin.at == s.now
  {
  }

  lemma AllGenuineStay(s: State, step: Step)
    requires WellFormed(s) && Enabled(s, step)
    ensures forall snapshot | Genuine(s, snapshot) :: Genuine(Next(s, step), snapshot)
  {
    forall snapshot | Genuine(s, snapshot) ensures Genuine(Next(s, step), snapshot) {
      GenuineStays(s, step, snapshot);
    }
  }

  lemma LookupsStayGenuine(s: State, step: Step)
    requires Invariant(s) && Enabled(s, step)
    ensures LookupsGenuine(Next(s, step)) && CacheGenuine(Next(s, step))
  {
    AllGenuineStay(s, step);
    if step.Load? {
      LoadIsGenuine(s, step.id, step.fails);
    }
    hide Genuine, ActiveRoutes, AnswersRecent;
  }

  lemma AnswersStayRecent(s: State, step: Step)
    requires Invariant(s) && Enabled(s, step)
    ensures AnswersRecent(Next(s, step))
  {
    AllGenuineStay(s, step);
    hide Genuine, ActiveRoutes;
  }

  lemma StepKeeps(s: State, step: Step)
    requires Invariant(s) && Enabled(s, step)
    ensures Invariant(Next(s, step))
  {
    LookupsStayGenuine(s, step);
    AnswersStayRecent(s, step);
    hide CacheGenuine, LookupsGenuine, AnswersRecent;
  }

  lemma {:induction false} RunKeeps(s: State, steps: seq<Step>, t: State)
    requires Invariant(s) && Steps(s, steps, t)
    ensures Invariant(t)
    decreases |steps|
  {
    if steps != [] {
      StepKeeps(s, steps[0]);
      RunKeeps(Next(s, steps[0]), steps[1..], t);
    }
  }
}
