/** What the limiter guarantees over whole runs: the sliding-window bound, the key cap
    and its eviction order, and when the age sweep is invisible. */
module RateLimitBounds {
  import opened Sorting
  import opened RateLimitStore
  import opened RateLimitLedger
  import opened Sets

  // ----- the window bound -----

  /** How many hits lie in (from, to]. */
  function CountIn(h: History, from: real, to: real): nat {
    if h == [] then 0
    else CountIn(h[..|h| - 1], from, to) + (if from < h[|h| - 1].at <= to then 1 else 0)
  }

  /** Any hit is at least one window later than the hit `times` places before it. */
  ghost predicate Spaced(h: History, times: nat, window: real) {
    forall i | times <= i < |h| :: h[i - times].at <= h[i].at - window
  }

  lemma {:induction false} CountBound(h: History, n: nat, cutoff: real, now: real)
    requires Ordered(h, now) && n <= |h| && n > 0
    ensures CountAfter(h, cutoff) < n ==> h[|h| - n].at <= cutoff
    ensures CountAfter(h, cutoff) >= n ==> h[|h| - n].at > cutoff
  {
    var front := h[..|h| - 1];
    if n == 1 {
      if h[|h| - 1].at <= cutoff { NoneAfter(h, cutoff, now); }
    } else {
      CountBound(front, n - 1, cutoff, now);
      if h[|h| - 1].at <= cutoff { NoneAfter(h, cutoff, now); }
    }
  }

  lemma {:induction false} NoneAfter(h: History, cutoff: real, now: real)
    requires Ordered(h, now) && h != [] && h[|h| - 1].at <= cutoff
    ensures CountAfter(h, cutoff) == 0
  {
    CountOfTail(h, 0, cutoff);
  }

  lemma SpacedAppend(h: History, hit: Hit, times: nat, window: real)
    requires Ordered(h, hit.at) && Spaced(h, times, window)
    requires CountAfter(h, hit.at - window) < times
    ensures Spaced(h + [hit], times, window)
  {
    if times <= |h| {
      CountBound(h, times, hit.at - window, hit.at);
    }
  }

  lemma {:induction false} SpacedBoundsEveryWindow(h: History, times: nat, window: real, now: real, t: real)
    requires Ordered(h, now) && Spaced(h, times, window)
    ensures CountIn(h, t - window, t) <= times
  {
    if h != [] {
      if h[|h| - 1].at > t {
        SpacedBoundsEveryWindow(h[..|h| - 1], times, window, now, t);
      } else {
        CountUpTo(h, t - window, t);
        if CountAfter(h, t - window) > times {
          CountBound(h, times + 1, t - window, now);
        }
      }
    }
  }

  lemma {:induction false} CountUpTo(h: History, from: real, to: real)
    requires forall i | 0 <= i < |h| :: h[i].at <= to
    ensures CountIn(h, from, to) == CountAfter(h, from)
  {
    if h != [] {
      CountUpTo(h[..|h| - 1], from, to);
    }
  }

  lemma {:induction false} CountInSuffix(g: History, h: History, from: real, to: real)
    ensures CountIn(h, from, to) <= CountIn(g + h, from, to)
  {
    if h != [] {
      CountInSuffix(g, h[..|h| - 1], from, to);
      assert (g + h)[..|g + h| - 1] == g + h[..|h| - 1];
    }
  }

  // ----- admissions of one key over a run of the store -----

  /** The hits of (scope, key) that the store admits over a run. */
  function Admitted(w: Windows, s: Store, ops: seq<Op>, scope: string, key: string): History
    decreases |ops|
  {
    if ops == [] then []
    else
      var (s', allowed) := StoreStep(w, s, ops[0]);
      var rest := Admitted(w, s', ops[1..], scope, key);
      if ops[0].Allow? && ops[0].scope == scope && ops[0].key == key && allowed
      then [Hit(ops[0].now, ops[0].member)] + rest else rest
  }

  /** No step of the run forgets, resets or evicts the key's history. */
  ghost predicate KeptThroughout(w: Windows, s: Store, ops: seq<Op>, scope: string, key: string)
    decreases |ops|
  {
    ops == [] ||
    (&& (match ops[0]
         case Allow(scope', _, _, _, _) => scope' == scope ==> key !in EvictedKeys(w, s, ops[0])
         case Forget(scope', key') => (scope', key') != (scope, key)
         case Reset => false)
     && KeptThroughout(w, StoreStep(w, s, ops[0]).0, ops[1..], scope, key))
  }

  /** Every call for the scope uses its one limit. */
  ghost predicate UsesLimit(ops: seq<Op>, scope: string, times: nat) {
    forall i | 0 <= i < |ops| :: ops[i].Allow? && ops[i].scope == scope ==> ops[i].times == times
  }

  lemma StepHistory(w: Windows, s: Store, l: Ledger, op: Op, since: real, scope: string, key: string, times: nat)
    requires Agree(w, s, l, since) && WindowsWithinTtl(w) && (op.Allow? ==> since <= op.now)
    requires KeptThroughout(w, s, [op], scope, key) && UsesLimit([op], scope, times)
    requires Spaced(HistoryOf(l, scope, key), times, w(scope))
    ensures var l' := LedgerStep(w, l, op, EvictedKeys(w, s, op)).0;
      && HistoryOf(l', scope, key) == HistoryOf(l, scope, key) + Admitted(w, s, [op], scope, key)
      && Spaced(HistoryOf(l', scope, key), times, w(scope))
  {
    hide AllowStep, ForgetStep, EvictedBy, Spaced;
    assert [op][0] == op && [op][1..] == [];
    assert AgreeOn(s, l, scope, key, w(scope), since);
    StepRefines(w, s, l, op, since);
    if op.Allow? {
      LoggedHistories(w, l, op, EvictedKeys(w, s, op));
      if op.scope == scope && op.key == key && StoreStep(w, s, op).1 {
        SpacedAppend(HistoryOf(l, scope, key), Hit(op.now, op.member), times, w(scope));
      }
    }
  }

  /** What a run needs to be followed, before each of its steps. */
  ghost predicate Followed(w: Windows, s: Store, l: Ledger, ops: seq<Op>, since: real, scope: string, key: string,
                           times: nat)
  {
    && Agree(w, s, l, since) && WindowsWithinTtl(w) && InOrder(ops, since)
    && KeptThroughout(w, s, ops, scope, key) && UsesLimit(ops, scope, times)
    && Spaced(HistoryOf(l, scope, key), times, w(scope))
  }

  lemma FollowStep(w: Windows, s: Store, l: Ledger, ops: seq<Op>, since: real, scope: string, key: string, times: nat)
      returns (s': Store, l': Ledger)
    requires Followed(w, s, l, ops, since, scope, key, times) && ops != []
    ensures Followed(w, s', l', ops[1..], ClockAfter(ops[0], since), scope, key, times)
    ensures HistoryOf(l', scope, key) + Admitted(w, s', ops[1..], scope, key)
         == HistoryOf(l, scope, key) + Admitted(w, s, ops, scope, key)
  {
    var op := ops[0];
    KeptStep(w, s, ops, scope, key);
    AdmittedStep(w, s, ops, scope, key);
    LimitStep(ops, scope, times);
    assert (op.Allow? ==> since <= op.now) && InOrder(ops[1..], ClockAfter(op, since));
    hide KeptThroughout, Admitted, Agree, InOrder, UsesLimit, WindowsWithinTtl, Spaced, HistoryOf;
    hide StoreStep, LedgerStep, EvictedKeys;
    s', l' := StoreStep(w, s, op).0, LedgerStep(w, l, op, EvictedKeys(w, s, op)).0;
    StepRefines(w, s, l, op, since);
    StepHistory(w, s, l, op, since, scope, key, times);
    Regrouped(HistoryOf(l, scope, key), Admitted(w, s, [op], scope, key), Admitted(w, s', ops[1..], scope, key));
  }

  lemma LimitStep(ops: seq<Op>, scope: string, times: nat)
    requires ops != [] && UsesLimit(ops, scope, times)
    ensures UsesLimit([ops[0]], scope, times) && UsesLimit(ops[1..], scope, times)
  {
    assert [ops[0]][0] == ops[0];
  }

  lemma Regrouped(x: History, y: History, z: History)
    ensures x + (y + z) == x + y + z
  {
  }

  /** While a key's history is kept, the log's history is extended by exactly the store's admissions. */
  lemma {:induction false} RunHistory(w: Windows, s: Store, l: Ledger, ops: seq<Op>, since: real, scope: string,
                                      key: string, times: nat)
    requires Followed(w, s, l, ops, since, scope, key, times)
    ensures var h := HistoryOf(l, scope, key) + Admitted(w, s, ops, scope, key);
      Spaced(h, times, w(scope)) && exists now :: Ordered(h, now)
    decreases |ops|
  {
    if ops == [] {
      assert AgreeOn(s, l, scope, key, w(scope), since);
      assert HistoryOf(l, scope, key) + [] == HistoryOf(l, scope, key);
    } else {
      hide Followed, Admitted, Spaced, Ordered, HistoryOf;
      var s', l' := FollowStep(w, s, l, ops, since, scope, key, times);
      RunHistory(w, s', l', ops[1..], ClockAfter(ops[0], since), scope, key, times);
    }
  }

  lemma KeptStep(w: Windows, s: Store, ops: seq<Op>, scope: string, key: string)
    requires ops != [] && KeptThroughout(w, s, ops, scope, key)
    ensures KeptThroughout(w, s, [ops[0]], scope, key)
    ensures KeptThroughout(w, StoreStep(w, s, ops[0]).0, ops[1..], scope, key)
  {
    hide StoreStep, EvictedKeys;
    assert [ops[0]][0] == ops[0] && [ops[0]][1..] == [];
  }

  lemma AdmittedStep(w: Windows, s: Store, ops: seq<Op>, scope: string, key: string)
    requires ops != []
    ensures Admitted(w, s, ops, scope, key)
         == Admitted(w, s, [ops[0]], scope, key) + Admitted(w, StoreStep(w, s, ops[0]).0, ops[1..], scope, key)
  {
    hide StoreStep;
    assert [ops[0]][0] == ops[0] && [ops[0]][1..] == [];
  }

  /** From any reachable state, while a key is neither forgotten nor evicted, no window
      of the scope's length ever holds more than `times` admissions of it. */
  lemma WindowBound(w: Windows, s: Store, l: Ledger, ops: seq<Op>, since: real, scope: string, key: string,
                    times: nat, t: real)
    requires Agree(w, s, l, since) && WindowsWithinTtl(w) && InOrder(ops, since)
    requires KeptThroughout(w, s, ops, scope, key) && UsesLimit(ops, scope, times)
    requires Spaced(HistoryOf(l, scope, key), times, w(scope))
    ensures CountIn(Admitted(w, s, ops, scope, key), t - w(scope), t) <= times
  {
    hide Agree, WindowsWithinTtl, InOrder, KeptThroughout, UsesLimit, Spaced, Ordered, CountIn, Admitted, HistoryOf;
    RunHistory(w, s, l, ops, since, scope, key, times);
    var h, a := HistoryOf(l, scope, key), Admitted(w, s, ops, scope, key);
    var now :| Ordered(h + a, now);
    SpacedBoundsEveryWindow(h + a, times, w(scope), now, t);
    CountInSuffix(h, a, t - w(scope), t);
  }

  /** The same from a fresh process, for any clock origin. */
  lemma FreshStoreAgrees(w: Windows, since: real)
    ensures Agree(w, FRESH_STORE, map[], since)
  {
  }

  // ----- what is dropped -----

  /** A bucket survives a call's sweep exactly when the last sweep is less than five minutes ago, or it
      holds a hit less than an hour old; no scope is left empty. */
  lemma SweepDropsExactly(s: Store, now: real, scope: string, key: string)
    ensures var before, after := s.ScopeAt(scope).buckets, Prune(s, now).ScopeAt(scope).buckets;
      var due := now - s.lastSweepAt >= 300.0;
      && (key in after <==>
            key in before && (due ==> before[key] != [] && before[key][|before[key]| - 1] > now - 3600.0))
      && (key in after ==> after[key] == before[key])
      && Prune(s, now).lastSweepAt == (if due then now else s.lastSweepAt)
      && (due && scope in Prune(s, now).scopes ==> after != map[])
  {
    hide OnlyIn;
    if scope in s.scopes && now - s.lastSweepAt >= 300.0 {
      var kept := SweepScope(s.scopes[scope], now - 3600.0);
      if key in kept.buckets { assert kept.buckets != map[]; }
    }
  }

  /** Forgetting a key empties its history and leaves every other one alone; resetting empties all. */
  lemma ForgetEmptiesOne(w: Windows, s: Store, scope: string, key: string, scope': string, key': string)
    ensures StoreStep(w, s, Forget(scope, key)).0.BucketAt(scope', key')
         == if (scope', key') == (scope, key) then [] else s.BucketAt(scope', key')
    ensures StoreStep(w, s, Reset).0.BucketAt(scope', key') == []
  {
    hide OnlyIn;
  }

  // ----- when the age sweep is invisible -----

  ghost predicate SortedUpTo(bucket: Bucket, now: real) {
    forall i, j | 0 <= i <= j < |bucket| :: bucket[i] <= bucket[j] <= now
  }

  /** Sweeping first never changes the answer of a call with this window. */
  ghost predicate SweepInvisible(window: real) {
    forall s: Store, scope, key, times, now ::
      SortedUpTo(s.BucketAt(scope, key), now) ==>
      AllowStep(s, scope, key, times, window, now).1 == Admit(s, scope, key, times, window, now).1
  }

  lemma {:induction false} TrimAll(bucket: Bucket, cutoff: real, now: real)
    requires SortedUpTo(bucket, now) && Stale(bucket, cutoff)
    ensures Trim(bucket, cutoff) == []
    decreases |bucket|
  {
    if bucket != [] {
      assert bucket[0] <= bucket[|bucket| - 1];
      TrimAll(bucket[1..], cutoff, now);
    }
  }

  lemma SweptTrim(s: Store, scope: string, key: string, window: real, now: real)
    requires window <= BUCKET_TTL_SECONDS && SortedUpTo(s.BucketAt(scope, key), now)
    ensures Trim(Prune(s, now).BucketAt(scope, key), now - window) == Trim(s.BucketAt(scope, key), now - window)
  {
    hide Prune, Store.BucketAt;
    PrunedBucket(s, now, scope, key);
    var b := s.BucketAt(scope, key);
    if Prune(s, now).BucketAt(scope, key) != b {
      TrimAll(b, now - window, now);
    }
  }

  lemma AdmitAnswer(s: Store, scope: string, key: string, times: int, window: real, now: real)
    ensures Admit(s, scope, key, times, window, now).1 == (|Trim(s.BucketAt(scope, key), now - window)| < times)
  {
    hide Trim, EnforceScopeCap, Store.BucketAt, Store.ScopeAt, Scope.Put;
  }

  lemma SweptAnswer(s: Store, scope: string, key: string, times: int, window: real, now: real)
    requires window <= BUCKET_TTL_SECONDS && SortedUpTo(s.BucketAt(scope, key), now)
    ensures AllowStep(s, scope, key, times, window, now).1 == Admit(s, scope, key, times, window, now).1
  {
    hide Prune, Sweep, EnforceScopeCap, Trim, Admit, Store.BucketAt, SortedUpTo;
    SweptTrim(s, scope, key, window, now);
    AdmitAnswer(s, scope, key, times, window, now);
    AdmitAnswer(Prune(s, now), scope, key, times, window, now);
  }

  /** Any longer window has a hit that the sweep takes away too early. */
  lemma SweptTooEarly(scope: string, key: string, window: real)
    requires window > BUCKET_TTL_SECONDS
    ensures var s, now := Store(map[scope := Scope([key], map[key := [0.0]])], 0.0), BUCKET_TTL_SECONDS;
            && SortedUpTo(s.BucketAt(scope, key), now)
            && !Admit(s, scope, key, 1, window, now).1
            && AllowStep(s, scope, key, 1, window, now).1
  {
    var s, now := Store(map[scope := Scope([key], map[key := [0.0]])], 0.0), BUCKET_TTL_SECONDS;
    assert SweepScope(s.scopes[scope], 0.0).buckets == map[];
    assert Prune(s, now).BucketAt(scope, key) == [];
    hide Prune, SweepScope, EnforceScopeCap;
    assert s.BucketAt(scope, key) == [0.0];
    assert !Admit(s, scope, key, 1, window, now).1;
  }

  /** The sweep is invisible exactly to windows no longer than the bucket TTL. */
  lemma SweepInvisibleIff(window: real)
    ensures SweepInvisible(window) <==> window <= 3600.0
  {
    hide SortedUpTo, AllowStep, Admit;
    if window <= BUCKET_TTL_SECONDS {
      forall s: Store, scope, key, times, now | SortedUpTo(s.BucketAt(scope, key), now)
        ensures AllowStep(s, scope, key, times, window, now).1 == Admit(s, scope, key, times, window, now).1
      {
        SweptAnswer(s, scope, key, times, window, now);
      }
    } else {
      SweptTooEarly("scope", "key", window);
    }
  }

  // ----- the key cap -----

  /** Every scope is within the cap and every stored bucket holds a hit. */
  ghost predicate Tidy(s: Store, now: real) {
    forall scope | scope in s.scopes :: TidyScope(s.scopes[scope], now)
  }

  ghost predicate TidyScope(scope: Scope, now: real) {
    && scope.Valid()
    && |scope.buckets| <= 50_000
    && (forall k | k in scope.buckets :: scope.buckets[k] != [] && NewestHit(scope.buckets[k]) <= now)
  }

  lemma KeepTidy(scope: Scope, keys: set<string>, now: real)
    requires TidyScope(scope, now)
    ensures TidyScope(scope.Keep(keys), now)
  {
    KeepValid(scope, keys);
    var kept := scope.Keep(keys).buckets;
    assert kept.Keys <= scope.buckets.Keys;
    SubsetSize(kept.Keys, scope.buckets.Keys);
  }

  lemma PruneTidy(s: Store, since: real, now: real)
    requires Tidy(s, since) && since <= now
    ensures Tidy(Prune(s, now), now)
  {
    hide Scope.Valid, Scope.Keep;
    if now - s.lastSweepAt >= SWEEP_INTERVAL_SECONDS {
      var stale := now - BUCKET_TTL_SECONDS;
      forall scope | scope in Prune(s, now).scopes ensures TidyScope(Prune(s, now).scopes[scope], now) {
        var d := s.scopes[scope];
        KeepTidy(d, (set k | k in d.buckets && !Stale(d.buckets[k], stale)), now);
      }
    }
  }

  lemma {:induction false} FirstItemsAre(s: seq<Keyed<string>>, n: nat)
    requires n <= |s|
    ensures forall x :: x in FirstItems(s, n) <==> exists i :: 0 <= i < n && s[i].item == x
  {
    if n > 0 {
      FirstItemsAre(s, n - 1);
      assert s[n - 1].item in FirstItems(s, n);
    }
  }

  lemma {:induction false} FirstItemsCount(s: seq<Keyed<string>>, n: nat)
    requires n <= |s| && forall i, j | 0 <= i < j < |s| :: s[i].item != s[j].item
    ensures |FirstItems(s, n)| == n
  {
    if n > 0 {
      FirstItemsCount(s, n - 1);
      FirstItemsAre(s, n - 1);
    }
  }

  /** However far a scope is over the cap, exactly the excess goes, and nothing that goes was hit
      later than anything that stays. */
  lemma EvictedAreOldest(scope: Scope)
    requires scope.Valid() && |scope.buckets| > MAX_KEYS_PER_SCOPE
    ensures Evicted(scope) <= scope.buckets.Keys && |EnforceScopeCap(scope).buckets| == 50_000
    ensures forall e, k | e in Evicted(scope) && k in EnforceScopeCap(scope).buckets ::
              NewestHit(scope.buckets[e]) <= NewestHit(EnforceScopeCap(scope).buckets[k])
  {
    hide Evicted, StableSort, Ranked, FirstItems, Scope.Valid, OnlyIn, Scope.Keep;
    EvictedCount(scope);
    KeptBuckets(scope);
    forall e, k | e in Evicted(scope) && k in EnforceScopeCap(scope).buckets
      ensures NewestHit(scope.buckets[e]) <= NewestHit(EnforceScopeCap(scope).buckets[k])
    {
      EvictedBefore(scope, e, k);
    }
  }

  /** Who is evicted: the first items of the sorted keys. */
  lemma EvictedItems(scope: Scope) returns (sorted: seq<Keyed<string>>, n: nat)
    requires scope.Valid() && |scope.buckets| > MAX_KEYS_PER_SCOPE
    ensures sorted == StableSort(Ranked(scope, scope.order))
    ensures n == |scope.buckets| - MAX_KEYS_PER_SCOPE && n <= |sorted| && Evicted(scope) == FirstItems(sorted, n)
  {
    sorted, n := StableSort(Ranked(scope, scope.order)), |scope.buckets| - MAX_KEYS_PER_SCOPE;
    OrderCount(scope);
  }

  lemma EvictedCount(scope: Scope)
    requires scope.Valid() && |scope.buckets| > MAX_KEYS_PER_SCOPE
    ensures Evicted(scope) <= scope.buckets.Keys && |Evicted(scope)| == |scope.buckets| - MAX_KEYS_PER_SCOPE
  {
    var sorted, n := EvictedItems(scope);
    RankedOnce(scope, sorted);
    hide Evicted, Ranked, StableSort, FirstItems, Scope.Valid;
    FirstItemsAre(sorted, n);
    FirstItemsCount(sorted, n);
  }

  lemma EvictedBefore(scope: Scope, e: string, k: string)
    requires scope.Valid() && |scope.buckets| > MAX_KEYS_PER_SCOPE
    requires e in Evicted(scope) && k in scope.buckets && k !in Evicted(scope)
    ensures e in scope.buckets && NewestHit(scope.buckets[e]) <= NewestHit(scope.buckets[k])
  {
    var sorted, n := EvictedItems(scope);
    RankedOnce(scope, sorted);
    StableSortCorrect(Ranked(scope, scope.order));
    FirstItemsAre(sorted, n);
    hide Evicted, Ranked, StableSort, FirstItems, Scope.Valid;
    var i :| 0 <= i < n && sorted[i].item == e;
    var j :| 0 <= j < |sorted| && sorted[j].item == k;
    assert sorted[i].key <= sorted[j].key;
  }

  lemma OrderCount(scope: Scope)
    requires scope.Valid()
    ensures |scope.order| == |scope.buckets|
  {
    OrderLength(scope.order);
    assert (set k | k in scope.order) == scope.buckets.Keys;
  }

  lemma KeptBuckets(scope: Scope)
    requires Evicted(scope) <= scope.buckets.Keys
    ensures EnforceScopeCap(scope).buckets.Keys == scope.buckets.Keys - Evicted(scope)
    ensures |EnforceScopeCap(scope).buckets| == |scope.buckets| - |Evicted(scope)|
    ensures forall k | k in EnforceScopeCap(scope).buckets :: EnforceScopeCap(scope).buckets[k] == scope.buckets[k]
  {
    hide Evicted, OnlyIn;
    var kept := EnforceScopeCap(scope).buckets;
    assert kept.Keys == scope.buckets.Keys - Evicted(scope);
    assert |kept| == |kept.Keys|;
  }

  /** One key over the cap: exactly one key goes, none older stays, and the key
      inserted last survives even among equal timestamps. */
  lemma OneOverCap(scope: Scope, key: string, now: real)
    requires scope.Valid() && |scope.buckets| == MAX_KEYS_PER_SCOPE + 1
    requires scope.order != [] && scope.order[|scope.order| - 1] == key
    requires NewestHit(scope.At(key)) == now
    requires forall k | k in scope.buckets :: NewestHit(scope.buckets[k]) <= now
    ensures key !in Evicted(scope)
    ensures exists victim :: victim in scope.buckets && Evicted(scope) == {victim}
    ensures forall e, k | e in Evicted(scope) && k in scope.buckets ::
              NewestHit(scope.At(e)) <= NewestHit(scope.buckets[k])
  {
    hide Evicted, StableSort, FirstItems, Scope.Valid, OnlyIn, Ranked;
    EvictedCount(scope);
    LastKeyStays(scope, key);
    var victim :| victim in Evicted(scope);
    assert |Evicted(scope) - {victim}| == 0;
    assert Evicted(scope) == {victim};
    forall k | k in scope.buckets && k != victim
      ensures NewestHit(scope.At(victim)) <= NewestHit(scope.buckets[k])
    {
      EvictedBefore(scope, victim, k);
    }
  }

  /** The key inserted last, touched no earlier than any other, survives. */
  lemma LastKeyStays(scope: Scope, key: string)
    requires scope.Valid() && |scope.buckets| > MAX_KEYS_PER_SCOPE
    requires scope.order != [] && scope.order[|scope.order| - 1] == key
    requires forall k | k in scope.buckets :: NewestHit(scope.buckets[k]) <= NewestHit(scope.At(key))
    ensures key !in Evicted(scope)
  {
    var sorted, n := EvictedItems(scope);
    OrderCount(scope);
    var ranked := Ranked(scope, scope.order);
    RankedOnce(scope, sorted);
    LastMaximalStaysLast(ranked);
    assert sorted[|sorted| - 1].item == key;
    hide Evicted, StableSort, FirstItems, Ranked, OnlyIn;
    FirstItemsAre(sorted, n);
  }

  /** The sorted items are the keys, each once, ranked by its newest hit. */
  lemma RankedOnce(scope: Scope, sorted: seq<Keyed<string>>)
    requires scope.Valid() && sorted == StableSort(Ranked(scope, scope.order))
    ensures |sorted| == |scope.order|
    ensures forall i | 0 <= i < |sorted| ::
              sorted[i].item in scope.buckets && sorted[i].key == NewestHit(scope.At(sorted[i].item))
    ensures forall k | k in scope.buckets :: exists i :: 0 <= i < |sorted| && sorted[i].item == k
    ensures forall i, j | 0 <= i < j < |sorted| :: sorted[i].item != sorted[j].item
  {
    RankedKeys(scope, sorted);
    var ranked := Ranked(scope, scope.order);
    StableSortCorrect(ranked);
    DistinctEntries(scope.order);
    assert forall i, j | 0 <= i < j < |ranked| :: ranked[i] != ranked[j];
    hide Ranked, StableSort, Scope.At, Distinct;
    forall i, j | 0 <= i < j < |sorted| ensures sorted[i].item != sorted[j].item {
      if sorted[i].item == sorted[j].item {
        assert sorted[i] == sorted[j];
        RepeatedTwice(sorted, i, j);
        OnceEach(ranked, sorted[i]);
      }
    }
  }

  lemma RankedKeys(scope: Scope, sorted: seq<Keyed<string>>)
    requires scope.Valid() && sorted == StableSort(Ranked(scope, scope.order))
    ensures |sorted| == |scope.order|
    ensures forall i | 0 <= i < |sorted| ::
              sorted[i].item in scope.buckets && sorted[i].key == NewestHit(scope.At(sorted[i].item))
    ensures forall k | k in scope.buckets :: exists i :: 0 <= i < |sorted| && sorted[i].item == k
  {
    var ranked := Ranked(scope, scope.order);
    StableSortCorrect(ranked);
    SameEntries(sorted, ranked);
    hide StableSort, Distinct;
    forall i | 0 <= i < |sorted|
      ensures sorted[i].item in scope.buckets && sorted[i].key == NewestHit(scope.At(sorted[i].item))
    {
      assert sorted[i] in ranked;
    }
    forall k | k in scope.buckets ensures exists i :: 0 <= i < |sorted| && sorted[i].item == k {
      var j :| 0 <= j < |scope.order| && scope.order[j] == k;
      assert ranked[j] in sorted;
    }
  }

  lemma SameEntries<T>(s: seq<T>, t: seq<T>)
    requires multiset(s) == multiset(t)
    ensures forall x :: x in s <==> x in t
  {
    assert forall x :: x in s <==> x in multiset(s);
    assert forall x :: x in t <==> x in multiset(t);
  }

  lemma RepeatedTwice<T>(s: seq<T>, i: nat, j: nat)
    requires i < j < |s| && s[i] == s[j]
    ensures multiset(s)[s[i]] >= 2
  {
    assert s == s[..j] + s[j..];
    assert s[i] in multiset(s[..j]) && s[j] in multiset(s[j..]) by {
      assert s[..j][i] == s[i] && s[j..][0] == s[j];
    }
  }

  lemma {:induction false} OnceEach<T>(s: seq<T>, x: T)
    requires forall i, j | 0 <= i < j < |s| :: s[i] != s[j]
    ensures multiset(s)[x] <= 1
  {
    if s != [] {
      OnceEach(s[..|s| - 1], x);
      assert s == s[..|s| - 1] + [s[|s| - 1]];
    }
  }

  /** Admitting a hit into a tidy scope and enforcing the cap. */
  lemma GrownScope(d: Scope, key: string, trimmed: Bucket, now: real)
    requires TidyScope(d, now)
    ensures var grown := d.Put(key, trimmed + [now]);
      var evicted := Evicted(grown);
      && TidyScope(EnforceScopeCap(grown), now)
      && key !in evicted
      && (forall e, k | e in evicted && k in grown.buckets ::
            NewestHit(d.At(e)) <= NewestHit(grown.buckets[k]))
      && (evicted != {} ==> |EnforceScopeCap(grown).buckets| == MAX_KEYS_PER_SCOPE)
  {
    hide Evicted, OnlyIn, Distinct;
    var grown := d.Put(key, trimmed + [now]);
    PutValid(d, key, trimmed + [now]);
    var evicted := Evicted(grown);
    if |grown.buckets| <= MAX_KEYS_PER_SCOPE {
      WithinCap(grown);
      KeepTidy(grown, grown.buckets.Keys - evicted, now);
    } else {
      PutSize(d, key, trimmed + [now]);
      OneOverCap(grown, key, now);
      var victim :| victim in grown.buckets && evicted == {victim};
      KeepValid(grown, grown.buckets.Keys - evicted);
      assert EnforceScopeCap(grown).buckets.Keys == grown.buckets.Keys - {victim};
    }
  }

  lemma PutSize(d: Scope, key: string, bucket: Bucket)
    ensures |d.Put(key, bucket).buckets| == |d.buckets| + if key in d.buckets then 0 else 1
  {
    var grown := d.Put(key, bucket).buckets;
    assert grown.Keys == d.buckets.Keys + {key};
  }

  lemma WithinCap(d: Scope)
    requires |d.buckets| <= MAX_KEYS_PER_SCOPE
    ensures Evicted(d) == {}
  {
  }

  /** One call from a tidy state with a positive limit: it stays tidy, its own key is
      never evicted, and whatever is evicted was admitted no later than anything kept. */
  lemma AllowTidy(s: Store, scope: string, key: string, times: int, seconds: real, since: real, now: real)
    requires Tidy(s, since) && since <= now && times >= 1
    ensures var s' := AllowStep(s, scope, key, times, seconds, now).0;
      var evicted := EvictedBy(s, scope, key, times, seconds, now);
      && Tidy(s', now)
      && key !in evicted
      && (forall e, k | e in evicted && k in s'.ScopeAt(scope).buckets ::
            NewestHit(Prune(s, now).BucketAt(scope, e)) <= NewestHit(s'.BucketAt(scope, k)))
      && (evicted != {} ==> |s'.ScopeAt(scope).buckets| == 50_000)
  {
    PruneTidy(s, since, now);
    AdmitTidy(Prune(s, now), scope, key, times, seconds, now);
    hide Prune, Admit, Evicted, Tidy;
  }

  lemma AdmitTidy(swept: Store, scope: string, key: string, times: int, seconds: real, now: real)
    requires Tidy(swept, now) && times >= 1
    ensures var (s', allowed) := Admit(swept, scope, key, times, seconds, now);
      var trimmed := Trim(swept.BucketAt(scope, key), now - seconds);
      var grown := swept.ScopeAt(scope).Put(key, trimmed + [now]);
      && allowed == (|trimmed| < times)
      && Tidy(s', now)
      && (allowed ==> key !in Evicted(grown))
      && (allowed ==> forall e, k | e in Evicted(grown) && k in s'.ScopeAt(scope).buckets ::
            NewestHit(swept.BucketAt(scope, e)) <= NewestHit(s'.BucketAt(scope, k)))
      && (allowed && Evicted(grown) != {} ==> |s'.ScopeAt(scope).buckets| == MAX_KEYS_PER_SCOPE)
  {
    hide Evicted, Scope.Valid, OnlyIn;
    var d := swept.ScopeAt(scope);
    assert TidyScope(d, now) by { EmptyTidy(now); }
    var trimmed := Trim(d.At(key), now - seconds);
    TrimKeepsNewest(d.At(key), now - seconds);
    if |trimmed| < times {
      GrownScope(d, key, trimmed, now);
    } else {
      PutValid(d, key, trimmed);
      assert d.Put(key, trimmed).buckets.Keys == d.buckets.Keys;
      assert TidyScope(d.Put(key, trimmed), now);
    }
  }

  lemma EmptyTidy(now: real)
    ensures TidyScope(EMPTY_SCOPE, now)
  {
  }

  lemma {:induction false} TrimKeepsNewest(bucket: Bucket, cutoff: real)
    ensures Trim(bucket, cutoff) != [] ==> bucket != [] && NewestHit(Trim(bucket, cutoff)) == NewestHit(bucket)
    decreases |bucket|
  {
    if bucket != [] && bucket[0] <= cutoff {
      TrimKeepsNewest(bucket[1..], cutoff);
    }
  }

  /** Over every run whose limits are positive no scope exceeds the cap and no bucket is
      empty. (Every prefix of a run is a run, so this holds after each step.) */
  lemma {:induction false} RunStaysTidy(w: Windows, s: Store, ops: seq<Op>, since: real)
    requires Tidy(s, since) && InOrder(ops, since)
    requires forall i | 0 <= i < |ops| :: ops[i].Allow? ==> ops[i].times >= 1
    ensures Tidy(StoreRun(w, s, ops).0, ClockAtEnd(ops, since))
    decreases |ops|
  {
    hide AllowStep, EvictedBy, TidyScope;
    if ops != [] {
      var op := ops[0];
      var s' := StoreStep(w, s, op).0;
      assert Tidy(s', ClockAfter(op, since)) by {
        match op
        case Allow(scope, key, times, now, _) => AllowTidy(s, scope, key, times, w(scope), since, now);
        case Forget(scope, key) =>
          if scope in s.scopes {
            assert TidyScope(s.scopes[scope], since);
            KeepTidy(s.scopes[scope], s.scopes[scope].buckets.Keys - {key}, since);
          }
        case Reset =>
      }
      RunStaysTidy(w, s', ops[1..], ClockAfter(op, since));
    }
  }

  /** The positive limit is needed: a limit of zero denies, but leaves an empty bucket behind. */
  lemma ZeroLimitLeavesEmptyBucket()
    ensures var (s, allowed) := AllowStep(FRESH_STORE, "scope", "key", 0, 60.0, 1.0);
      !allowed && "key" in s.ScopeAt("scope").buckets && s.BucketAt("scope", "key") == []
  {
    assert Prune(FRESH_STORE, 1.0) == FRESH_STORE;
  }
}
