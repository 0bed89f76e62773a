/** The specification of the limiter, a full log of admitted hits, and the proof that
    the trimmed, swept and capped store gives that log's answers over every run. */
module RateLimitLedger {
  import opened RateLimitStore

  /** One admitted hit. `member` is the unique tag the shared store files it under. */
  datatype Hit = Hit(at: real, member: string)

  type History = seq<Hit>

  /** Every hit admitted for a (scope, key) since its history was last dropped. */
  type Ledger = map<(string, string), History>

  /** The fixed window length of each scope, in seconds. */
  type Windows = string -> real

  datatype Op =
    | Allow(scope: string, key: string, times: int, now: real, member: string)
    | Forget(scope: string, key: string)
    | Reset

  function HistoryOf(l: Ledger, scope: string, key: string): History {
    if (scope, key) in l then l[(scope, key)] else []
  }

  /** How many hits are later than `cutoff`. */
  function CountAfter(h: History, cutoff: real): (n: nat)
    ensures n <= |h|
  {
    if h == [] then 0
    else CountAfter(h[..|h| - 1], cutoff) + (if h[|h| - 1].at > cutoff then 1 else 0)
  }

  function DropKeys(l: Ledger, scope: string, keys: set<string>): Ledger {
    map p | p in l && !(p.0 == scope && p.1 in keys) :: l[p]
  }

  /** A sliding-window log: deny iff `times` admitted hits are still inside the window.
      `evicted` are the keys of the scope whose history is dropped under key pressure. */
  function LedgerStep(w: Windows, l: Ledger, op: Op, evicted: set<string>): (Ledger, bool) {
    match op
    case Allow(scope, key, times, now, member) =>
      var h := HistoryOf(l, scope, key);
      if CountAfter(h, now - w(scope)) >= times then (l, false)
      else (DropKeys(l[(scope, key) := h + [Hit(now, member)]], scope, evicted), true)
    case Forget(scope, key) => (DropKeys(l, scope, {key}), true)
    case Reset => (map[], true)
  }

  function StoreStep(w: Windows, s: Store, op: Op): (Store, bool) {
    match op
    case Allow(scope, key, times, now, _) => AllowStep(s, scope, key, times, w(scope), now)
    case Forget(scope, key) => (ForgetStep(s, scope, key), true)
    case Reset => (FRESH_STORE, true)
  }

  function EvictedKeys(w: Windows, s: Store, op: Op): set<string> {
    match op
    case Allow(scope, key, times, now, _) => EvictedBy(s, scope, key, times, w(scope), now)
    case _ => {}
  }

  // ----- runs -----

  function StoreRun(w: Windows, s: Store, ops: seq<Op>): (Store, seq<bool>)
    decreases |ops|
  {
    if ops == [] then (s, [])
    else
      var step := StoreStep(w, s, ops[0]);
      var rest := StoreRun(w, step.0, ops[1..]);
      (rest.0, [step.1] + rest.1)
  }

  /** The keys the store evicts at each step of a run. */
  function Evictions(w: Windows, s: Store, ops: seq<Op>): (e: seq<set<string>>)
    ensures |e| == |ops|
    decreases |ops|
  {
    if ops == [] then []
    else [EvictedKeys(w, s, ops[0])] + Evictions(w, StoreStep(w, s, ops[0]).0, ops[1..])
  }

  function LedgerRun(w: Windows, l: Ledger, ops: seq<Op>, evictions: seq<set<string>>): (Ledger, seq<bool>)
    requires |evictions| == |ops|
    decreases |ops|
  {
    if ops == [] then (l, [])
    else
      var step := LedgerStep(w, l, ops[0], evictions[0]);
      var rest := LedgerRun(w, step.0, ops[1..], evictions[1..]);
      (rest.0, [step.1] + rest.1)
  }

  /** Clock readings never go back. */
  ghost predicate InOrder(ops: seq<Op>, since: real) {
    ops == [] ||
    if ops[0].Allow? then since <= ops[0].now && InOrder(ops[1..], ops[0].now)
    else InOrder(ops[1..], since)
  }

  function ClockAfter(op: Op, since: real): real {
    if op.Allow? then op.now else since
  }

  function ClockAtEnd(ops: seq<Op>, since: real): real {
    if ops == [] then since else ClockAtEnd(ops[1..], ClockAfter(ops[0], since))
  }

  // ----- agreement of store and log -----

  ghost predicate Ordered(h: History, now: real) {
    (forall i, j | 0 <= i <= j < |h| :: h[i].at <= h[j].at) && (h != [] ==> h[|h| - 1].at <= now)
  }

  /** The bucket is a tail of the history, and what it lacks has left the window. */
  ghost predicate Covers(bucket: Bucket, h: History, cutoff: real) {
    && |bucket| <= |h|
    && (forall i | 0 <= i < |bucket| :: bucket[i] == h[|h| - |bucket| + i].at)
    && (forall i | 0 <= i < |h| - |bucket| :: h[i].at <= cutoff)
  }

  ghost predicate AgreeOn(s: Store, l: Ledger, scope: string, key: string, window: real, now: real) {
    Ordered(HistoryOf(l, scope, key), now) &&
    Covers(s.BucketAt(scope, key), HistoryOf(l, scope, key), now - window)
  }

  ghost predicate Agree(w: Windows, s: Store, l: Ledger, now: real) {
    forall scope, key :: AgreeOn(s, l, scope, key, w(scope), now)
  }

  ghost predicate WindowsWithinTtl(w: Windows) {
    forall scope :: w(scope) <= BUCKET_TTL_SECONDS
  }

  // ----- bucket-level lemmas -----

  lemma {:induction false} CountOfTail(h: History, n: nat, cutoff: real)
    requires n <= |h|
    requires forall i | 0 <= i < |h| - n :: h[i].at <= cutoff
    requires forall i | |h| - n <= i < |h| :: h[i].at > cutoff
    ensures CountAfter(h, cutoff) == n
  {
    if h != [] {
      CountOfTail(h[..|h| - 1], if n == 0 then 0 else n - 1, cutoff);
    }
  }

  /** Trimming a covering bucket leaves exactly the hits inside the window. */
  lemma {:induction false} TrimCounts(bucket: Bucket, h: History, cutoff: real, now: real)
    requires Ordered(h, now) && Covers(bucket, h, cutoff)
    ensures Covers(Trim(bucket, cutoff), h, cutoff)
    ensures |Trim(bucket, cutoff)| == CountAfter(h, cutoff)
    decreases |bucket|
  {
    if bucket != [] && bucket[0] <= cutoff {
      TrimCounts(bucket[1..], h, cutoff, now);
    } else {
      forall i | |h| - |bucket| <= i < |h| ensures h[i].at > cutoff {
        assert bucket[0] == h[|h| - |bucket|].at;
      }
      CountOfTail(h, |bucket|, cutoff);
    }
  }

  lemma CoversLater(bucket: Bucket, h: History, cutoff: real, later: real)
    requires Covers(bucket, h, cutoff) && cutoff <= later
    ensures Covers(bucket, h, later)
  {
  }

  /** Sweeping a bucket away is covered by its hits having left every window. */
  lemma StaleIsCovered(bucket: Bucket, h: History, cutoff: real, now: real)
    requires Ordered(h, now) && Covers(bucket, h, cutoff)
    requires Stale(bucket, cutoff)
    ensures Covers([], h, cutoff)
  {
    forall i | 0 <= i < |h| ensures h[i].at <= cutoff {
      if |h| - |bucket| <= i {
        assert bucket[|bucket| - 1] == h[|h| - 1].at;
      }
    }
  }

  // ----- how the store's operations move buckets -----

  lemma PrunedBucket(s: Store, now: real, scope: string, key: string)
    ensures var b, b' := s.BucketAt(scope, key), Prune(s, now).BucketAt(scope, key);
      b' == b || (b' == [] && Stale(b, now - BUCKET_TTL_SECONDS))
  {
    hide OnlyIn;
    if scope in s.scopes && now - s.lastSweepAt >= SWEEP_INTERVAL_SECONDS {
      var kept := SweepScope(s.scopes[scope], now - BUCKET_TTL_SECONDS);
      if key in kept.buckets {
        assert kept.buckets != map[];
      }
    }
  }

  /** Every bucket after a call, in terms of the swept buckets before it. */
  lemma AllowedBuckets(s: Store, scope: string, key: string, times: int, seconds: real, now: real)
    ensures var swept := Prune(s, now);
      var trimmed := Trim(swept.BucketAt(scope, key), now - seconds);
      var (s', allowed) := AllowStep(s, scope, key, times, seconds, now);
      var evicted := EvictedBy(s, scope, key, times, seconds, now);
      && allowed == (|trimmed| < times)
      && (!allowed ==> evicted == {})
      && (forall scope', key' | scope' != scope :: s'.BucketAt(scope', key') == swept.BucketAt(scope', key'))
      && (forall key' | key' in evicted :: s'.BucketAt(scope, key') == [])
      && (forall key' | key' !in evicted && key' != key :: s'.BucketAt(scope, key') == swept.BucketAt(scope, key'))
      && (key !in evicted ==> s'.BucketAt(scope, key) == if allowed then trimmed + [now] else trimmed)
  {
    hide Prune, OnlyIn, Evicted;
  }

  // ----- the refinement -----

  lemma PrunePreservesAgreement(w: Windows, s: Store, l: Ledger, since: real, now: real)
    requires Agree(w, s, l, since) && since <= now && WindowsWithinTtl(w)
    ensures Agree(w, Prune(s, now), l, now)
  {
    hide Prune, Store.BucketAt;
    forall scope, key ensures AgreeOn(Prune(s, now), l, scope, key, w(scope), now) {
      assert AgreeOn(s, l, scope, key, w(scope), since);
      var b, h := s.BucketAt(scope, key), HistoryOf(l, scope, key);
      CoversLater(b, h, since - w(scope), now - w(scope));
      PrunedBucket(s, now, scope, key);
      if Prune(s, now).BucketAt(scope, key) != b {
        StaleIsCovered(b, h, now - w(scope), now);
      }
    }
  }

  /** One step: the store answers as the log does, and still agrees with it. */
  lemma StepRefines(w: Windows, s: Store, l: Ledger, op: Op, since: real)
    requires Agree(w, s, l, since) && WindowsWithinTtl(w)
    requires op.Allow? ==> since <= op.now
    ensures StoreStep(w, s, op).1 == LedgerStep(w, l, op, EvictedKeys(w, s, op)).1
    ensures Agree(w, StoreStep(w, s, op).0, LedgerStep(w, l, op, EvictedKeys(w, s, op)).0, ClockAfter(op, since))
  {
    match op
    case Allow(scope, key, times, now, member) => AllowRefines(w, s, l, op, since);
    case Forget(scope, key) => ForgetRefines(w, s, l, scope, key, since);
    case Reset =>
  }

  lemma ForgetRefines(w: Windows, s: Store, l: Ledger, scope: string, key: string, since: real)
    requires Agree(w, s, l, since)
    ensures Agree(w, ForgetStep(s, scope, key), DropKeys(l, scope, {key}), since)
  {
    hide OnlyIn;
    forall scope', key'
      ensures AgreeOn(ForgetStep(s, scope, key), DropKeys(l, scope, {key}), scope', key', w(scope'), since)
    {
      assert AgreeOn(s, l, scope', key', w(scope'), since);
      if (scope', key') == (scope, key) {
        assert ForgetStep(s, scope, key).BucketAt(scope, key) == [];
      } else {
        assert ForgetStep(s, scope, key).BucketAt(scope', key') == s.BucketAt(scope', key');
      }
    }
  }

  lemma AllowRefines(w: Windows, s: Store, l: Ledger, op: Op, since: real)
    requires Agree(w, s, l, since) && WindowsWithinTtl(w)
    requires op.Allow? && since <= op.now
    ensures StoreStep(w, s, op).1 == LedgerStep(w, l, op, EvictedKeys(w, s, op)).1
    ensures Agree(w, StoreStep(w, s, op).0, LedgerStep(w, l, op, EvictedKeys(w, s, op)).0, op.now)
  {
    hide StoreStep, LedgerStep, EvictedKeys, Prune;
    PrunePreservesAgreement(w, s, l, since, op.now);
    AllowAnswers(w, s, l, op);
    forall scope, key {
      AllowAgreesOn(w, s, l, op, scope, key);
    }
  }

  lemma AllowAnswers(w: Windows, s: Store, l: Ledger, op: Op)
    requires op.Allow? && Agree(w, Prune(s, op.now), l, op.now)
    ensures var Allow(scope, key, times, now, _) := op;
      var trimmed := Trim(Prune(s, now).BucketAt(scope, key), now - w(scope));
      && Covers(trimmed, HistoryOf(l, scope, key), now - w(scope))
      && StoreStep(w, s, op).1 == LedgerStep(w, l, op, EvictedKeys(w, s, op)).1
  {
    hide Prune, AllowStep, EvictedBy, Store.BucketAt;
    var Allow(scope, key, times, now, _) := op;
    assert AgreeOn(Prune(s, now), l, scope, key, w(scope), now);
    TrimCounts(Prune(s, now).BucketAt(scope, key), HistoryOf(l, scope, key), now - w(scope), now);
    AllowedBuckets(s, scope, key, times, w(scope), now);
  }

  lemma AllowAgreesOn(w: Windows, s: Store, l: Ledger, op: Op, scope: string, key: string)
    requires op.Allow? && Agree(w, Prune(s, op.now), l, op.now)
    ensures AgreeOn(StoreStep(w, s, op).0, LedgerStep(w, l, op, EvictedKeys(w, s, op)).0, scope, key, w(scope), op.now)
  {
    hide Prune, AllowStep, EvictedBy, Store.BucketAt, HistoryOf, Trim, Covers, Ordered, CountAfter;
    var swept, h := Prune(s, op.now), HistoryOf(l, scope, key);
    var evicted := EvictedKeys(w, s, op);
    AllowAnswers(w, s, l, op);
    AllowedBuckets(s, op.scope, op.key, op.times, w(op.scope), op.now);
    LoggedHistories(w, l, op, evicted);
    assert AgreeOn(swept, l, scope, key, w(scope), op.now);
    var s', allowed := StoreStep(w, s, op).0, StoreStep(w, s, op).1;
    var l' := LedgerStep(w, l, op, evicted).0;
    assert (s', allowed) == AllowStep(s, op.scope, op.key, op.times, w(op.scope), op.now);
    assert evicted == EvictedBy(s, op.scope, op.key, op.times, w(op.scope), op.now);
    hide LedgerStep, StoreStep, EvictedKeys;
    if scope == op.scope && key in evicted {
      assert s'.BucketAt(scope, key) == [] && HistoryOf(l', scope, key) == [];
      EmptyCovers(op.now - w(scope), op.now);
    } else if scope == op.scope && key == op.key {
      var trimmed := Trim(swept.BucketAt(scope, key), op.now - w(scope));
      assert Covers(trimmed, h, op.now - w(scope));
      if allowed {
        AppendCovers(trimmed, h, Hit(op.now, op.member), op.now - w(scope), op.now);
        assert HistoryOf(l', scope, key) == h + [Hit(op.now, op.member)];
      }
    } else {
      assert s'.BucketAt(scope, key) == swept.BucketAt(scope, key) && HistoryOf(l', scope, key) == h;
    }
  }

  lemma EmptyCovers(cutoff: real, now: real)
    ensures Ordered([], now) && Covers([], [], cutoff)
  {
  }

  lemma AppendCovers(bucket: Bucket, h: History, hit: Hit, cutoff: real, now: real)
    requires Ordered(h, now) && Covers(bucket, h, cutoff) && hit.at == now
    ensures Ordered(h + [hit], now) && Covers(bucket + [now], h + [hit], cutoff)
  {
  }

  /** What one allowed or denied call does to each history of the log. */
  lemma LoggedHistories(w: Windows, l: Ledger, op: Op, evicted: set<string>)
    requires op.Allow?
    ensures var Allow(scope, key, times, now, member) := op;
      var (l', allowed) := LedgerStep(w, l, op, evicted);
      && allowed == (CountAfter(HistoryOf(l, scope, key), now - w(scope)) < times)
      && (forall scope', key' | scope' != scope :: HistoryOf(l', scope', key') == HistoryOf(l, scope', key'))
      && (forall key' | key' !in evicted && key' != key :: HistoryOf(l', scope, key') == HistoryOf(l, scope, key'))
      && (!allowed ==> l' == l)
      && (allowed ==> forall key' | key' in evicted :: HistoryOf(l', scope, key') == [])
      && (allowed && key !in evicted ==> HistoryOf(l', scope, key) == HistoryOf(l, scope, key) + [Hit(now, member)])
  {
  }

  /** Over every run with non-decreasing clock readings the swept, trimmed and capped
      store gives, step by step, the answers of the full log. */
  lemma {:induction false} StoreRefinesLedger(w: Windows, s: Store, l: Ledger, ops: seq<Op>, since: real)
    requires Agree(w, s, l, since) && WindowsWithinTtl(w) && InOrder(ops, since)
    ensures StoreRun(w, s, ops).1 == LedgerRun(w, l, ops, Evictions(w, s, ops)).1
    decreases |ops|
  {
    if ops != [] {
      StepRefines(w, s, l, ops[0], since);
      var s', l' := StoreStep(w, s, ops[0]).0, LedgerStep(w, l, ops[0], EvictedKeys(w, s, ops[0])).0;
      StoreRefinesLedger(w, s', l', ops[1..], ClockAfter(ops[0], since));
      assert Evictions(w, s, ops)[1..] == Evictions(w, s', ops[1..]);
    }
  }
}
