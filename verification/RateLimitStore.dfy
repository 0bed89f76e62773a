/** The in-memory sliding-window store: what one call does to the nested dict of
    deques, and the class that does it in place. */
module RateLimitStore {
  import opened Sorting

  const BUCKET_TTL_SECONDS := 3600.0
  const SWEEP_INTERVAL_SECONDS := 300.0
  const MAX_KEYS_PER_SCOPE := 50_000

  /** A key's deque of admission times, oldest first. */
  type Bucket = seq<real>

  /** One scope's dict. `order` is its insertion order, which Python's stable sort
      falls back on when two buckets were touched at the same instant. */
  datatype Scope = Scope(order: seq<string>, buckets: map<string, Bucket>) {
    ghost predicate Valid() {
      && Distinct(order)
      && (forall k :: k in order <==> k in buckets)
    }

    /** `keys[key]` under defaultdict(deque). */
    function At(key: string): Bucket {
      if key in buckets then buckets[key] else []
    }

    function Put(key: string, bucket: Bucket): Scope {
      Scope(if key in buckets then order else order + [key], buckets[key := bucket])
    }

    function Keep(keys: set<string>): Scope {
      Scope(OnlyIn(order, keys), map k | k in buckets && k in keys :: buckets[k])
    }

    /** `del keys[key]`, or nothing when the key is absent. */
    function Without(key: string): Scope {
      Keep(buckets.Keys - {key})
    }
  }

  const EMPTY_SCOPE := Scope([], map[])

  datatype Store = Store(scopes: map<string, Scope>, lastSweepAt: real) {
    ghost predicate Valid() {
      forall scope | scope in scopes :: scopes[scope].Valid()
    }

    function ScopeAt(scope: string): Scope {
      if scope in scopes then scopes[scope] else EMPTY_SCOPE
    }

    /** The bucket a call for (scope, key) would find. */
    function BucketAt(scope: string, key: string): Bucket {
      ScopeAt(scope).At(key)
    }
  }

  ghost predicate Distinct(s: seq<string>) {
    s == [] || (s[|s| - 1] !in s[..|s| - 1] && Distinct(s[..|s| - 1]))
  }

  function OnlyIn(s: seq<string>, keys: set<string>): seq<string> {
    if s == [] then []
    else if s[|s| - 1] in keys then OnlyIn(s[..|s| - 1], keys) + [s[|s| - 1]]
    else OnlyIn(s[..|s| - 1], keys)
  }

  // ----- what each operation does -----

  predicate Stale(bucket: Bucket, staleBefore: real) {
    bucket == [] || bucket[|bucket| - 1] <= staleBefore
  }

  function SweepScope(scope: Scope, staleBefore: real): Scope {
    scope.Keep(set k | k in scope.buckets && !Stale(scope.buckets[k], staleBefore))
  }

  function Sweep(scopes: map<string, Scope>, staleBefore: real): map<string, Scope> {
    map scope | scope in scopes && SweepScope(scopes[scope], staleBefore).buckets != map[]
      :: SweepScope(scopes[scope], staleBefore)
  }

  function Prune(s: Store, now: real): Store {
    if now - s.lastSweepAt < SWEEP_INTERVAL_SECONDS then s
    else Store(Sweep(s.scopes, now - BUCKET_TTL_SECONDS), now)
  }

  /** Popping the front of the deque while it is outside the window. */
  function Trim(bucket: Bucket, cutoff: real): Bucket {
    if bucket != [] && bucket[0] <= cutoff then Trim(bucket[1..], cutoff) else bucket
  }

  /** The dict's items, each ranked by its newest hit. */
  function Ranked(scope: Scope, order: seq<string>): (r: seq<Keyed<string>>)
    ensures |r| == |order|
    ensures forall i | 0 <= i < |order| :: r[i].item == order[i] && r[i].key == NewestHit(scope.At(order[i]))
  {
    seq(|order|, i requires 0 <= i < |order| => Keyed(NewestHit(scope.At(order[i])), order[i]))
  }

  function NewestHit(bucket: Bucket): real {
    if bucket == [] then 0.0 else bucket[|bucket| - 1]
  }

  /** The keys pushed out: the oldest-touched ones beyond the cap. */
  function Evicted(scope: Scope): set<string> {
    if |scope.buckets| <= MAX_KEYS_PER_SCOPE then {}
    else
      FirstItems(StableSort(Ranked(scope, scope.order)), |scope.buckets| - MAX_KEYS_PER_SCOPE)
  }

  /** The items of the slice `s[:n]`. */
  function FirstItems(s: seq<Keyed<string>>, n: nat): set<string> {
    if n == 0 then {}
    else FirstItems(s, n - 1) + (if n <= |s| then {s[n - 1].item} else {})
  }

  function EnforceScopeCap(scope: Scope): Scope {
    scope.Keep(scope.buckets.Keys - Evicted(scope))
  }

  /** The part of `allow` after the sweep. */
  function Admit(s: Store, scope: string, key: string, times: int, seconds: real, now: real): (Store, bool) {
    var bucket := Trim(s.BucketAt(scope, key), now - seconds);
    if |bucket| >= times then
      (s.(scopes := s.scopes[scope := s.ScopeAt(scope).Put(key, bucket)]), false)
    else
      var grown := s.ScopeAt(scope).Put(key, bucket + [now]);
      (s.(scopes := s.scopes[scope := EnforceScopeCap(grown)]), true)
  }

  function AllowStep(s: Store, scope: string, key: string, times: int, seconds: real, now: real): (Store, bool) {
    Admit(Prune(s, now), scope, key, times, seconds, now)
  }

  /** The keys of `scope` that this call pushes out. */
  function EvictedBy(s: Store, scope: string, key: string, times: int, seconds: real, now: real): set<string> {
    var s := Prune(s, now);
    var bucket := Trim(s.BucketAt(scope, key), now - seconds);
    if |bucket| >= times then {} else Evicted(s.ScopeAt(scope).Put(key, bucket + [now]))
  }

  function ForgetStep(s: Store, scope: string, key: string): Store {
    if scope in s.scopes then s.(scopes := s.scopes[scope := s.scopes[scope].Without(key)]) else s
  }

  const FRESH_STORE := Store(map[], 0.0)

  // ----- dict bookkeeping -----

  lemma {:induction false} OnlyInMembers(s: seq<string>, keys: set<string>)
    ensures forall k :: k in OnlyIn(s, keys) <==> k in s && k in keys
  {
    if s != [] {
      OnlyInMembers(s[..|s| - 1], keys);
      assert s == s[..|s| - 1] + [s[|s| - 1]];
    }
  }

  lemma {:induction false} OnlyInTwice(s: seq<string>, a: set<string>, b: set<string>)
    ensures OnlyIn(OnlyIn(s, a), b) == OnlyIn(s, a * b)
  {
    if s != [] {
      var front := OnlyIn(s[..|s| - 1], a);
      OnlyInTwice(s[..|s| - 1], a, b);
      assert (front + [s[|s| - 1]])[..|front|] == front;
    }
  }

  lemma {:induction false} OnlyInAll(s: seq<string>, keys: set<string>)
    requires forall k | k in s :: k in keys
    ensures OnlyIn(s, keys) == s
  {
    if s != [] {
      OnlyInAll(s[..|s| - 1], keys);
    }
  }

  lemma {:induction false} OnlyInDistinct(s: seq<string>, keys: set<string>)
    requires Distinct(s)
    ensures Distinct(OnlyIn(s, keys))
  {
    if s != [] {
      var front := OnlyIn(s[..|s| - 1], keys);
      OnlyInDistinct(s[..|s| - 1], keys);
      OnlyInMembers(s[..|s| - 1], keys);
      assert (front + [s[|s| - 1]])[..|front|] == front;
    }
  }

  lemma KeepValid(scope: Scope, keys: set<string>)
    requires scope.Valid()
    ensures scope.Keep(keys).Valid()
  {
    OnlyInDistinct(scope.order, keys);
    OnlyInMembers(scope.order, keys);
  }

  lemma KeepAll(scope: Scope)
    requires scope.Valid()
    ensures scope.Keep(scope.buckets.Keys) == scope
  {
    OnlyInAll(scope.order, scope.buckets.Keys);
  }

  lemma KeepWithout(scope: Scope, keys: set<string>, key: string)
    requires keys <= scope.buckets.Keys
    ensures scope.Keep(keys).Without(key) == scope.Keep(keys - {key})
  {
    var kept := scope.Keep(keys);
    assert kept.buckets.Keys == keys;
    OnlyInTwice(scope.order, keys, keys - {key});
    assert keys * (keys - {key}) == keys - {key};
  }

  lemma PutValid(scope: Scope, key: string, bucket: Bucket)
    requires scope.Valid()
    ensures scope.Put(key, bucket).Valid()
  {
    assert (scope.order + [key])[..|scope.order|] == scope.order;
  }

  lemma {:induction false} DistinctEntries(s: seq<string>)
    requires Distinct(s)
    ensures forall i, j | 0 <= i < j < |s| :: s[i] != s[j]
  {
    if s != [] {
      DistinctEntries(s[..|s| - 1]);
    }
  }

  lemma {:induction false} OrderLength(s: seq<string>)
    requires Distinct(s)
    ensures |set k | k in s| == |s|
  {
    if s != [] {
      var front := s[..|s| - 1];
      OrderLength(front);
      assert (set k | k in s) == (set k | k in front) + {s[|s| - 1]};
    }
  }

  // ----- the class -----

  class MemoryRateLimitStore {
    var hits: map<string, Scope>
    var lastSweepAt: real

    ghost function State(): Store
      reads this
    {
      Store(hits, lastSweepAt)
    }

    ghost predicate Valid()
      reads this
    {
      State().Valid()
    }

    constructor ()
      ensures Valid() && State() == FRESH_STORE
    {
      hits, lastSweepAt := map[], 0.0;
    }

    method PruneBuckets(now: real)
      requires Valid()
      modifies this
      ensures Valid() && State() == Prune(old(State()), now)
    {
      if now - lastSweepAt < SWEEP_INTERVAL_SECONDS {
        return;
      }
      lastSweepAt := now;
      hits := DropStaleScopes(hits, now - BUCKET_TTL_SECONDS);
    }

    static method DropStaleScopes(hits: map<string, Scope>, staleBefore: real) returns (live: map<string, Scope>)
      requires forall scope | scope in hits :: hits[scope].Valid()
      ensures live == Sweep(hits, staleBefore)
      ensures forall scope | scope in live :: live[scope].Valid()
    {
      hide Distinct, Scope.Keep;
      live := hits;
      ghost var swept := Sweep(hits, staleBefore);
      var todo := hits.Keys;
      while todo != {}
        invariant todo <= hits.Keys
        invariant live.Keys == swept.Keys + todo
        invariant forall scope | scope in todo :: live[scope] == hits[scope]
        invariant forall scope | scope in live && scope !in todo :: live[scope] == swept[scope] && live[scope].Valid()
      {
        var scope :| scope in todo;
        var kept := DropStaleBuckets(hits[scope], staleBefore);
        if kept.buckets == map[] {
          live := live - {scope};
        } else {
          live := live[scope := kept];
        }
        todo := todo - {scope};
      }
    }

    static method DropStaleBuckets(scope: Scope, staleBefore: real) returns (live: Scope)
      requires scope.Valid()
      ensures live == SweepScope(scope, staleBefore) && live.Valid()
    {
      hide OnlyIn;
      live := scope;
      KeepAll(scope);
      DistinctEntries(scope.order);
      ghost var kept := scope.buckets.Keys;
      for i := 0 to |scope.order|
        invariant kept <= scope.buckets.Keys && live == scope.Keep(kept)
        invariant forall j | 0 <= j < i ::
                    scope.order[j] in kept <==> !Stale(scope.buckets[scope.order[j]], staleBefore)
        invariant forall j | i <= j < |scope.order| :: scope.order[j] in kept
      {
        var key := scope.order[i];
        if Stale(scope.buckets[key], staleBefore) {
          KeepWithout(scope, kept, key);
          live := live.Without(key);
          kept := kept - {key};
        }
      }
      assert kept == set k | k in scope.buckets && !Stale(scope.buckets[k], staleBefore);
      KeepValid(scope, kept);
    }

    method EnforceCap(scope: string)
      requires Valid() && scope in hits
      modifies this`hits
      ensures Valid() && hits == old(hits)[scope := EnforceScopeCap(old(hits)[scope])]
    {
      var keys := DropOldest(hits[scope]);
      hits := hits[scope := keys];
    }

    static method DropOldest(keys: Scope) returns (live: Scope)
      requires keys.Valid()
      ensures live == EnforceScopeCap(keys) && live.Valid()
    {
      hide Scope.Keep, StableSort, Ranked;
      live := keys;
      KeepAll(keys);
      ghost var gone := {};
      assert keys.buckets.Keys - gone == keys.buckets.Keys;
      if |keys.buckets| > MAX_KEYS_PER_SCOPE {
        OrderLength(keys.order);
        assert (set k | k in keys.order) == keys.buckets.Keys;
        var oldestFirst := StableSort(Ranked(keys, keys.order));
        for i := 0 to |keys.buckets| - MAX_KEYS_PER_SCOPE
          invariant gone == FirstItems(oldestFirst, i)
          invariant live == keys.Keep(keys.buckets.Keys - gone)
        {
          var key := oldestFirst[i].item;
          KeepWithout(keys, keys.buckets.Keys - gone, key);
          live := live.Without(key);
          assert keys.buckets.Keys - gone - {key} == keys.buckets.Keys - (gone + {key});
          gone := gone + {key};
        }
      }
      KeepValid(keys, keys.buckets.Keys - gone);
    }

    method Allow(scope: string, key: string, times: int, seconds: real, now: real) returns (allowed: bool)
      requires Valid()
      modifies this
      ensures Valid()
      ensures (State(), allowed) == AllowStep(old(State()), scope, key, times, seconds, now)
    {
      hide Sweep, EnforceScopeCap, Evicted, Distinct, Scope.Valid;
      PruneBuckets(now);
      ghost var swept := State();
      var keys := if scope in hits then hits[scope] else EMPTY_SCOPE;
      var bucket := keys.At(key);
      var cutoff := now - seconds;
      while bucket != [] && bucket[0] <= cutoff
        invariant Trim(bucket, cutoff) == Trim(swept.BucketAt(scope, key), cutoff)
        decreases |bucket|
      {
        bucket := bucket[1..];
      }
      if |bucket| >= times {
        PutValid(keys, key, bucket);
        hits := hits[scope := keys.Put(key, bucket)];
        return false;
      }
      PutValid(keys, key, bucket + [now]);
      hits := hits[scope := keys.Put(key, bucket + [now])];
      EnforceCap(scope);
      assert hits == swept.scopes[scope := EnforceScopeCap(keys.Put(key, bucket + [now]))];
      return true;
    }

    method Forget(scope: string, key: string)
      requires Valid()
      modifies this
      ensures Valid() && State() == ForgetStep(old(State()), scope, key)
    {
      if scope in hits {
        KeepValid(hits[scope], hits[scope].buckets.Keys - {key});
        hits := hits[scope := hits[scope].Without(key)];
      }
    }

    method Reset()
      modifies this
      ensures Valid() && State() == FRESH_STORE
    {
      hits, lastSweepAt := map[], 0.0;
    }
  }
}
