/** The shared store: the Lua script over one sorted set per key, and its agreement with
    the log and hence with the in-memory store. */
module RateLimitRedis {
  import opened RateLimitStore
  import opened RateLimitLedger

  /** A sorted set, member -> score, with the key's expiry time. */
  datatype Zset = Zset(members: map<string, real>, expireAt: real)

  type Database = map<string, Zset>

  const KEY_PREFIX := "ratelimit:"

  function RedisKey(scope: string, key: string): string {
    KEY_PREFIX + scope + ":" + key
  }

  function Ceil(x: real): int {
    -((-x).Floor)
  }

  /** The members still there at `now`: an expired key is gone. */
  function Live(db: Database, k: string, now: real): map<string, real> {
    if k in db && now < db[k].expireAt then db[k].members else map[]
  }

  /** What ZREMRANGEBYSCORE up to and including now - window leaves. */
  function Trimmed(db: Database, k: string, window: real, now: real): map<string, real> {
    var live := Live(db, k, now);
    map m | m in live && live[m] > now - window :: live[m]
  }

  /** An empty sorted set is no key at all. */
  function Save(db: Database, k: string, z: Zset): Database {
    if z.members == map[] then db - {k} else db[k := z]
  }

  /** The Lua script: trim inclusively, count, and add only when there is room. Only an
      added hit renews the expiry. */
  function Script(db: Database, k: string, now: real, window: real, limit: int, member: string): (Database, bool) {
    var trimmed := Trimmed(db, k, window, now);
    if |trimmed| >= limit then
      (Save(db, k, Zset(trimmed, if k in db then db[k].expireAt else now)), false)
    else
      (db[k := Zset(trimmed[member := now], now + (Ceil(window) + 1) as real)], true)
  }

  function RedisStep(w: Windows, db: Database, op: Op): (Database, bool) {
    match op
    case Allow(scope, key, times, now, member) => Script(db, RedisKey(scope, key), now, w(scope), times, member)
    case Forget(scope, key) => (db - {RedisKey(scope, key)}, true)
    case Reset => (map k | k in db && !(KEY_PREFIX <= k) :: db[k], true)
  }

  /** The client of the shared database. When a call cannot be served it fails open. */
  class RedisRateLimitStore {
    var db: Database

    constructor (db: Database)
      ensures this.db == db
    {
      this.db := db;
    }

    method Allow(scope: string, key: string, times: int, seconds: real, now: real, member: string, reachable: bool)
      returns (allowed: bool)
      modifies this
      ensures reachable ==> (db, allowed) == Script(old(db), RedisKey(scope, key), now, seconds, times, member)
      ensures !reachable ==> allowed && db == old(db)
    {
      if !reachable {
        return true;
      }
      var step := Script(db, RedisKey(scope, key), now, seconds, times, member);
      db := step.0;
      return step.1;
    }

    method Forget(scope: string, key: string, reachable: bool)
      modifies this
      ensures db == if reachable then old(db) - {RedisKey(scope, key)} else old(db)
    {
      if reachable {
        db := db - {RedisKey(scope, key)};
      }
    }

    /** Deletes this limiter's keys one by one, never the rest of the database. */
    method Reset(reachable: bool)
      modifies this
      ensures db == if reachable then map k | k in old(db) && !(KEY_PREFIX <= k) :: old(db)[k] else old(db)
    {
      if !reachable {
        return;
      }
      var todo := set k | k in db && KEY_PREFIX <= k;
      while todo != {}
        invariant todo <= db.Keys <= old(db).Keys
        invariant forall k | k in todo :: KEY_PREFIX <= k
        invariant forall k | k in old(db) :: k in db <==> !(KEY_PREFIX <= k) || k in todo
        invariant forall k | k in db :: db[k] == old(db)[k]
      {
        var k :| k in todo;
        db := db - {k};
        todo := todo - {k};
      }
    }
  }

  // ----- keys -----

  /** Scope names without a colon give every (scope, key) its own database key. */
  lemma KeysAreDistinct(scope1: string, key1: string, scope2: string, key2: string)
    requires ':' !in scope1 && ':' !in scope2
    ensures RedisKey(scope1, key1) == RedisKey(scope2, key2) <==> scope1 == scope2 && key1 == key2
  {
    if RedisKey(scope1, key1) == RedisKey(scope2, key2) {
      var a, b := scope1 + ":" + key1, scope2 + ":" + key2;
      assert RedisKey(scope1, key1)[|KEY_PREFIX|..] == a;
      assert RedisKey(scope2, key2)[|KEY_PREFIX|..] == b;
      FirstColon(scope1, key1, scope2, key2);
    }
  }

  lemma FirstColon(scope1: string, key1: string, scope2: string, key2: string)
    requires ':' !in scope1 && ':' !in scope2
    requires scope1 + ":" + key1 == scope2 + ":" + key2
    ensures scope1 == scope2 && key1 == key2
  {
    var a, b := scope1 + ":" + key1, scope2 + ":" + key2;
    assert a[|scope1|] == ':' && b[|scope2|] == ':';
    assert |scope1| == |scope2|;
    assert a[..|scope1|] == scope1 && b[..|scope2|] == scope2;
    assert a[|scope1| + 1..] == key1 && b[|scope2| + 1..] == key2;
  }

  // ----- agreement with the log -----

  ghost predicate DistinctMembers(h: History) {
    forall i, j | 0 <= i < j < |h| :: h[i].member != h[j].member
  }

  /** The sorted set holds every hit still inside the window, nothing but logged hits,
      and does not expire before its hits have left the window. */
  ghost predicate Holds(db: Database, k: string, h: History, window: real, now: real) {
    && (forall i | 0 <= i < |h| && h[i].at > now - window ::
          k in db && h[i].member in db[k].members)
    && (k in db ==> forall m | m in db[k].members ::
          db[k].members[m] + window <= db[k].expireAt &&
          exists i :: 0 <= i < |h| && h[i] == Hit(db[k].members[m], m))
  }

  ghost predicate RedisAgreeOn(db: Database, l: Ledger, scope: string, key: string, window: real, now: real,
                               used: set<string>) {
    var h := HistoryOf(l, scope, key);
    && Ordered(h, now) && DistinctMembers(h)
    && (forall i | 0 <= i < |h| :: h[i].member in used)
    && Holds(db, RedisKey(scope, key), h, window, now)
  }

  /** The (scope, key) pairs in use. */
  type Pairs = iset<(string, string)>

  /** No two pairs in use share a database key. */
  ghost predicate KeysDistinctOn(pairs: Pairs) {
    forall p, q | p in pairs && q in pairs && RedisKey(p.0, p.1) == RedisKey(q.0, q.1) :: p == q
  }

  ghost predicate RedisAgree(w: Windows, db: Database, l: Ledger, pairs: Pairs, now: real, used: set<string>) {
    forall scope, key | (scope, key) in pairs :: RedisAgreeOn(db, l, scope, key, w(scope), now, used)
  }

  function MembersAfter(h: History, cutoff: real): set<string> {
    set i | 0 <= i < |h| && h[i].at > cutoff :: h[i].member
  }

  lemma {:induction false} MembersAfterSize(h: History, cutoff: real)
    requires DistinctMembers(h)
    ensures |MembersAfter(h, cutoff)| == CountAfter(h, cutoff)
  {
    if h != [] {
      MembersAfterSize(h[..|h| - 1], cutoff);
      MembersAfterLast(h, cutoff);
      hide MembersAfter, DistinctMembers;
    }
  }

  lemma MembersAfterLast(h: History, cutoff: real)
    requires DistinctMembers(h) && h != []
    ensures var front, last := MembersAfter(h[..|h| - 1], cutoff), h[|h| - 1];
            MembersAfter(h, cutoff) == (if last.at > cutoff then front + {last.member} else front)
                && last.member !in front
  {
    var front, last := h[..|h| - 1], h[|h| - 1];
    forall m
      ensures m in MembersAfter(h, cutoff)
         <==> m in MembersAfter(front, cutoff) || (last.at > cutoff && m == last.member)
    {
      if i :| 0 <= i < |front| && front[i].at > cutoff && front[i].member == m { assert h[i] == front[i]; }
      if i :| 0 <= i < |h| && h[i].at > cutoff && h[i].member == m {
        if i < |front| { assert h[i] == front[i]; }
      }
    }
  }

  /** `members` are exactly the hits of `h` later than the cutoff, with their times. */
  ghost predicate IsWindow(members: map<string, real>, h: History, cutoff: real) {
    && (forall i | 0 <= i < |h| && h[i].at > cutoff :: h[i].member in members)
    && (forall m | m in members :: exists i :: 0 <= i < |h| && h[i] == Hit(members[m], m))
  }

  ghost predicate GoneBy(members: map<string, real>, window: real, expireAt: real) {
    forall m | m in members :: members[m] + window <= expireAt
  }

  /** After trimming, the sorted set is exactly the window of the log. */
  lemma TrimmedIsWindow(db: Database, k: string, h: History, window: real, since: real, now: real)
    requires Holds(db, k, h, window, since) && DistinctMembers(h) && since <= now
    ensures var trimmed := Trimmed(db, k, window, now);
      && IsWindow(trimmed, h, now - window)
      && (forall m | m in trimmed :: trimmed[m] > now - window)
      && |trimmed| == CountAfter(h, now - window)
      && (trimmed != map[] ==> k in db && GoneBy(trimmed, window, db[k].expireAt))
  {
    var trimmed := Trimmed(db, k, window, now);
    forall i | 0 <= i < |h| && h[i].at > now - window ensures h[i].member in trimmed {
      var j :| 0 <= j < |h| && h[j] == Hit(db[k].members[h[i].member], h[i].member);
      assert i == j;
    }
    WindowSize(trimmed, h, now - window);
  }

  lemma WindowSize(members: map<string, real>, h: History, cutoff: real)
    requires IsWindow(members, h, cutoff) && DistinctMembers(h)
    requires forall m | m in members :: members[m] > cutoff
    ensures |members| == CountAfter(h, cutoff)
  {
    MembersAfterSize(h, cutoff);
    assert members.Keys == MembersAfter(h, cutoff);
  }

  lemma CeilBound(x: real)
    ensures x <= Ceil(x) as real < x + 1.0
  {
  }

  /** The script on its own key: it answers as the log, and holds the log's next history. */
  lemma ScriptRefines(db: Database, k: string, h: History, window: real, limit: int, hit: Hit, since: real)
    requires Holds(db, k, h, window, since) && Ordered(h, since) && DistinctMembers(h) && since <= hit.at
    ensures var (db', allowed) := Script(db, k, hit.at, window, limit, hit.member);
      && allowed == (CountAfter(h, hit.at - window) < limit)
      && Holds(db', k, if allowed then h + [hit] else h, window, hit.at)
      && (allowed ==> window + 1.0 <= db'[k].expireAt - hit.at < window + 2.0)
  {
    hide Trimmed, Holds, IsWindow, GoneBy;
    CeilBound(window);
    var now := hit.at;
    var trimmed := Trimmed(db, k, window, now);
    TrimmedIsWindow(db, k, h, window, since, now);
    var db' := Script(db, k, now, window, limit, hit.member).0;
    if |trimmed| < limit {
      AddToWindow(trimmed, h, window, hit);
      HoldsWindow(trimmed[hit.member := now], k, h + [hit], window, now, now + (Ceil(window) + 1) as real, db');
    } else if trimmed == map[] {
      HoldsNothing(k, h, window, now, db');
    } else {
      HoldsWindow(trimmed, k, h, window, now, db[k].expireAt, db');
    }
  }

  lemma AddToWindow(members: map<string, real>, h: History, window: real, hit: Hit)
    requires IsWindow(members, h, hit.at - window) && Ordered(h, hit.at)
    ensures IsWindow(members[hit.member := hit.at], h + [hit], hit.at - window)
    ensures GoneBy(members[hit.member := hit.at], window, hit.at + (Ceil(window) + 1) as real)
  {
    CeilBound(window);
    var grown := members[hit.member := hit.at];
    forall m | m in grown
      ensures exists i :: 0 <= i < |h + [hit]| && (h + [hit])[i] == Hit(grown[m], m)
      ensures grown[m] <= hit.at
    {
      if m == hit.member {
        assert (h + [hit])[|h|] == Hit(grown[m], m);
      } else {
        var i :| 0 <= i < |h| && h[i] == Hit(members[m], m);
        assert (h + [hit])[i] == Hit(grown[m], m);
        assert h[i].at <= h[|h| - 1].at;
      }
    }
  }

  lemma HoldsWindow(members: map<string, real>, k: string, h: History, window: real, now: real, expireAt: real,
                    db: Database)
    requires IsWindow(members, h, now - window)
    requires GoneBy(members, window, expireAt)
    requires k in db && db[k] == Zset(members, expireAt)
    ensures Holds(db, k, h, window, now)
  {
  }

  lemma HoldsNothing(k: string, h: History, window: real, now: real, db: Database)
    requires IsWindow(map[], h, now - window) && k !in db
    ensures Holds(db, k, h, window, now)
  {
  }

  lemma HoldsLater(db: Database, db': Database, k: string, h: History, window: real, since: real, now: real)
    requires Holds(db, k, h, window, since) && since <= now
    requires k in db <==> k in db'
    requires k in db ==> db[k] == db'[k]
    ensures Holds(db', k, h, window, now)
  {
  }

  function UsedAfter(op: Op, used: set<string>): set<string> {
    if op.Allow? then used + {op.member} else used
  }

  /** The member is new, the pair is one of those in use, and the clock does not go back. */
  ghost predicate WellFormed(op: Op, pairs: Pairs, since: real, used: set<string>) {
    match op
    case Allow(scope, key, _, now, member) => (scope, key) in pairs && since <= now && member !in used
    case Forget(scope, key) => (scope, key) in pairs
    case Reset => true
  }

  ghost predicate WellFormedRun(ops: seq<Op>, pairs: Pairs, since: real, used: set<string>) {
    ops == [] ||
    (WellFormed(ops[0], pairs, since, used)
     && WellFormedRun(ops[1..], pairs, ClockAfter(ops[0], since), UsedAfter(ops[0], used)))
  }

  lemma RedisStepRefines(w: Windows, db: Database, l: Ledger, op: Op, pairs: Pairs, since: real, used: set<string>)
    requires KeysDistinctOn(pairs) && RedisAgree(w, db, l, pairs, since, used) && WellFormed(op, pairs, since, used)
    ensures RedisStep(w, db, op).1 == LedgerStep(w, l, op, {}).1
    ensures RedisAgree(w, RedisStep(w, db, op).0, LedgerStep(w, l, op, {}).0, pairs, ClockAfter(op, since),
                       UsedAfter(op, used))
  {
    match op
    case Allow(_, _, _, _, _) => RedisAllowRefines(w, db, l, op, pairs, since, used);
    case Forget(scope, key) => RedisForgetRefines(w, db, l, scope, key, pairs, since, used);
    case Reset => assert forall scope, key :: KEY_PREFIX <= RedisKey(scope, key);
  }

  lemma OtherKey(pairs: Pairs, scope1: string, key1: string, scope2: string, key2: string)
    requires KeysDistinctOn(pairs) && (scope1, key1) in pairs && (scope2, key2) in pairs
    ensures RedisKey(scope1, key1) == RedisKey(scope2, key2) <==> scope1 == scope2 && key1 == key2
  {
    var p, q := (scope1, key1), (scope2, key2);
    assert p in pairs && q in pairs;
  }

  lemma RedisForgetRefines(w: Windows, db: Database, l: Ledger, scope: string, key: string, pairs: Pairs,
                           since: real, used: set<string>)
    requires KeysDistinctOn(pairs) && RedisAgree(w, db, l, pairs, since, used) && (scope, key) in pairs
    ensures RedisAgree(w, db - {RedisKey(scope, key)}, DropKeys(l, scope, {key}), pairs, since, used)
  {
    hide RedisKey, KeysDistinctOn, DropKeys, RedisAgreeOn;
    forall scope', key' | (scope', key') in pairs
      ensures RedisAgreeOn(db - {RedisKey(scope, key)}, DropKeys(l, scope, {key}), scope', key', w(scope'), since, used)
    {
      OtherKey(pairs, scope, key, scope', key');
      ForgetAgrees(db, l, scope, key, scope', key', w(scope'), since, used);
    }
  }

  lemma ForgetAgrees(db: Database, l: Ledger, scope: string, key: string, scope': string, key': string,
                     window: real, since: real, used: set<string>)
    requires RedisAgreeOn(db, l, scope', key', window, since, used)
    requires RedisKey(scope, key) == RedisKey(scope', key') <==> scope == scope' && key == key'
    ensures RedisAgreeOn(db - {RedisKey(scope, key)}, DropKeys(l, scope, {key}), scope', key', window, since, used)
  {
    hide RedisKey;
    var h, h' := HistoryOf(l, scope', key'), HistoryOf(DropKeys(l, scope, {key}), scope', key');
    if scope == scope' && key == key' {
      assert h' == [];
    } else {
      assert h' == h;
      hide DropKeys, HistoryOf;
      var k := RedisKey(scope', key');
      HoldsLater(db, db - {RedisKey(scope, key)}, k, h, window, since, since);
    }
  }

  lemma RedisAllowRefines(w: Windows, db: Database, l: Ledger, op: Op, pairs: Pairs, since: real, used: set<string>)
    requires KeysDistinctOn(pairs) && RedisAgree(w, db, l, pairs, since, used) && WellFormed(op, pairs, since, used)
        && op.Allow?
    ensures RedisStep(w, db, op).1 == LedgerStep(w, l, op, {}).1
    ensures RedisAgree(w, RedisStep(w, db, op).0, LedgerStep(w, l, op, {}).0, pairs, op.now, used + {op.member})
  {
    hide Script, LedgerStep, Holds, HistoryOf, RedisKey, KeysDistinctOn;
    var Allow(scope, key, times, now, member) := op;
    assert RedisAgreeOn(db, l, scope, key, w(scope), since, used);
    ScriptRefines(db, RedisKey(scope, key), HistoryOf(l, scope, key), w(scope), times, Hit(now, member), since);
    LoggedHistories(w, l, op, {});
    ScriptFrame(db, RedisKey(scope, key), now, w(scope), times, member);
    var db', l' := RedisStep(w, db, op).0, LedgerStep(w, l, op, {}).0;
    forall scope', key' | (scope', key') in pairs
      ensures RedisAgreeOn(db', l', scope', key', w(scope'), now, used + {member})
    {
      assert RedisAgreeOn(db, l, scope', key', w(scope'), since, used);
      if (scope', key') != (scope, key) {
        OtherKey(pairs, scope, key, scope', key');
        HoldsLater(db, db', RedisKey(scope', key'), HistoryOf(l, scope', key'), w(scope'), since, now);
      }
    }
  }

  lemma ScriptFrame(db: Database, k: string, now: real, window: real, limit: int, member: string)
    ensures var db' := Script(db, k, now, window, limit, member).0;
      forall k' | k' != k :: (k' in db <==> k' in db') && (k' in db ==> db[k'] == db'[k'])
  {
  }

  // ----- runs -----

  function RedisRun(w: Windows, db: Database, ops: seq<Op>): (Database, seq<bool>)
    decreases |ops|
  {
    if ops == [] then (db, [])
    else
      var step := RedisStep(w, db, ops[0]);
      var rest := RedisRun(w, step.0, ops[1..]);
      (rest.0, [step.1] + rest.1)
  }

  /** Whatever the limiter does, a key of the database that is not its own stays as it is. */
  lemma {:induction false} OtherKeysStay(w: Windows, db: Database, ops: seq<Op>, k: string)
    requires !("ratelimit:" <= k)
    ensures var db' := RedisRun(w, db, ops).0; (k in db' <==> k in db) && (k in db ==> db'[k] == db[k])
    decreases |ops|
  {
    if ops != [] {
      hide Script;
      var op := ops[0];
      match op {
        case Allow(scope, key, times, now, member) =>
          OwnKey(scope, key);
          ScriptFrame(db, RedisKey(scope, key), now, w(scope), times, member);
        case Forget(scope, key) => OwnKey(scope, key);
        case Reset =>
      }
      OtherKeysStay(w, RedisStep(w, db, op).0, ops[1..], k);
    }
  }

  lemma OwnKey(scope: string, key: string)
    ensures "ratelimit:" <= RedisKey(scope, key)
  {
    assert RedisKey(scope, key)[..|KEY_PREFIX|] == KEY_PREFIX;
  }

  ghost predicate NoEvictions(w: Windows, s: Store, ops: seq<Op>) {
    forall i | 0 <= i < |ops| :: Evictions(w, s, ops)[i] == {}
  }

  /** The in-memory store and the shared store give the same answer at every step of the
      same run, as long as the key cap evicts nothing. */
  lemma {:induction false} StoresAgree(w: Windows, s: Store, db: Database, l: Ledger, ops: seq<Op>, pairs: Pairs,
                                       since: real, used: set<string>)
    requires WindowsWithinTtl(w) && Agree(w, s, l, since)
    requires KeysDistinctOn(pairs) && RedisAgree(w, db, l, pairs, since, used)
    requires WellFormedRun(ops, pairs, since, used) && NoEvictions(w, s, ops)
    ensures StoreRun(w, s, ops).1 == RedisRun(w, db, ops).1
    decreases |ops|
  {
    if ops != [] {
      var op, rest := ops[0], ops[1..];
      assert op.Allow? ==> since <= op.now;
      NoEvictionsTail(w, s, ops);
      hide KeysDistinctOn, RedisAgree, Agree, WindowsWithinTtl, WellFormed, NoEvictions, Evictions;
      hide StoreStep, RedisStep, LedgerStep, EvictedKeys;
      StepRefines(w, s, l, op, since);
      RedisStepRefines(w, db, l, op, pairs, since, used);
      StoresAgree(w, StoreStep(w, s, op).0, RedisStep(w, db, op).0, LedgerStep(w, l, op, {}).0,
        rest, pairs, ClockAfter(op, since), UsedAfter(op, used));
    }
  }

  lemma NoEvictionsTail(w: Windows, s: Store, ops: seq<Op>)
    requires ops != [] && NoEvictions(w, s, ops)
    ensures EvictedKeys(w, s, ops[0]) == {} && NoEvictions(w, StoreStep(w, s, ops[0]).0, ops[1..])
  {
    hide StoreStep, EvictedKeys;
    var s' := StoreStep(w, s, ops[0]).0;
    assert Evictions(w, s, ops)[0] == {};
    forall i | 0 <= i < |ops[1..]| ensures Evictions(w, s', ops[1..])[i] == {} {
      assert Evictions(w, s, ops)[i + 1] == {};
    }
  }

  /** From a fresh process and a database without the limiter's keys. */
  lemma FreshStoresAgree(w: Windows, db: Database, ops: seq<Op>, pairs: Pairs, since: real)
    requires WindowsWithinTtl(w) && KeysDistinctOn(pairs) && forall k | k in db :: !(KEY_PREFIX <= k)
    requires WellFormedRun(ops, pairs, since, {}) && NoEvictions(w, FRESH_STORE, ops)
    ensures StoreRun(w, FRESH_STORE, ops).1 == RedisRun(w, db, ops).1
  {
    forall scope, key ensures KEY_PREFIX <= RedisKey(scope, key) {
    }
    StoresAgree(w, FRESH_STORE, db, map[], ops, pairs, since, {});
  }

  // ----- exactly when the two stores agree -----

  /** Started empty together, the two stores answer every run over these pairs alike. */
  ghost predicate AlwaysAgree(w: Windows, pairs: Pairs) {
    forall ops: seq<Op>, since: real ::
      WellFormedRun(ops, pairs, since, {}) && NoEvictions(w, FRESH_STORE, ops) ==>
      StoreRun(w, FRESH_STORE, ops).1 == RedisRun(w, map[], ops).1
  }

  /** The stores agree on all runs exactly when no two pairs in use share a database key. Scope
      names without a colon guarantee that; a colon in a scope name can break it. */
  lemma StoresAgreeIff(w: Windows, pairs: Pairs)
    requires WindowsWithinTtl(w) && forall scope :: w(scope) > 0.0
    ensures AlwaysAgree(w, pairs) <==> KeysDistinctOn(pairs)
  {
    if KeysDistinctOn(pairs) {
      forall ops: seq<Op>, since: real | WellFormedRun(ops, pairs, since, {}) && NoEvictions(w, FRESH_STORE, ops)
        ensures StoreRun(w, FRESH_STORE, ops).1 == RedisRun(w, map[], ops).1
      {
        FreshStoresAgree(w, map[], ops, pairs, since);
      }
    } else {
      var p, q :| p in pairs && q in pairs && RedisKey(p.0, p.1) == RedisKey(q.0, q.1) && p != q;
      SharedKeyDiverges(w, pairs, p.0, p.1, q.0, q.1);
    }
  }

  function TwoHits(scope1: string, key1: string, scope2: string, key2: string): seq<Op> {
    [Allow(scope1, key1, 1, 0.0, "m"), Allow(scope2, key2, 1, 0.0, "n")]
  }

  lemma SharedKeyDiverges(w: Windows, pairs: Pairs, scope1: string, key1: string, scope2: string, key2: string)
    requires (scope1, key1) in pairs && (scope2, key2) in pairs && (scope1, key1) != (scope2, key2)
    requires RedisKey(scope1, key1) == RedisKey(scope2, key2) && w(scope1) > 0.0 && w(scope2) > 0.0
    ensures !AlwaysAgree(w, pairs)
  {
    var ops := TwoHits(scope1, key1, scope2, key2);
    MemorySeparates(w, scope1, key1, scope2, key2);
    RedisMerges(w, scope1, key1, scope2, key2);
    TwoHitsWellFormed(pairs, scope1, key1, scope2, key2);
    hide TwoHits, StoreRun, RedisRun, WellFormedRun, NoEvictions;
    assert StoreRun(w, FRESH_STORE, ops).1[1] != RedisRun(w, map[], ops).1[1];
  }

  lemma TwoHitsWellFormed(pairs: Pairs, scope1: string, key1: string, scope2: string, key2: string)
    requires (scope1, key1) in pairs && (scope2, key2) in pairs
    ensures WellFormedRun(TwoHits(scope1, key1, scope2, key2), pairs, 0.0, {})
  {
    var ops := TwoHits(scope1, key1, scope2, key2);
    assert ops[1..] == [ops[1]] && [ops[1]][1..] == [];
    assert "m"[0] != "n"[0];
    assert WellFormedRun([], pairs, 0.0, UsedAfter(ops[1], {"m"}));
    assert WellFormedRun([ops[1]], pairs, 0.0, {"m"});
  }

  lemma FewKeysNoEviction(s: Store, scope: string, key: string, times: int, seconds: real, now: real)
    requires |Prune(s, now).ScopeAt(scope).buckets| < MAX_KEYS_PER_SCOPE
    ensures EvictedBy(s, scope, key, times, seconds, now) == {}
  {
    var d := Prune(s, now).ScopeAt(scope);
    hide Prune;
    forall bucket: Bucket ensures |d.Put(key, bucket).buckets| <= |d.buckets| + 1 {
      assert d.Put(key, bucket).buckets.Keys == d.buckets.Keys + {key};
    }
  }

  lemma RunOfTwo(w: Windows, s: Store, db: Database, a: Op, b: Op)
    ensures StoreRun(w, s, [a, b]).1 == [StoreStep(w, s, a).1, StoreStep(w, StoreStep(w, s, a).0, b).1]
    ensures Evictions(w, s, [a, b]) == [EvictedKeys(w, s, a), EvictedKeys(w, StoreStep(w, s, a).0, b)]
    ensures RedisRun(w, db, [a, b]).1 == [RedisStep(w, db, a).1, RedisStep(w, RedisStep(w, db, a).0, b).1]
  {
    hide StoreStep, EvictedKeys, RedisStep;
    assert [a, b][1..] == [b] && [b][1..] == [];
    var s', db' := StoreStep(w, s, a).0, RedisStep(w, db, a).0;
    assert StoreRun(w, s', [b]).1 == [StoreStep(w, s', b).1] + [];
    assert RedisRun(w, db', [b]).1 == [RedisStep(w, db', b).1] + [];
  }

  /** After one hit in an empty store. */
  function AfterHit(scope: string, key: string): Store {
    Store(map[scope := Scope([key], map[key := [0.0]])], 0.0)
  }

  lemma FirstHit(scope: string, key: string, window: real)
    ensures AllowStep(FRESH_STORE, scope, key, 1, window, 0.0) == (AfterHit(scope, key), true)
    ensures EvictedBy(FRESH_STORE, scope, key, 1, window, 0.0) == {}
  {
    var grown := EMPTY_SCOPE.Put(key, [] + [0.0]);
    assert [] + [key] == [key] && [] + [0.0] == [0.0];
    assert grown == Scope([key], map[key := [0.0]]);
    assert grown.buckets.Keys == {key};
    assert Evicted(grown) == {};
    assert grown.buckets.Keys - {} == grown.buckets.Keys;
    assert grown.Valid() by { PutValid(EMPTY_SCOPE, key, [0.0]); }
    KeepAll(grown);
    assert EnforceScopeCap(grown) == grown;
    assert Prune(FRESH_STORE, 0.0) == FRESH_STORE;
    assert Trim(FRESH_STORE.BucketAt(scope, key), 0.0 - window) == [];
    assert map[][scope := grown] == AfterHit(scope, key).scopes;
    hide Prune, EnforceScopeCap, Evicted, Trim;
  }

  lemma SecondHit(scope1: string, key1: string, scope2: string, key2: string, window: real)
    requires (scope1, key1) != (scope2, key2)
    ensures AllowStep(AfterHit(scope1, key1), scope2, key2, 1, window, 0.0).1
    ensures EvictedBy(AfterHit(scope1, key1), scope2, key2, 1, window, 0.0) == {}
  {
    var s := AfterHit(scope1, key1);
    assert Prune(s, 0.0) == s;
    assert s.BucketAt(scope2, key2) == [];
    hide Prune;
    AllowedBuckets(s, scope2, key2, 1, window, 0.0);
    FewKeysNoEviction(s, scope2, key2, 1, window, 0.0);
  }

  lemma MemorySeparates(w: Windows, scope1: string, key1: string, scope2: string, key2: string)
    requires (scope1, key1) != (scope2, key2)
    ensures StoreRun(w, FRESH_STORE, TwoHits(scope1, key1, scope2, key2)).1 == [true, true]
    ensures NoEvictions(w, FRESH_STORE, TwoHits(scope1, key1, scope2, key2))
  {
    var ops := TwoHits(scope1, key1, scope2, key2);
    hide AllowStep, EvictedBy, AfterHit;
    FirstHit(scope1, key1, w(scope1));
    SecondHit(scope1, key1, scope2, key2, w(scope2));
    RunOfTwo(w, FRESH_STORE, map[], ops[0], ops[1]);
  }

  lemma RedisMerges(w: Windows, scope1: string, key1: string, scope2: string, key2: string)
    requires RedisKey(scope1, key1) == RedisKey(scope2, key2) && w(scope1) > 0.0 && w(scope2) > 0.0
    ensures RedisRun(w, map[], TwoHits(scope1, key1, scope2, key2)).1 == [true, false]
  {
    hide RedisKey;
    var ops := TwoHits(scope1, key1, scope2, key2);
    var k := RedisKey(scope1, key1);
    CeilBound(w(scope1));
    var db := map[k := Zset(map["m" := 0.0], (Ceil(w(scope1)) + 1) as real)];
    assert Trimmed(map[], k, w(scope1), 0.0) == map[];
    assert RedisStep(w, map[], ops[0]) == (db, true);
    assert Trimmed(db, k, w(scope2), 0.0) == map["m" := 0.0];
    assert !RedisStep(w, db, ops[1]).1;
    hide RedisStep, StoreStep;
    RunOfTwo(w, FRESH_STORE, map[], ops[0], ops[1]);
  }

  /** Two different pairs that do share a database key. */
  lemma ColonSharesKey()
    ensures RedisKey("a", "b:c") == "ratelimit:a:b:c" == RedisKey("a:b", "c") && ("a", "b:c") != ("a:b", "c")
  {
  }

  /** A set of scope names keeps the database keys of all its pairs apart, whatever the keys, exactly
      when no name of it followed by a colon begins another. */
  lemma ScopesKeepKeysApartIff(scopes: iset<string>)
    ensures KeysDistinctOn(iset p: (string, string) | p.0 in scopes)
       <==> forall s, t | s in scopes && t in scopes :: !(s + ":" <= t)
  {
    var pairs := iset p: (string, string) | p.0 in scopes;
    if s, t :| s in scopes && t in scopes && s + ":" <= t {
      var rest := t[|s + ":"|..];
      PrefixSharesKey(s, rest, "");
      assert t == s + ":" + rest;
      var p, q := (s, rest + ":" + ""), (t, "");
      assert p in pairs && q in pairs && |s| != |t|;
    } else {
      forall p, q | p in pairs && q in pairs && RedisKey(p.0, p.1) == RedisKey(q.0, q.1) ensures p == q {
        SharedKeyPrefix(p.0, p.1, q.0, q.1);
      }
    }
  }

  lemma PrefixSharesKey(scope: string, rest: string, key: string)
    ensures RedisKey(scope, rest + ":" + key) == RedisKey(scope + ":" + rest, key)
  {
    var a, b := scope + ":" + (rest + ":" + key), scope + ":" + rest + ":" + key;
    assert a == b;
    assert RedisKey(scope, rest + ":" + key) == KEY_PREFIX + a;
    assert RedisKey(scope + ":" + rest, key) == KEY_PREFIX + b;
  }

  lemma SharedKeyPrefix(scope1: string, key1: string, scope2: string, key2: string)
    requires RedisKey(scope1, key1) == RedisKey(scope2, key2)
    ensures (scope1, key1) == (scope2, key2) || scope1 + ":" <= scope2 || scope2 + ":" <= scope1
  {
    var a, b := scope1 + ":" + key1, scope2 + ":" + key2;
    assert RedisKey(scope1, key1)[|KEY_PREFIX|..] == a;
    assert RedisKey(scope2, key2)[|KEY_PREFIX|..] == b;
    if |scope1| == |scope2| {
      assert a[..|scope1|] == scope1 && b[..|scope2|] == scope2;
      assert a[|scope1| + 1..] == key1 && b[|scope2| + 1..] == key2;
    } else if |scope1| < |scope2| {
      assert a[..|scope1| + 1] == scope1 + ":" && b[..|scope1| + 1] == scope2[..|scope1| + 1];
    } else {
      assert b[..|scope2| + 1] == scope2 + ":" && a[..|scope2| + 1] == scope1[..|scope2| + 1];
    }
  }

  /** Scope names without a colon keep all database keys apart. */
  lemma NoColonKeepsKeysApart(pairs: Pairs)
    requires forall p | p in pairs :: ':' !in p.0
    ensures KeysDistinctOn(pairs)
  {
    forall p, q | p in pairs && q in pairs && RedisKey(p.0, p.1) == RedisKey(q.0, q.1) ensures p == q {
      KeysAreDistinct(p.0, p.1, q.0, q.1);
    }
  }

  /** So over scope names without a colon the two stores answer every run alike. */
  lemma ColonFreeStoresAgree(w: Windows, pairs: Pairs)
    requires WindowsWithinTtl(w) && (forall scope :: w(scope) > 0.0) && forall p | p in pairs :: ':' !in p.0
    ensures AlwaysAgree(w, pairs)
  {
    NoColonKeepsKeysApart(pairs);
    hide AlwaysAgree, KeysDistinctOn;
    StoresAgreeIff(w, pairs);
  }
}
