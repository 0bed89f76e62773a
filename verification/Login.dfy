/** The login use-case as a client of the limiter: the per-account lockout. */
module Login {
  import opened RateLimitStore
  import opened RateLimitLedger
  import opened RateLimitBounds

  const LOCKOUT_SCOPE := "login-account"
  const LOCKOUT_TIMES := 20
  const LOCKOUT_SECONDS := 300.0

  datatype User = User(passwordHash: string, isActive: bool)

  /** What login reads besides the limiter. Users are keyed by their stored, lower-case
      email; `dummyHash` stands in for the hash of an unknown account. */
  datatype Env = Env(
    limiterEnabled: bool,
    users: map<string, User>,
    dummyHash: string,
    lower: string -> string,
    passwordMatches: (string, string) -> bool)

  datatype Attempt = Attempt(email: string, password: string, now: real)

  datatype Outcome = TooManyRequests | InvalidCredentials | AccountDisabled | LoggedIn

  /** Everything after the limiter let the attempt through. */
  function CheckCredentials(env: Env, a: Attempt): Outcome {
    var email := env.lower(a.email);
    var hash := if email in env.users then env.users[email].passwordHash else env.dummyHash;
    var passwordOk := env.passwordMatches(a.password, hash);
    if email !in env.users || !passwordOk then InvalidCredentials
    else if !env.users[email].isActive then AccountDisabled
    else LoggedIn
  }

  function LoginStep(env: Env, s: Store, a: Attempt): (Store, Outcome) {
    var key := env.lower(a.email);
    var (s', allowed) :=
      if env.limiterEnabled then AllowStep(s, LOCKOUT_SCOPE, key, LOCKOUT_TIMES, LOCKOUT_SECONDS, a.now)
      else (s, true);
    if !allowed then (s', TooManyRequests)
    else
      var outcome := CheckCredentials(env, a);
      (if outcome.LoggedIn? && env.limiterEnabled then ForgetStep(s', LOCKOUT_SCOPE, key) else s', outcome)
  }

  datatype Session = Session(email: string, tokenHash: string)

  class AuthService {
    const store: MemoryRateLimitStore
    var sessions: seq<Session>

    constructor (store: MemoryRateLimitStore)
      ensures this.store == store && sessions == []
    {
      this.store := store;
      sessions := [];
    }

    method Login(env: Env, a: Attempt, tokenHash: string) returns (outcome: Outcome)
      requires store.Valid()
      modifies this, store
      ensures store.Valid() && (store.State(), outcome) == LoginStep(env, old(store.State()), a)
      ensures sessions == old(sessions) + if outcome.LoggedIn? then [Session(env.lower(a.email), tokenHash)] else []
      ensures outcome.LoggedIn? ==>
        var email := env.lower(a.email);
        email in env.users && env.users[email].isActive
            && env.passwordMatches(a.password, env.users[email].passwordHash)
    {
      hide AllowStep, ForgetStep;
      var key := env.lower(a.email);
      if env.limiterEnabled {
        var allowed := store.Allow(LOCKOUT_SCOPE, key, LOCKOUT_TIMES, LOCKOUT_SECONDS, a.now);
        if !allowed {
          return TooManyRequests;
        }
      }
      var hash := env.dummyHash;
      if key in env.users {
        hash := env.users[key].passwordHash;
      }
      var passwordOk := env.passwordMatches(a.password, hash);
      if key !in env.users || !passwordOk {
        return InvalidCredentials;
      }
      if !env.users[key].isActive {
        return AccountDisabled;
      }
      if env.limiterEnabled {
        store.Forget(LOCKOUT_SCOPE, key);
      }
      sessions := sessions + [Session(key, tokenHash)];
      return LoggedIn;
    }
  }

  /** Who gets in, and what everyone else is told: an attempt is let through unless the account has spent
      20 attempts of 300 seconds, and then only the right password of a known account counts. */
  lemma WhoGetsIn(env: Env, s: Store, a: Attempt)
    ensures var email, outcome := env.lower(a.email), LoginStep(env, s, a).1;
      var through := !env.limiterEnabled || AllowStep(s, "login-account", email, 20, 300.0, a.now).1;
      var known := email in env.users;
      && (outcome.TooManyRequests? <==> !through)
      && (outcome.InvalidCredentials? <==>
            through && (known ==> !env.passwordMatches(a.password, env.users[email].passwordHash)))
      && (outcome.AccountDisabled? <==>
            through && known && env.passwordMatches(a.password, env.users[email].passwordHash)
            && !env.users[email].isActive)
      && (outcome.LoggedIn? <==>
            through && known && env.passwordMatches(a.password, env.users[email].passwordHash)
            && env.users[email].isActive)
  {
    hide AllowStep, ForgetStep;
  }

  // ----- runs: logins and any other use of the limiter, interleaved -----

  /** A login touches the limiter twice: when it enters and, if it succeeds, when it refunds the
      account. Anything may happen between the two, such as the password check of other logins. */
  datatype Event =
    | Enters(attempt: Attempt)
    | Refunds(email: string)
    | OtherCall(op: Op)

  /** Other callers use other scopes and never reset the store. */
  ghost predicate OtherScope(op: Op) {
    match op
    case Allow(scope, _, _, _, _) => scope != LOCKOUT_SCOPE
    case Forget(scope, _) => scope != LOCKOUT_SCOPE
    case Reset => false
  }

  function LockoutCall(key: string, now: real): Op {
    Allow(LOCKOUT_SCOPE, key, LOCKOUT_TIMES, now, "")
  }

  /** What an event does to the limiter. */
  function Call(env: Env, e: Event): Op {
    match e
    case Enters(a) => LockoutCall(env.lower(a.email), a.now)
    case Refunds(email) => Forget(LOCKOUT_SCOPE, env.lower(email))
    case OtherCall(op) => op
  }

  function EventStep(env: Env, w: Windows, s: Store, e: Event): Store {
    StoreStep(w, s, Call(env, e)).0
  }

  /** The limiter lets the attempt through to the password check. */
  predicate LetThrough(env: Env, w: Windows, s: Store, e: Event) {
    StoreStep(w, s, Call(env, e)).1
  }

  function EventClock(env: Env, e: Event, since: real): real {
    ClockAfter(Call(env, e), since)
  }

  /** With nothing in between, a login is its entry, and its refund if it succeeds. */
  lemma LoginIsItsEvents(env: Env, w: Windows, s: Store, a: Attempt)
    requires env.limiterEnabled && w(LOCKOUT_SCOPE) == LOCKOUT_SECONDS
    ensures var (s', outcome) := LoginStep(env, s, a);
      && (outcome.TooManyRequests? <==> !LetThrough(env, w, s, Enters(a)))
      && s' == if outcome.LoggedIn? then EventStep(env, w, EventStep(env, w, s, Enters(a)), Refunds(a.email))
               else EventStep(env, w, s, Enters(a))
  {
    hide AllowStep, ForgetStep;
  }

  /** The clock does not go back, other calls keep to their scopes, and key pressure does
      not evict this account's history. */
  ghost predicate OrdinaryEvent(env: Env, w: Windows, s: Store, e: Event, since: real, account: string) {
    && since <= EventClock(env, e, since)
    && (e.Enters? ==> account !in EvictedKeys(w, s, Call(env, e)))
    && (e.OtherCall? ==> OtherScope(e.op))
  }

  ghost predicate OrdinaryRun(env: Env, w: Windows, s: Store, events: seq<Event>, since: real, account: string)
    decreases |events|
  {
    events == [] ||
    (&& OrdinaryEvent(env, w, s, events[0], since, account)
     && OrdinaryRun(env, w, EventStep(env, w, s, events[0]), events[1..], EventClock(env, events[0], since), account))
  }

  predicate EntersFor(env: Env, e: Event, account: string) {
    e.Enters? && env.lower(e.attempt.email) == account
  }

  predicate RefundsFor(env: Env, e: Event, account: string) {
    e.Refunds? && env.lower(e.email) == account
  }

  /** Read off the answers alone: the times of the attempts on an account that were let through
      to the password check since its last refund, given those before the run. */
  function ChecksSinceRefund(env: Env, w: Windows, s: Store, events: seq<Event>, account: string,
                             before: History): History
    decreases |events|
  {
    if events == [] then before
    else
      var e := events[0];
      ChecksSinceRefund(env, w, EventStep(env, w, s, e), events[1..], account,
                        NextChecks(env, w, s, e, account, before))
  }

  function NextChecks(env: Env, w: Windows, s: Store, e: Event, account: string, before: History): History {
    if EntersFor(env, e, account) && LetThrough(env, w, s, e) then before + [Hit(e.attempt.now, "")]
    else if RefundsFor(env, e, account) then []
    else before
  }

  /** The attempts on an account that got past the limiter during the run. */
  function PasswordChecks(env: Env, w: Windows, s: Store, events: seq<Event>, account: string): History
    decreases |events|
  {
    if events == [] then []
    else
      var e := events[0];
      var rest := PasswordChecks(env, w, EventStep(env, w, s, e), events[1..], account);
      if EntersFor(env, e, account) && LetThrough(env, w, s, e) then [Hit(e.attempt.now, "")] + rest else rest
  }

  ghost predicate NoRefund(env: Env, events: seq<Event>, account: string) {
    forall i | 0 <= i < |events| :: !RefundsFor(env, events[i], account)
  }

  ghost predicate LockoutConfigured(env: Env, w: Windows) {
    env.limiterEnabled && w(LOCKOUT_SCOPE) == LOCKOUT_SECONDS && WindowsWithinTtl(w)
  }

  /** The log agrees with the store, and this account's history in it is `checks`. */
  ghost predicate Tracks(w: Windows, s: Store, l: Ledger, now: real, account: string, checks: History) {
    && Agree(w, s, l, now)
    && HistoryOf(l, LOCKOUT_SCOPE, account) == checks
    && Spaced(checks, LOCKOUT_TIMES, LOCKOUT_SECONDS)
  }

  lemma EventTracks(env: Env, w: Windows, s: Store, l: Ledger, e: Event, since: real, account: string, checks: History)
      returns (l': Ledger)
    requires LockoutConfigured(env, w) && Tracks(w, s, l, since, account, checks)
    requires OrdinaryEvent(env, w, s, e, since, account)
    ensures Tracks(w, EventStep(env, w, s, e), l', EventClock(env, e, since), account,
                   NextChecks(env, w, s, e, account, checks))
    ensures EntersFor(env, e, account) ==>
      (!LetThrough(env, w, s, e) <==> CountAfter(checks, e.attempt.now - LOCKOUT_SECONDS) >= LOCKOUT_TIMES)
  {
    hide AllowStep, ForgetStep, EvictedBy, Spaced, Agree;
    var op := Call(env, e);
    var evicted := EvictedKeys(w, s, op);
    StepRefines(w, s, l, op, since);
    l' := LedgerStep(w, l, op, evicted).0;
    if op.Allow? {
      LoggedHistories(w, l, op, evicted);
    }
    EmptySpaced();
    hide LedgerStep;
    if EntersFor(env, e, account) && LetThrough(env, w, s, e) {
      HistoryIsOrdered(w, s, l, since, account);
      OrderedLater(checks, since, e.attempt.now);
      SpacedAppend(checks, Hit(e.attempt.now, ""), LOCKOUT_TIMES, LOCKOUT_SECONDS);
    }
  }

  lemma HistoryIsOrdered(w: Windows, s: Store, l: Ledger, now: real, account: string)
    requires Agree(w, s, l, now)
    ensures Ordered(HistoryOf(l, LOCKOUT_SCOPE, account), now)
  {
    assert AgreeOn(s, l, LOCKOUT_SCOPE, account, w(LOCKOUT_SCOPE), now);
  }

  lemma OrderedLater(h: History, since: real, now: real)
    requires Ordered(h, since) && since <= now
    ensures Ordered(h, now)
  {
  }

  lemma EmptySpaced()
    ensures Spaced([], LOCKOUT_TIMES, LOCKOUT_SECONDS)
  {
  }

  /** The log's history of an account is exactly its checks since the last refund. */
  lemma {:induction false} RunTracks(env: Env, w: Windows, s: Store, l: Ledger, events: seq<Event>, since: real,
                                     account: string, checks: History)
      returns (s': Store, l': Ledger, now: real)
    requires LockoutConfigured(env, w) && Tracks(w, s, l, since, account, checks)
    requires OrdinaryRun(env, w, s, events, since, account)
    ensures s' == EventRun(env, w, s, events) && now == EventRunClock(env, events, since)
    ensures Tracks(w, s', l', now, account, ChecksSinceRefund(env, w, s, events, account, checks))
    decreases |events|
  {
    hide StoreStep, Tracks, OrdinaryEvent, NextChecks;
    if events == [] {
      return s, l, since;
    }
    var e := events[0];
    var l1 := EventTracks(env, w, s, l, e, since, account, checks);
    s', l', now := RunTracks(env, w, EventStep(env, w, s, e), l1, events[1..], EventClock(env, e, since), account,
                             NextChecks(env, w, s, e, account, checks));
  }

  function EventRun(env: Env, w: Windows, s: Store, events: seq<Event>): Store
    decreases |events|
  {
    if events == [] then s else EventRun(env, w, EventStep(env, w, s, events[0]), events[1..])
  }

  function EventRunClock(env: Env, events: seq<Event>, since: real): real {
    if events == [] then since else EventRunClock(env, events[1..], EventClock(env, events[0], since))
  }

  /** After any run from a fresh process, with logins under way, an attempt is turned away exactly
      when 20 attempts on the account were let through to the password check within the last 300
      seconds and since its last refund. */
  lemma LockoutExact(env: Env, w: Windows, events: seq<Event>, since: real, a: Attempt)
    requires LockoutConfigured(env, w)
    requires OrdinaryRun(env, w, FRESH_STORE, events, since, env.lower(a.email))
    requires OrdinaryEvent(env, w, EventRun(env, w, FRESH_STORE, events), Enters(a),
                           EventRunClock(env, events, since), env.lower(a.email))
    ensures var checks := ChecksSinceRefund(env, w, FRESH_STORE, events, env.lower(a.email), []);
      LoginStep(env, EventRun(env, w, FRESH_STORE, events), a).1.TooManyRequests?
      <==> CountAfter(checks, a.now - 300.0) >= 20
  {
    hide LoginStep, StoreStep, OrdinaryRun, OrdinaryEvent, EventRun, EventRunClock, ChecksSinceRefund, Tracks,
        NextChecks;
    var account := env.lower(a.email);
    StartTracks(w, since, account);
    var s, l, now := RunTracks(env, w, FRESH_STORE, map[], events, since, account, []);
    var checks := ChecksSinceRefund(env, w, FRESH_STORE, events, account, []);
    var _ := EventTracks(env, w, s, l, Enters(a), now, account, checks);
    LoginIsItsEvents(env, w, s, a);
  }

  lemma {:induction false} ChecksWithoutRefund(env: Env, w: Windows, s: Store, events: seq<Event>, account: string,
                                               before: History)
    requires NoRefund(env, events, account)
    ensures ChecksSinceRefund(env, w, s, events, account, before) == before + PasswordChecks(env, w, s, events, account)
    decreases |events|
  {
    hide StoreStep;
    if events != [] {
      var e, s' := events[0], EventStep(env, w, s, events[0]);
      var rest := PasswordChecks(env, w, s', events[1..], account);
      assert !RefundsFor(env, e, account);
      assert NoRefund(env, events[1..], account);
      ChecksWithoutRefund(env, w, s', events[1..], account, NextChecks(env, w, s, e, account, before));
      if EntersFor(env, e, account) && LetThrough(env, w, s, e) {
        assert before + ([Hit(e.attempt.now, "")] + rest) == before + [Hit(e.attempt.now, "")] + rest;
      }
    }
  }

  lemma StartTracks(w: Windows, since: real, account: string)
    ensures Tracks(w, FRESH_STORE, map[], since, account, [])
  {
    FreshStoreAgrees(w, since);
  }

  /** In any stretch of any run in which no successful login refunds the account, however many of its
      logins are under way at once, at most 20 attempts on it reach the password check in any
      300-second window. */
  lemma LockoutWindow(env: Env, w: Windows, before: seq<Event>, stretch: seq<Event>, since: real, account: string,
                      t: real)
    requires LockoutConfigured(env, w) && NoRefund(env, stretch, account)
    requires OrdinaryRun(env, w, FRESH_STORE, before, since, account)
    requires OrdinaryRun(env, w, EventRun(env, w, FRESH_STORE, before), stretch, EventRunClock(env, before, since),
                         account)
    ensures var checks := PasswordChecks(env, w, EventRun(env, w, FRESH_STORE, before), stretch, account);
            CountIn(checks, t - 300.0, t) <= 20
  {
    hide Agree, OrdinaryRun, EventRun, EventRunClock, PasswordChecks, ChecksSinceRefund, NoRefund;
    hide Spaced, Ordered, CountIn, HistoryOf;
    assert Tracks(w, FRESH_STORE, map[], since, account, []) by { StartTracks(w, since, account); }
    var s, l, now := RunTracks(env, w, FRESH_STORE, map[], before, since, account, []);
    var earlier := ChecksSinceRefund(env, w, FRESH_STORE, before, account, []);
    var s', l', now' := RunTracks(env, w, s, l, stretch, now, account, earlier);
    ChecksWithoutRefund(env, w, s, stretch, account, earlier);
    var checks := PasswordChecks(env, w, s, stretch, account);
    HistoryIsOrdered(w, s', l', now', account);
    SpacedBoundsEveryWindow(earlier + checks, LOCKOUT_TIMES, LOCKOUT_SECONDS, now', t);
    CountInSuffix(earlier, checks, t - LOCKOUT_SECONDS, t);
  }

  /** A success refunds the account's whole budget. */
  lemma SuccessRefunds(env: Env, s: Store, a: Attempt)
    requires env.limiterEnabled && LoginStep(env, s, a).1.LoggedIn?
    ensures LoginStep(env, s, a).0.BucketAt("login-account", env.lower(a.email)) == []
  {
    hide AllowStep, OnlyIn;
  }

  /** Whether an account exists cannot be told from failed logins: two user tables that both refuse
      the password give the same answer and leave the limiter in the same state. */
  lemma FailedLoginsLookAlike(env: Env, users: map<string, User>, s: Store, a: Attempt)
    requires LoginStep(env, s, a).1 in {InvalidCredentials, TooManyRequests}
    requires var email := env.lower(a.email);
             email in users ==> !env.passwordMatches(a.password, users[email].passwordHash)
    ensures LoginStep(env.(users := users), s, a) == LoginStep(env, s, a)
  {
    hide AllowStep, ForgetStep;
    assert LoginStep(env, s, a).1 == TooManyRequests || LoginStep(env, s, a).1 == InvalidCredentials;
  }
}
