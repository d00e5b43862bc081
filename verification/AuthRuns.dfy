/** What holds over whole runs of setups, unlocks, resets, requests, locks, logouts and key lookups. */
module AuthRuns {
  import opened Wrappers
  import opened Config
  import opened Crypto
  import opened AuthModel
  import opened AuthInvariant

  // ---- Agreement of the stores ----------------------------------------------------------------

  /**
   In every state reached from an empty installation, live capabilities and sessions carry the
   current epoch, and every cached key belongs to a live session with a live capability.
   */
  lemma StoresAgree(cfg: Settings, run: seq<Timed>, clock: int)
    requires Legal(cfg, EMPTY, clock, run)
    ensures var s := Run(cfg, EMPTY, run);
            && (forall t :: t in s.sessions && s.sessions[t].revokedAt.None? ==>
                  s.user.Some? && s.sessions[t].epoch == s.user.value.epoch)
            && (forall t :: t in s.capabilities && s.capabilities[t].revokedAt.None? ==>
                  s.user.Some? && s.capabilities[t].epoch == s.user.value.epoch)
            && (forall t :: t in s.keys ==>
                  && t in s.sessions && s.sessions[t].revokedAt.None?
                  && t in s.capabilities && s.capabilities[t].revokedAt.None?)
  {
    RunKeepsInv(cfg, EMPTY, clock, run);
    var s := Run(cfg, EMPTY, run);
    if s.user.Some? {
      var u, c := s.user.value, Clock(clock, run);
      assert forall t :: t in s.sessions ==> SessionOk(cfg, u, s.sessions[t], c);
      assert forall t :: t in s.capabilities ==> CapabilityOk(cfg, u, s.sessions, t, s.capabilities[t], c);
      assert forall t :: t in s.keys ==> KeyOk(u, s, t, s.keys[t]);
    }
  }

  // ---- Tokens that are dead for good ----------------------------------------------------------

  /** A token that once had a session and whose key is gone. */
  predicate Dead(s: State, tok: Token) { tok in s.sessions && tok !in s.keys }

  lemma DeadIsBlocked(cfg: Settings, s: State, tok: Token, now: int, commits: bool, jobExpiresAt: Option<int>)
    requires Dead(s, tok)
    ensures Step(cfg, s, now, Gate(tok, commits)).1 == Refused
    ensures Step(cfg, s, now, WorkerKey(tok, jobExpiresAt)).1 == Refused
  {
  }

  lemma DeadStep(cfg: Settings, s: State, now: int, ev: Event, tok: Token)
    requires Dead(s, tok) && Fresh(s, ev)
    ensures Dead(Step(cfg, s, now, ev).0, tok)
  {
    if ev.UserKey? { ActiveKeyOnlyDrops(s.keys, ev.order, ev.userId, now); }
  }

  lemma {:induction false} DeadStaysDead(cfg: Settings, s: State, clock: int, run: seq<Timed>, tok: Token)
    requires Dead(s, tok) && Legal(cfg, s, clock, run)
    ensures Dead(Run(cfg, s, run), tok)
    decreases |run|
  {
    if run != [] {
      DeadStep(cfg, s, run[0].now, run[0].event, tok);
      DeadStaysDead(cfg, Step(cfg, s, run[0].now, run[0].event).0, run[0].now, run[1..], tok);
    }
  }

  /** The step that ends a token: a lock, a logout, or any request that finds its session expired. */
  predicate Ends(cfg: Settings, s: State, at: Timed, tok: Token) {
    && tok in s.sessions
    && match at.event
       case Lock(t) => t == tok
       case Logout(t) => t == tok
       case Resolve(t, _) => t == tok && Expired(cfg, s.sessions[tok], at.now)
       case Gate(t, _) => t == tok && Expired(cfg, s.sessions[tok], at.now)
       case _ => false
  }

  /** After a lock, a logout or a detected expiry no continuation of the run opens the gate to that token again. */
  lemma PermanentLock(cfg: Settings, s: State, clock: int, end: Timed, post: seq<Timed>, tok: Token,
                      now: int, commits: bool, jobExpiresAt: Option<int>)
    requires Legal(cfg, s, clock, [end] + post) && Ends(cfg, s, end, tok)
    ensures var s' := Run(cfg, s, [end] + post);
            && Step(cfg, s', now, Gate(tok, commits)).1 == Refused
            && Step(cfg, s', now, WorkerKey(tok, jobExpiresAt)).1 == Refused
  {
    LegalSplit(cfg, s, clock, [end], post);
    var s1 := Step(cfg, s, end.now, end.event).0;
    assert Run(cfg, s, [end]) == s1;
    assert Dead(s1, tok);
    DeadStaysDead(cfg, s1, end.now, post, tok);
    DeadIsBlocked(cfg, Run(cfg, s1, post), tok, now, commits, jobExpiresAt);
  }

  lemma ResetEndsEarlierTokens(cfg: Settings, s: State, clock: int, reset: Timed, tok: Token)
    requires Inv(cfg, s, clock) && reset.event.Reset? && Fresh(s, reset.event)
    requires Step(cfg, s, reset.now, reset.event).1.Opened?
    requires tok in s.sessions
    ensures Dead(Step(cfg, s, reset.now, reset.event).0, tok)
  {
  }

  /**
   After a recovery reset, neither the gate nor the worker's key lookup - which never compares
   epochs - serves a token issued before it, however the run goes on.
   */
  lemma NoKeyAcrossReset(cfg: Settings, s: State, clock: int, reset: Timed, post: seq<Timed>, tok: Token,
                         now: int, commits: bool, jobExpiresAt: Option<int>)
    requires Inv(cfg, s, clock) && Legal(cfg, s, clock, [reset] + post)
    requires reset.event.Reset? && Step(cfg, s, reset.now, reset.event).1.Opened?
    requires tok in s.sessions
    ensures var s' := Run(cfg, s, [reset] + post);
            && Step(cfg, s', now, Gate(tok, commits)).1 == Refused
            && Step(cfg, s', now, WorkerKey(tok, jobExpiresAt)).1 == Refused
  {
    LegalSplit(cfg, s, clock, [reset], post);
    var s1 := Step(cfg, s, reset.now, reset.event).0;
    assert Run(cfg, s, [reset]) == s1;
    ResetEndsEarlierTokens(cfg, s, clock, reset, tok);
    DeadStaysDead(cfg, s1, reset.now, post, tok);
    DeadIsBlocked(cfg, Run(cfg, s1, post), tok, now, commits, jobExpiresAt);
  }

  // ---- One data key for the life of the account -----------------------------------------------

  lemma StepKeepsDataKey(cfg: Settings, s: State, clock: int, now: int, ev: Event)
    requires Inv(cfg, s, clock) && s.user.Some?
    ensures var s' := Step(cfg, s, now, ev).0;
            s'.user.Some? && DataKey(s'.user.value) == DataKey(s.user.value) && s'.user.value.id == s.user.value.id
  {
  }

  lemma {:induction false} RunKeepsDataKey(cfg: Settings, s: State, clock: int, run: seq<Timed>)
    requires Inv(cfg, s, clock) && Legal(cfg, s, clock, run) && s.user.Some?
    ensures var s' := Run(cfg, s, run);
            s'.user.Some? && DataKey(s'.user.value) == DataKey(s.user.value) && s'.user.value.id == s.user.value.id
    decreases |run|
  {
    if run != [] {
      StepKeepsDataKey(cfg, s, clock, run[0].now, run[0].event);
      StepKeepsInv(cfg, s, clock, run[0].now, run[0].event);
      RunKeepsDataKey(cfg, Step(cfg, s, run[0].now, run[0].event).0, run[0].now, run[1..]);
    }
  }

  lemma {:induction false} ActiveKeyIsCached(keys: map<Token, CachedKey>, order: seq<Token>, userId: UserId, now: int)
    ensures var r := ActiveKey(keys, order, userId, now).1;
            r.Some? ==>
              exists t :: t in keys && keys[t].userId == userId && now < keys[t].expiresAt && keys[t].key == r.value
    ensures (forall t :: t in keys ==> t in order) ==>
              (ActiveKey(keys, order, userId, now).1.Some? <==>
                exists t :: t in keys && keys[t].userId == userId && now < keys[t].expiresAt)
    decreases |order|
  {
    if order != [] {
      var tok, rest := order[0], order[1..];
      assert order == [tok] + rest;
      if tok in keys && keys[tok].expiresAt <= now {
        var fewer := keys - {tok};
        ActiveKeyIsCached(fewer, rest, userId, now);
        assert forall t :: t in keys && now < keys[t].expiresAt ==> t in fewer && fewer[t] == keys[t];
      } else if tok !in keys {
        ActiveKeyIsCached(keys, rest, userId, now);
      } else if keys[tok].userId != userId {
        AbsentUserToken(keys, order, userId, now);
      }
    }
  }

  /** Skipping a live entry of another user does not change what the rest of the scan finds. */
  lemma AbsentUserToken(keys: map<Token, CachedKey>, order: seq<Token>, userId: UserId, now: int)
    requires order != [] && order[0] in keys && now < keys[order[0]].expiresAt && keys[order[0]].userId != userId
    ensures var r := ActiveKey(keys, order, userId, now).1;
            r.Some? ==>
              exists t :: t in keys && keys[t].userId == userId && now < keys[t].expiresAt && keys[t].key == r.value
    ensures (forall t :: t in keys ==> t in order) ==>
              (ActiveKey(keys, order, userId, now).1.Some? <==>
                exists t :: t in keys && keys[t].userId == userId && now < keys[t].expiresAt)
    decreases |order|, 0
  {
    var rest := order[1..];
    var others := keys - {order[0]};
    ScanIgnoresOther(keys, rest, order[0], userId, now);
    ActiveKeyIsCached(others, rest, userId, now);
    assert order == [order[0]] + rest;
    assert forall t :: t in others ==> others[t] == keys[t];
  }

  lemma {:induction false} ScanIgnoresOther(keys: map<Token, CachedKey>, order: seq<Token>, other: Token,
                                            userId: UserId, now: int)
    requires other in keys && keys[other].userId != userId && now < keys[other].expiresAt
    ensures ActiveKey(keys, order, userId, now).1 == ActiveKey(keys - {other}, order, userId, now).1
    decreases |order|
  {
    if order != [] {
      var tok, rest := order[0], order[1..];
      if tok in keys && keys[tok].expiresAt <= now {
        ScanIgnoresOther(keys - {tok}, rest, other, userId, now);
        assert keys - {tok} - {other} == keys - {other} - {tok};
      } else if tok !in keys || keys[tok].userId != userId {
        ScanIgnoresOther(keys, rest, other, userId, now);
      }
    }
  }

  /** A key that any operation hands out, or caches for a new session, is the account's data key. */
  lemma {:induction false} RepliesGiveDataKey(cfg: Settings, s: State, clock: int, now: int, ev: Event)
    requires Inv(cfg, s, clock) && clock <= now && Fresh(s, ev)
    ensures var (s', r) := Step(cfg, s, now, ev);
            && (r.Opened? ==> s'.user.Some? && r.dek == DataKey(s'.user.value)
                              && ev.token in s'.keys && s'.keys[ev.token].key == r.dek)
            && (r.Found? ==> s'.user.Some? && r.key == DataKey(s'.user.value))
  {
    match ev {
      case WorkerKey(tok, _) =>
        if tok in s.keys { assert KeyOk(s.user.value, s, tok, s.keys[tok]); }
      case UserKey(userId, order) =>
        ActiveKeyIsCached(s.keys, order, userId, now);
        if s.user.Some? { assert forall t :: t in s.keys ==> KeyOk(s.user.value, s, t, s.keys[t]); }
      case _ =>
    }
  }

  /**
   Data-key permanence: once an account has a session opened with some data key, every later
   unlock, reset, worker lookup or user-key lookup that succeeds - under any availability of the
   primary KDF at any step - yields that same key.
   */
  lemma OneDataKey(cfg: Settings, s: State, clock: int, first: Timed, mid: seq<Timed>, later: Timed)
    requires Inv(cfg, s, clock) && Legal(cfg, s, clock, [first] + mid + [later])
    requires Step(cfg, s, first.now, first.event).1.Opened?
    ensures var s1 := Run(cfg, s, [first] + mid);
            var r := Step(cfg, s1, later.now, later.event).1;
            && (r.Opened? ==> r.dek == Step(cfg, s, first.now, first.event).1.dek)
            && (r.Found? ==> r.key == Step(cfg, s, first.now, first.event).1.dek)
  {
    var s0 := Step(cfg, s, first.now, first.event).0;
    assert Run(cfg, s, [first]) == s0;
    assert [first] + mid + [later] == [first] + (mid + [later]);
    LegalSplit(cfg, s, clock, [first], mid + [later]);
    LegalSplit(cfg, s0, first.now, mid, [later]);
    LegalSplit(cfg, s, clock, [first], mid);
    StepKeepsInv(cfg, s, clock, first.now, first.event);
    RepliesGiveDataKey(cfg, s, clock, first.now, first.event);
    RunKeepsDataKey(cfg, s0, first.now, mid);
    RunKeepsInv(cfg, s0, first.now, mid);
    var s1 := Run(cfg, s0, mid);
    StepKeepsDataKey(cfg, s1, Clock(first.now, mid), later.now, later.event);
    RepliesGiveDataKey(cfg, s1, Clock(first.now, mid), later.now, later.event);
  }

  /** The user-key lookup does not depend on the order in which the cache is walked. */
  lemma UserKeyIgnoresOrder(cfg: Settings, s: State, clock: int, now: int, userId: UserId,
                            o1: seq<Token>, o2: seq<Token>)
    requires Inv(cfg, s, clock)
    requires forall t :: t in s.keys ==> t in o1 && t in o2
    ensures ActiveKey(s.keys, o1, userId, now).1 == ActiveKey(s.keys, o2, userId, now).1
    ensures ActiveKey(s.keys, o1, userId, now).1.Some? <==>
              exists t :: t in s.keys && s.keys[t].userId == userId && now < s.keys[t].expiresAt
  {
    ActiveKeyIsCached(s.keys, o1, userId, now);
    ActiveKeyIsCached(s.keys, o2, userId, now);
    if s.user.Some? { assert forall t :: t in s.keys ==> KeyOk(s.user.value, s, t, s.keys[t]); }
  }

  /**
   The right password opens an account exactly when the KDF it was stored under can run: the
   fallback to PBKDF2 at unlock time does not help an account whose hash was made with argon2id.
   */
  lemma RightPasswordUnlocksIff(cfg: Settings, s: State, clock: int, now: int, token: Token, attempt: string,
                                password: string, argonAtSetup: bool, argonNow: bool)
    requires Inv(cfg, s, clock) && s.user.Some?
    requires (s.user.value.passwordKdf, s.user.value.passwordHash)
               == HashSecret(password, s.user.value.passwordSalt, argonAtSetup)
    ensures Step(cfg, s, now, Unlock(token, attempt, argonNow)).1.Opened? <==>
              attempt == password && (argonAtSetup ==> argonNow)
  {
  }

  /** An account set up with argon2id does not open with its own password while argon2 is missing. */
  lemma FallbackDoesNotUnlock(cfg: Settings, setup: Event, token: Token)
    requires setup.Setup? && setup.policyOk && setup.argon && token != setup.token
    ensures var (s, reply) := Step(cfg, EMPTY, 0, setup);
            && Legal(cfg, EMPTY, 0, [At(0, setup), At(1, Unlock(token, setup.password, false))])
            && reply.Opened? && Step(cfg, s, 1, Unlock(token, setup.password, false)).1 == Refused
  {
  }

  // ---- The chain of accesses ------------------------------------------------------------------

  /** The request reaches and passes the capability check for this token. */
  predicate PassesCheck(cfg: Settings, s: State, now: int, ev: Event, tok: Token) {
    && ev.Gate? && ev.token == tok
    && var (s1, who) := ResolveSession(cfg, s, tok, now);
       who.Some? && tok in s1.sessions && CapabilityHolds(s1.capabilities, who.value, s1.sessions[tok], tok, now)
  }

  predicate Opens(cfg: Settings, s: State, now: int, ev: Event, tok: Token) {
    (ev.Setup? || ev.Unlock? || ev.Reset?) && ev.token == tok && Step(cfg, s, now, ev).1.Opened?
  }

  /** Instants at which the token was issued or passed the capability check, in order. */
  function AccessTimes(cfg: Settings, s: State, run: seq<Timed>, tok: Token): seq<int>
    decreases |run|
  {
    if run == [] then []
    else
      var at := run[0];
      (if Opens(cfg, s, at.now, at.event, tok) || PassesCheck(cfg, s, at.now, at.event, tok) then [at.now] else [])
      + AccessTimes(cfg, Step(cfg, s, at.now, at.event).0, run[1..], tok)
  }

  /** Every gap is shorter than the capability TTL and the whole chain is shorter than the absolute timeout. */
  predicate Chain(cfg: Settings, times: seq<int>, created: int) {
    && (forall i :: 0 < i < |times| ==> 0 <= times[i] - times[i - 1] < cfg.Ttl())
    && (forall i :: 0 <= i < |times| ==> times[i] - created < cfg.Absolute())
  }

  lemma GrantedPassesCheck(cfg: Settings, s: State, now: int, tok: Token, commits: bool)
    requires Step(cfg, s, now, Gate(tok, commits)).1.Granted?
    ensures PassesCheck(cfg, s, now, Gate(tok, commits), tok)
  {
  }

  /** The rows of a token that already has a session survive; the capability's last use moves only in a passed check. */
  predicate KeepsIssued(s: State, s': State, tok: Token, touchedAt: Option<int>) {
    && tok in s.sessions && tok in s.capabilities && tok in s'.sessions && tok in s'.capabilities
    && s'.sessions[tok].createdAt == s.sessions[tok].createdAt
    && (s'.capabilities[tok].lastSeen == s.capabilities[tok].lastSeen
        || touchedAt == Some(s'.capabilities[tok].lastSeen))
  }

  lemma OpeningKeepsOthers(cfg: Settings, s: State, now: int, ev: Event, tok: Token)
    requires (ev.Setup? || ev.Unlock? || ev.Reset?) && Fresh(s, ev)
    requires tok in s.sessions && tok in s.capabilities
    ensures KeepsIssued(s, Step(cfg, s, now, ev).0, tok, None)
  {
  }

  lemma ResolvingKeepsOthers(cfg: Settings, s: State, now: int, other: Token, tok: Token)
    requires tok in s.sessions && tok in s.capabilities
    ensures KeepsIssued(s, ResolveSession(cfg, s, other, now).0, tok, None)
  {
  }

  lemma GateKeepsOthers(cfg: Settings, s: State, now: int, other: Token, commits: bool, tok: Token)
    requires tok in s.sessions && tok in s.capabilities
    ensures KeepsIssued(s, Step(cfg, s, now, Gate(other, commits)).0, tok,
                        if PassesCheck(cfg, s, now, Gate(other, commits), tok) then Some(now) else None)
  {
    ResolvingKeepsOthers(cfg, s, now, other, tok);
  }

  lemma StepOnIssuedToken(cfg: Settings, s: State, now: int, ev: Event, tok: Token)
    requires Fresh(s, ev) && tok in s.sessions && tok in s.capabilities
    ensures KeepsIssued(s, Step(cfg, s, now, ev).0, tok, if PassesCheck(cfg, s, now, ev, tok) then Some(now) else None)
    ensures !Opens(cfg, s, now, ev, tok)
  {
    match ev {
      case Setup(_, _, _, _, _, _, _, _, _) => OpeningKeepsOthers(cfg, s, now, ev, tok);
      case Unlock(_, _, _) => OpeningKeepsOthers(cfg, s, now, ev, tok);
      case Reset(_, _, _, _, _, _) => OpeningKeepsOthers(cfg, s, now, ev, tok);
      case Resolve(other, _) => ResolvingKeepsOthers(cfg, s, now, other, tok);
      case Gate(other, commits) => GateKeepsOthers(cfg, s, now, other, commits, tok);
      case Logout(_) =>
      case Lock(_) =>
      case WorkerKey(_, _) =>
      case UserKey(_, _) =>
    }
  }

  /** A session starts with its capability issued at the same instant, and only through an opening. */
  lemma {:induction false} StepOnUnknownToken(cfg: Settings, s: State, clock: int, now: int, ev: Event, tok: Token)
    requires Inv(cfg, s, clock) && tok !in s.sessions
    ensures var s' := Step(cfg, s, now, ev).0;
            if Opens(cfg, s, now, ev, tok)
            then tok in s'.sessions && tok in s'.capabilities
                 && s'.sessions[tok].createdAt == now && s'.capabilities[tok].lastSeen == now
            else tok !in s'.sessions && !PassesCheck(cfg, s, now, ev, tok)
  {
  }

  lemma {:induction false} ChainFrom(cfg: Settings, s: State, clock: int, run: seq<Timed>, tok: Token, last: int)
    requires Inv(cfg, s, clock) && Legal(cfg, s, clock, run)
    requires tok in s.sessions && tok in s.capabilities
    requires s.capabilities[tok].lastSeen <= last <= clock
    requires last - s.sessions[tok].createdAt < cfg.Absolute()
    ensures Chain(cfg, [last] + AccessTimes(cfg, s, run, tok), s.sessions[tok].createdAt)
    decreases |run|
  {
    if run == [] {
      assert [last] + AccessTimes(cfg, s, run, tok) == [last];
    } else {
      var now, ev := run[0].now, run[0].event;
      var s' := Step(cfg, s, now, ev).0;
      StepKeepsInv(cfg, s, clock, now, ev);
      StepOnIssuedToken(cfg, s, now, ev, tok);
      var rest := AccessTimes(cfg, s', run[1..], tok);
      if PassesCheck(cfg, s, now, ev, tok) {
        assert CapabilityOk(cfg, s.user.value, s.sessions, tok, s.capabilities[tok], clock);
        assert SessionOk(cfg, s.user.value, s.sessions[tok], clock);
        ChainFrom(cfg, s', now, run[1..], tok, now);
        var tail := [now] + rest;
        assert AccessTimes(cfg, s, run, tok) == tail;
        var all := [last] + tail;
        forall i | 0 < i < |all| ensures 0 <= all[i] - all[i - 1] < cfg.Ttl() {
          if i > 1 { assert all[i] == tail[i - 1] && all[i - 1] == tail[i - 2]; }
        }
        forall i | 0 <= i < |all| ensures all[i] - s.sessions[tok].createdAt < cfg.Absolute() {
          if i > 0 { assert all[i] == tail[i - 1]; }
        }
      } else {
        ChainFrom(cfg, s', now, run[1..], tok, last);
        assert AccessTimes(cfg, s, run, tok) == rest;
      }
    }
  }

  /**
   The access chain of a token not yet issued: its first entry is the issue, each later pass of the
   capability check comes less than the TTL after the previous entry, and none comes at or after
   issue plus the absolute timeout, however often the token is touched.
   */
  lemma {:induction false} AccessChain(cfg: Settings, s: State, clock: int, run: seq<Timed>, tok: Token)
    requires Inv(cfg, s, clock) && Legal(cfg, s, clock, run) && tok !in s.sessions
    ensures var times := AccessTimes(cfg, s, run, tok);
            && (times != [] ==> Chain(cfg, times, times[0]))
            && (tok in Run(cfg, s, run).sessions ==>
                  times != [] && Run(cfg, s, run).sessions[tok].createdAt == times[0])
    decreases |run|
  {
    if run != [] {
      var now, ev := run[0].now, run[0].event;
      var s' := Step(cfg, s, now, ev).0;
      StepKeepsInv(cfg, s, clock, now, ev);
      StepOnUnknownToken(cfg, s, clock, now, ev, tok);
      if Opens(cfg, s, now, ev, tok) {
        TtlWithinIdle(cfg);
        ChainFrom(cfg, s', now, run[1..], tok, now);
        CreationIsFixed(cfg, s', now, run[1..], tok);
      } else {
        AccessChain(cfg, s', now, run[1..], tok);
        assert AccessTimes(cfg, s, run, tok) == AccessTimes(cfg, s', run[1..], tok);
      }
    }
  }

  lemma {:induction false} CreationIsFixed(cfg: Settings, s: State, clock: int, run: seq<Timed>, tok: Token)
    requires Inv(cfg, s, clock) && Legal(cfg, s, clock, run) && tok in s.sessions && tok in s.capabilities
    ensures var s' := Run(cfg, s, run);
            tok in s'.sessions && s'.sessions[tok].createdAt == s.sessions[tok].createdAt
    decreases |run|
  {
    if run != [] {
      StepKeepsInv(cfg, s, clock, run[0].now, run[0].event);
      StepOnIssuedToken(cfg, s, run[0].now, run[0].event, tok);
      CreationIsFixed(cfg, Step(cfg, s, run[0].now, run[0].event).0, run[0].now, run[1..], tok);
    }
  }
}
