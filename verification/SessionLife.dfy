/**
 The life of one token: until when its key is found, its session resolves and the gate opens, in terms
 of what happened to it and when.
 */
module SessionLife {
  import opened Wrappers
  import opened Config
  import opened AuthModel
  import opened AuthInvariant
  import AuthRuns

  // ---- The cached key -------------------------------------------------------------------------

  /** The event takes the key of the token away for good: lock, logout, a detected expiry, or a recovery reset. */
  predicate Closes(cfg: Settings, s: State, at: Timed, tok: Token) {
    AuthRuns.Ends(cfg, s, at, tok) || (at.event.Reset? && Step(cfg, s, at.now, at.event).1.Opened?)
  }

  predicate ClosedIn(cfg: Settings, s: State, run: seq<Timed>, tok: Token)
    decreases |run|
  {
    run != []
    && (Closes(cfg, s, run[0], tok) || ClosedIn(cfg, Step(cfg, s, run[0].now, run[0].event).0, run[1..], tok))
  }

  /** The field key is found under the token at the given instant. */
  predicate HasKey(s: State, tok: Token, now: int) { GetKey(s.keys, tok, now).1.Some? }

  lemma ClosingKills(cfg: Settings, s: State, clock: int, at: Timed, tok: Token)
    requires Inv(cfg, s, clock) && clock <= at.now && Fresh(s, at.event) && tok in s.keys
    requires Closes(cfg, s, at, tok)
    ensures AuthRuns.Dead(Step(cfg, s, at.now, at.event).0, tok)
  {
  }

  lemma ResolvingKeepsKey(cfg: Settings, s: State, clock: int, now: int, who: Token, tok: Token)
    requires Inv(cfg, s, clock) && tok in s.keys
    requires who == tok ==> tok in s.sessions && !Expired(cfg, s.sessions[tok], now)
    ensures var s1 := ResolveSession(cfg, s, who, now).0;
            tok in s1.sessions && tok in s1.keys && s1.keys[tok] == s.keys[tok]
  {
  }

  /** Any other event keeps the key, unless it evicts an entry that has expired. */
  lemma {:induction false} OthersKeepKey(cfg: Settings, s: State, clock: int, at: Timed, tok: Token)
    requires Inv(cfg, s, clock) && clock <= at.now && Fresh(s, at.event) && tok in s.keys
    requires !Closes(cfg, s, at, tok)
    ensures var s' := Step(cfg, s, at.now, at.event).0;
            if tok in s'.keys then s'.keys[tok] == s.keys[tok]
            else AuthRuns.Dead(s', tok) && s.keys[tok].expiresAt <= at.now
  {
    assert KeyOk(s.user.value, s, tok, s.keys[tok]);
    match at.event {
      case Setup(_, _, _, _, _, _, _, _, _) =>
      case Unlock(_, _, _) =>
      case Reset(_, _, _, _, _, _) =>
      case Resolve(who, _) => ResolvingKeepsKey(cfg, s, clock, at.now, who, tok);
      case Gate(who, _) => ResolvingKeepsKey(cfg, s, clock, at.now, who, tok);
      case Logout(_) =>
      case Lock(_) =>
      case WorkerKey(_, _) =>
      case UserKey(userId, order) => ActiveKeyOnlyDrops(s.keys, order, userId, at.now);
    }
  }

  /** A cached key is still found later if and only if it has not expired and nothing closed it meanwhile. */
  lemma {:induction false} KeyFoundIff(cfg: Settings, s: State, clock: int, mid: seq<Timed>, tok: Token, now: int)
    requires Inv(cfg, s, clock) && Legal(cfg, s, clock, mid) && Clock(clock, mid) <= now && tok in s.keys
    ensures HasKey(Run(cfg, s, mid), tok, now) <==> now < s.keys[tok].expiresAt && !ClosedIn(cfg, s, mid, tok)
    decreases |mid|
  {
    if mid != [] {
      var at, rest := mid[0], mid[1..];
      var s' := Step(cfg, s, at.now, at.event).0;
      StepKeepsInv(cfg, s, clock, at.now, at.event);
      ClockReached(cfg, s, clock, mid);
      if Closes(cfg, s, at, tok) {
        ClosingKills(cfg, s, clock, at, tok);
        AuthRuns.DeadStaysDead(cfg, s', at.now, rest, tok);
      } else {
        OthersKeepKey(cfg, s, clock, at, tok);
        if tok in s'.keys {
          KeyFoundIff(cfg, s', at.now, rest, tok, now);
        } else {
          AuthRuns.DeadStaysDead(cfg, s', at.now, rest, tok);
        }
      }
    }
  }

  lemma {:induction false} ClockReached(cfg: Settings, s: State, clock: int, run: seq<Timed>)
    requires Legal(cfg, s, clock, run) && run != []
    ensures run[0].now <= Clock(clock, run)
    ensures Clock(run[0].now, run[1..]) == Clock(clock, run)
    decreases |run|
  {
    if |run| > 1 { ClockReached(cfg, Step(cfg, s, run[0].now, run[0].event).0, run[0].now, run[1..]); }
  }

  // ---- The session ----------------------------------------------------------------------------

  /** A request with this token, at this instant, would be resolved to its user. */
  predicate Resolves(cfg: Settings, s: State, now: int, tok: Token) {
    Step(cfg, s, now, Resolve(tok, false)).1.Granted?
  }

  /** The event ends the session: a logout of the token, or a recovery reset that goes through. */
  predicate LogsOut(cfg: Settings, s: State, at: Timed, tok: Token) {
    at.event == Logout(tok) || (at.event.Reset? && Step(cfg, s, at.now, at.event).1.Opened?)
  }

  predicate LoggedOutIn(cfg: Settings, s: State, run: seq<Timed>, tok: Token)
    decreases |run|
  {
    run != []
    && (LogsOut(cfg, s, run[0], tok) || LoggedOutIn(cfg, Step(cfg, s, run[0].now, run[0].event).0, run[1..], tok))
  }

  /** A committed request with the token that resolved. */
  predicate Uses(cfg: Settings, s: State, at: Timed, tok: Token) {
    (at.event == Resolve(tok, true) || at.event == Gate(tok, true)) && Resolves(cfg, s, at.now, tok)
  }

  /** When the token was last used in a run, `last` if never. */
  function LastUse(cfg: Settings, s: State, run: seq<Timed>, tok: Token, last: int): int
    decreases |run|
  {
    if run == [] then last
    else LastUse(cfg, Step(cfg, s, run[0].now, run[0].event).0, run[1..], tok,
                 if Uses(cfg, s, run[0], tok) then run[0].now else last)
  }

  /** The session is over at an instant: marked, or out of one of its two timeouts. */
  predicate Over(cfg: Settings, s: State, tok: Token, now: int) {
    && tok in s.sessions
    && (|| s.sessions[tok].revokedAt.Some?
        || now - s.sessions[tok].createdAt >= cfg.Absolute()
        || now - s.sessions[tok].lastSeen >= cfg.Idle())
  }

  /** A token resolves exactly when it has a session that is not over. */
  lemma {:induction false} ResolveIff(cfg: Settings, s: State, clock: int, now: int, tok: Token, commits: bool)
    requires Inv(cfg, s, clock) && clock <= now
    ensures Step(cfg, s, now, Resolve(tok, commits)).1.Granted? <==> tok in s.sessions && !Over(cfg, s, tok, now)
  {
    if tok in s.sessions { assert SessionOk(cfg, s.user.value, s.sessions[tok], clock); }
  }

  /** What an event does to the session of a token. */
  lemma {:induction false} SessionStep(cfg: Settings, s: State, clock: int, at: Timed, tok: Token)
    requires Inv(cfg, s, clock) && clock <= at.now && Fresh(s, at.event) && tok in s.sessions
    ensures var s' := Step(cfg, s, at.now, at.event).0;
            && tok in s'.sessions
            && s'.sessions[tok].createdAt == s.sessions[tok].createdAt
            && s'.sessions[tok].lastSeen == (if Uses(cfg, s, at, tok) then at.now else s.sessions[tok].lastSeen)
            && (LogsOut(cfg, s, at, tok) || s.sessions[tok].revokedAt.Some? ==> s'.sessions[tok].revokedAt.Some?)
            && (!LogsOut(cfg, s, at, tok) && s'.sessions[tok].revokedAt.Some? ==> Over(cfg, s, tok, at.now))
  {
    assert SessionOk(cfg, s.user.value, s.sessions[tok], clock);
    if at.event.Resolve? || at.event.Gate? {
      ResolvingStep(cfg, s, clock, at.now, at.event.token, tok);
      GateSession(cfg, s, at.now, at.event.token);
    } else {
      OtherSessionStep(cfg, s, clock, at, tok);
    }
  }

  /** What resolving some token does to the session of `tok`. */
  lemma {:induction false} ResolvingStep(cfg: Settings, s: State, clock: int, now: int, who: Token, tok: Token)
    requires Inv(cfg, s, clock) && clock <= now && tok in s.sessions
    ensures var s1 := ResolveSession(cfg, s, who, now).0;
            && tok in s1.sessions
            && s1.sessions[tok].createdAt == s.sessions[tok].createdAt
            && s1.sessions[tok].lastSeen
                 == (if who == tok && Resolves(cfg, s, now, tok) then now else s.sessions[tok].lastSeen)
            && (s.sessions[tok].revokedAt.Some? ==> s1.sessions[tok].revokedAt.Some?)
            && (s1.sessions[tok].revokedAt.Some? ==> Over(cfg, s, tok, now))
  {
    assert SessionOk(cfg, s.user.value, s.sessions[tok], clock);
  }

  lemma {:induction false} GateSession(cfg: Settings, s: State, now: int, who: Token)
    ensures PassGate(cfg, s, who, now).0.sessions == ResolveSession(cfg, s, who, now).0.sessions
  {
  }

  lemma {:induction false} OtherSessionStep(cfg: Settings, s: State, clock: int, at: Timed, tok: Token)
    requires Inv(cfg, s, clock) && clock <= at.now && Fresh(s, at.event) && tok in s.sessions
    requires !at.event.Resolve? && !at.event.Gate?
    ensures var s' := Step(cfg, s, at.now, at.event).0;
            && tok in s'.sessions
            && s'.sessions[tok].createdAt == s.sessions[tok].createdAt
            && s'.sessions[tok].lastSeen == s.sessions[tok].lastSeen
            && (LogsOut(cfg, s, at, tok) || s.sessions[tok].revokedAt.Some? <==> s'.sessions[tok].revokedAt.Some?)
  {
    assert SessionOk(cfg, s.user.value, s.sessions[tok], clock);
  }

  lemma {:induction false} OverStays(cfg: Settings, s: State, clock: int, run: seq<Timed>, tok: Token, last: int)
    requires Inv(cfg, s, clock) && Legal(cfg, s, clock, run) && Over(cfg, s, tok, clock)
    ensures Over(cfg, Run(cfg, s, run), tok, Clock(clock, run))
    ensures LastUse(cfg, s, run, tok, last) == last
    decreases |run|
  {
    if run != [] {
      var at := run[0];
      ResolveIff(cfg, s, clock, at.now, tok, false);
      SessionStep(cfg, s, clock, at, tok);
      StepKeepsInv(cfg, s, clock, at.now, at.event);
      ClockReached(cfg, s, clock, run);
      OverStays(cfg, Step(cfg, s, at.now, at.event).0, at.now, run[1..], tok, last);
    }
  }

  /**
   A token resolves at the end of a run if and only if its session was not marked before, no logout or
   recovery reset ended it meanwhile, and both timeouts still run - the idle one from its last use.
   Locks make no difference.
   */
  lemma {:induction false} ResolvesLaterIff(cfg: Settings, s: State, clock: int, run: seq<Timed>, tok: Token,
                                            now: int, commits: bool)
    requires Inv(cfg, s, clock) && Legal(cfg, s, clock, run) && tok in s.sessions && Clock(clock, run) <= now
    ensures var x := s.sessions[tok];
            Step(cfg, Run(cfg, s, run), now, Resolve(tok, commits)).1.Granted? <==>
            && x.revokedAt.None? && !LoggedOutIn(cfg, s, run, tok)
            && now - x.createdAt < cfg.Absolute()
            && now - LastUse(cfg, s, run, tok, x.lastSeen) < cfg.Idle()
    decreases |run|
  {
    if run == [] {
      ResolveIff(cfg, s, clock, now, tok, commits);
    } else {
      var at, rest := run[0], run[1..];
      var s' := Step(cfg, s, at.now, at.event).0;
      SessionStep(cfg, s, clock, at, tok);
      StepKeepsInv(cfg, s, clock, at.now, at.event);
      ClockReached(cfg, s, clock, run);
      ResolvesLaterIff(cfg, s', at.now, rest, tok, now, commits);
      if s'.sessions[tok].revokedAt.Some? { OverStays(cfg, s', at.now, rest, tok, s'.sessions[tok].lastSeen); }
    }
  }

  /** The same counted from the setup, unlock or reset that issued the token. */
  lemma ResolvesIff(cfg: Settings, s: State, clock: int, open: Timed, mid: seq<Timed>, tok: Token,
                    now: int, commits: bool)
    requires Inv(cfg, s, clock) && Legal(cfg, s, clock, [open] + mid) && Clock(open.now, mid) <= now
    requires AuthRuns.Opens(cfg, s, open.now, open.event, tok)
    ensures var s1 := Step(cfg, s, open.now, open.event).0;
            Step(cfg, Run(cfg, s, [open] + mid), now, Resolve(tok, commits)).1.Granted? <==>
            && !LoggedOutIn(cfg, s1, mid, tok)
            && now - open.now < cfg.Absolute()
            && now - LastUse(cfg, s1, mid, tok, open.now) < cfg.Idle()
  {
    LegalSplit(cfg, s, clock, [open], mid);
    var s1 := Step(cfg, s, open.now, open.event).0;
    assert Run(cfg, s, [open]) == s1;
    StepKeepsInv(cfg, s, clock, open.now, open.event);
    ResolvesLaterIff(cfg, s1, open.now, mid, tok, now, commits);
  }

  /**
   After a logout, a recovery reset or a request that found the session expired, no continuation of
   the run resolves the token again.
   */
  lemma EndedForGood(cfg: Settings, s: State, clock: int, end: Timed, post: seq<Timed>, tok: Token,
                     now: int, commits: bool)
    requires Inv(cfg, s, clock) && Legal(cfg, s, clock, [end] + post) && Clock(end.now, post) <= now
    requires tok in s.sessions
    requires LogsOut(cfg, s, end, tok)
             || ((end.event.Resolve? || end.event.Gate?) && end.event.token == tok && !Resolves(cfg, s, end.now, tok))
    ensures Step(cfg, Run(cfg, s, [end] + post), now, Resolve(tok, commits)).1 == Refused
  {
    LegalSplit(cfg, s, clock, [end], post);
    var s1 := Step(cfg, s, end.now, end.event).0;
    assert Run(cfg, s, [end]) == s1;
    SessionStep(cfg, s, clock, end, tok);
    StepKeepsInv(cfg, s, clock, end.now, end.event);
    if !LogsOut(cfg, s, end, tok) { ResolveIff(cfg, s, clock, end.now, tok, false); }
    OverStays(cfg, s1, end.now, post, tok, 0);
    RunKeepsInv(cfg, s1, end.now, post);
    ResolveIff(cfg, Run(cfg, s1, post), Clock(end.now, post), now, tok, commits);
  }

  /** A lock leaves the session itself as it is: the token resolves after it exactly when it would have before. */
  lemma LockKeepsSession(cfg: Settings, s: State, clock: int, lockAt: int, tok: Token, now: int, commits: bool)
    requires Inv(cfg, s, clock) && clock <= lockAt <= now && tok in s.sessions
    ensures Step(cfg, Step(cfg, s, lockAt, Lock(tok)).0, now, Resolve(tok, commits)).1.Granted? <==>
            Step(cfg, s, now, Resolve(tok, commits)).1.Granted?
  {
    StepKeepsInv(cfg, s, clock, lockAt, Lock(tok));
    ResolveIff(cfg, s, clock, now, tok, commits);
    ResolveIff(cfg, Step(cfg, s, lockAt, Lock(tok)).0, lockAt, now, tok, commits);
  }

  // ---- The gate and the worker ----------------------------------------------------------------

  /** The event shuts the gate for the token: a lock or logout of it, or a recovery reset that goes through. */
  predicate Shuts(cfg: Settings, s: State, at: Timed, tok: Token) { at.event == Lock(tok) || LogsOut(cfg, s, at, tok) }

  predicate ShutIn(cfg: Settings, s: State, run: seq<Timed>, tok: Token)
    decreases |run|
  {
    run != []
    && (Shuts(cfg, s, run[0], tok) || ShutIn(cfg, Step(cfg, s, run[0].now, run[0].event).0, run[1..], tok))
  }

  /** A committed request that the gate let in. */
  predicate Passes(cfg: Settings, s: State, at: Timed, tok: Token) {
    at.event == Gate(tok, true) && Step(cfg, s, at.now, at.event).1.Granted?
  }

  /** When the token last passed the gate in a run, `last` if never. */
  function LastPass(cfg: Settings, s: State, run: seq<Timed>, tok: Token, last: int): int
    decreases |run|
  {
    if run == [] then last
    else LastPass(cfg, Step(cfg, s, run[0].now, run[0].event).0, run[1..], tok,
                  if Passes(cfg, s, run[0], tok) then run[0].now else last)
  }

  /** A token with a cached key; its session was seen no earlier than its capability. */
  predicate Keyed(cfg: Settings, s: State, tok: Token, clock: int) {
    && Inv(cfg, s, clock) && s.user.Some? && tok in s.keys
    && KeyOk(s.user.value, s, tok, s.keys[tok])
    && s.capabilities[tok].lastSeen <= s.sessions[tok].lastSeen
  }

  lemma {:induction false} GateNow(cfg: Settings, s: State, clock: int, now: int, tok: Token, commits: bool,
                                   jobExpiresAt: Option<int>)
    requires Keyed(cfg, s, tok, clock) && clock <= now
    ensures var open := && now - s.sessions[tok].createdAt < cfg.Absolute()
                        && now - s.capabilities[tok].lastSeen < cfg.Ttl();
            && (Step(cfg, s, now, Gate(tok, commits)).1.Granted? <==> open)
            && (Step(cfg, s, now, WorkerKey(tok, jobExpiresAt)).1.Found? <==>
                  open && (jobExpiresAt.Some? ==> now < jobExpiresAt.value))
  {
    TtlWithinIdle(cfg);
    var u := s.user.value;
    assert SessionOk(cfg, u, s.sessions[tok], clock);
    assert CapabilityOk(cfg, u, s.sessions, tok, s.capabilities[tok], clock);
  }

  /** What an event does to a token with a cached key. */
  lemma {:induction false} KeyedStep(cfg: Settings, s: State, clock: int, at: Timed, tok: Token)
    requires Keyed(cfg, s, tok, clock) && clock <= at.now && Fresh(s, at.event)
    ensures var s' := Step(cfg, s, at.now, at.event).0;
            && tok in s'.sessions && s'.sessions[tok].createdAt == s.sessions[tok].createdAt
            && (Shuts(cfg, s, at, tok) ==> AuthRuns.Dead(s', tok))
            && (!Shuts(cfg, s, at, tok) && tok in s'.keys ==>
                  && tok in s'.capabilities
                  && s'.capabilities[tok].lastSeen
                       == (if Passes(cfg, s, at, tok) then at.now else s.capabilities[tok].lastSeen)
                  && s'.capabilities[tok].lastSeen <= s'.sessions[tok].lastSeen)
            && (!Shuts(cfg, s, at, tok) && tok !in s'.keys ==>
                  && !Passes(cfg, s, at, tok)
                  && (|| at.now - s.sessions[tok].createdAt >= cfg.Absolute()
                      || at.now - s.capabilities[tok].lastSeen >= cfg.Ttl()))
  {
    TtlWithinIdle(cfg);
    var u := s.user.value;
    assert SessionOk(cfg, u, s.sessions[tok], clock);
    assert CapabilityOk(cfg, u, s.sessions, tok, s.capabilities[tok], clock);
    SessionStep(cfg, s, clock, at, tok);
    if Shuts(cfg, s, at, tok) {
      ClosingKills(cfg, s, clock, at, tok);
    } else if !Closes(cfg, s, at, tok) {
      OthersKeepKey(cfg, s, clock, at, tok);
      CapabilityStep(cfg, s, clock, at, tok);
    }
  }

  lemma {:induction false} CapabilityStep(cfg: Settings, s: State, clock: int, at: Timed, tok: Token)
    requires Keyed(cfg, s, tok, clock) && clock <= at.now && Fresh(s, at.event) && !Closes(cfg, s, at, tok)
    ensures var s' := Step(cfg, s, at.now, at.event).0;
            tok in s'.keys ==>
              && tok in s'.capabilities
              && s'.capabilities[tok].lastSeen
                   == (if Passes(cfg, s, at, tok) then at.now else s.capabilities[tok].lastSeen)
  {
    assert SessionOk(cfg, s.user.value, s.sessions[tok], clock);
    AuthRuns.StepOnIssuedToken(cfg, s, at.now, at.event, tok);
  }

  lemma {:induction false} DeadNeverPasses(cfg: Settings, s: State, clock: int, run: seq<Timed>, tok: Token, last: int)
    requires AuthRuns.Dead(s, tok) && Legal(cfg, s, clock, run)
    ensures LastPass(cfg, s, run, tok, last) == last
    decreases |run|
  {
    if run != [] {
      AuthRuns.DeadIsBlocked(cfg, s, tok, run[0].now, true, None);
      AuthRuns.DeadStep(cfg, s, run[0].now, run[0].event, tok);
      DeadNeverPasses(cfg, Step(cfg, s, run[0].now, run[0].event).0, run[0].now, run[1..], tok, last);
    }
  }

  /** The exact access decision at the end of a run, for a token with a cached key at its start. */
  lemma {:induction false} AccessLaterIff(cfg: Settings, s: State, clock: int, run: seq<Timed>, tok: Token,
                                          now: int, commits: bool, jobExpiresAt: Option<int>)
    requires Keyed(cfg, s, tok, clock) && Legal(cfg, s, clock, run) && Clock(clock, run) <= now
    ensures var s' := Run(cfg, s, run);
            var open := && !ShutIn(cfg, s, run, tok)
                        && now - s.sessions[tok].createdAt < cfg.Absolute()
                        && now - LastPass(cfg, s, run, tok, s.capabilities[tok].lastSeen) < cfg.Ttl();
            && (Step(cfg, s', now, Gate(tok, commits)).1.Granted? <==> open)
            && (Step(cfg, s', now, WorkerKey(tok, jobExpiresAt)).1.Found? <==>
                  open && (jobExpiresAt.Some? ==> now < jobExpiresAt.value))
    decreases |run|
  {
    if run == [] {
      GateNow(cfg, s, clock, now, tok, commits, jobExpiresAt);
    } else {
      var at, rest := run[0], run[1..];
      var s' := Step(cfg, s, at.now, at.event).0;
      KeyedStep(cfg, s, clock, at, tok);
      StepKeepsInv(cfg, s, clock, at.now, at.event);
      ClockReached(cfg, s, clock, run);
      if tok in s'.keys {
        assert KeyOk(s'.user.value, s', tok, s'.keys[tok]);
        AccessLaterIff(cfg, s', at.now, rest, tok, now, commits, jobExpiresAt);
      } else {
        DeadNeverPasses(cfg, s', at.now, rest, tok, s.capabilities[tok].lastSeen);
        AuthRuns.DeadStaysDead(cfg, s', at.now, rest, tok);
        AuthRuns.DeadIsBlocked(cfg, Run(cfg, s', rest), tok, now, commits, jobExpiresAt);
      }
    }
  }

  /**
   Exact access: a token passes the gate at an instant if and only if, since the setup, unlock or reset
   that issued it, it was not locked, logged out or ended by a recovery reset, less than the absolute
   timeout has gone by since the issue, and less than the capability lifetime since its last pass. The
   worker finds the key under the same condition, and not beyond the job's own expiry.
   */
  lemma AccessIff(cfg: Settings, s: State, clock: int, open: Timed, mid: seq<Timed>, tok: Token,
                  now: int, commits: bool, jobExpiresAt: Option<int>)
    requires Inv(cfg, s, clock) && Legal(cfg, s, clock, [open] + mid) && Clock(open.now, mid) <= now
    requires AuthRuns.Opens(cfg, s, open.now, open.event, tok)
    ensures var s1 := Step(cfg, s, open.now, open.event).0;
            var s' := Run(cfg, s, [open] + mid);
            var granted := && !ShutIn(cfg, s1, mid, tok)
                           && now - open.now < cfg.Absolute()
                           && now - LastPass(cfg, s1, mid, tok, open.now) < cfg.Ttl();
            && (Step(cfg, s', now, Gate(tok, commits)).1.Granted? <==> granted)
            && (Step(cfg, s', now, WorkerKey(tok, jobExpiresAt)).1.Found? <==>
                  granted && (jobExpiresAt.Some? ==> now < jobExpiresAt.value))
  {
    LegalSplit(cfg, s, clock, [open], mid);
    var s1 := Step(cfg, s, open.now, open.event).0;
    assert Run(cfg, s, [open]) == s1;
    StepKeepsInv(cfg, s, clock, open.now, open.event);
    assert KeyOk(s1.user.value, s1, tok, s1.keys[tok]);
    AccessLaterIff(cfg, s1, open.now, mid, tok, now, commits, jobExpiresAt);
  }

  // ---- The capability row ---------------------------------------------------------------------

  predicate CapabilityRevoked(s: State, tok: Token) {
    tok in s.sessions && tok in s.capabilities && s.capabilities[tok].revokedAt.Some?
  }

  lemma {:induction false} RevokedStep(cfg: Settings, s: State, at: Timed, tok: Token)
    requires CapabilityRevoked(s, tok) && Fresh(s, at.event)
    ensures CapabilityRevoked(Step(cfg, s, at.now, at.event).0, tok)
  {
  }

  lemma {:induction false} RevokedStays(cfg: Settings, s: State, clock: int, run: seq<Timed>, tok: Token)
    requires CapabilityRevoked(s, tok) && Legal(cfg, s, clock, run)
    ensures CapabilityRevoked(Run(cfg, s, run), tok)
    decreases |run|
  {
    if run != [] {
      RevokedStep(cfg, s, run[0], tok);
      RevokedStays(cfg, Step(cfg, s, run[0].now, run[0].event).0, run[0].now, run[1..], tok);
    }
  }

  /** A lock, a logout or a recovery reset revokes the capability of the token, and nothing renews it. */
  lemma ShuttingRevokes(cfg: Settings, s: State, clock: int, end: Timed, post: seq<Timed>, tok: Token)
    requires Inv(cfg, s, clock) && Legal(cfg, s, clock, [end] + post) && Shuts(cfg, s, end, tok)
    requires tok in s.sessions && tok in s.capabilities
    ensures CapabilityRevoked(Run(cfg, s, [end] + post), tok)
  {
    LegalSplit(cfg, s, clock, [end], post);
    var s1 := Step(cfg, s, end.now, end.event).0;
    assert Run(cfg, s, [end]) == s1;
    assert CapabilityOk(cfg, s.user.value, s.sessions, tok, s.capabilities[tok], clock);
    RevokedStays(cfg, s1, end.now, post, tok);
  }
}
