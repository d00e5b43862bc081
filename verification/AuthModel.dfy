/**
 The access-control state of the application and the effect of each operation on it:
 the user row, the session rows, the unlock-capability rows and the in-memory key cache.

 Rows are keyed by the session token; the original keys them by a hash of the token,
 taken here to be injective. A missing token behaves like a token without a session row.
 */
module AuthModel {
  import opened Wrappers
  import opened Config
  import opened Crypto

  type Token = string
  type UserId = string

  datatype User = User(
    id: UserId,
    passwordSalt: Salt,
    passwordKdf: Kdf,
    passwordHash: Digest,
    recoverySalt: Salt,
    recoveryHash: Digest,
    wrappedByPassword: Option<Wrapped>,
    wrappedByRecovery: Option<Wrapped>,
    epoch: nat
  )

  datatype Session = Session(
    userId: UserId,
    epoch: nat,
    createdAt: int,
    expiresAt: int,
    lastSeen: int,
    revokedAt: Option<int>
  )

  datatype Capability = Capability(
    userId: UserId,
    session: Token,
    epoch: nat,
    expiresAt: int,
    lastSeen: int,
    revokedAt: Option<int>
  )

  datatype CachedKey = CachedKey(userId: UserId, key: Key, expiresAt: int)

  datatype State = State(
    user: Option<User>,
    sessions: map<Token, Session>,
    capabilities: map<Token, Capability>,
    keys: map<Token, CachedKey>
  )

  const EMPTY := State(None, map[], map[], map[])

  datatype Event =
    | Setup(token: Token, userId: UserId, password: string, recoveryKey: string, passwordSalt: Salt,
            recoverySalt: Salt, dek: Key, argon: bool, policyOk: bool)
    | Unlock(token: Token, password: string, argon: bool)
    | Reset(token: Token, recoveryKey: string, newPassword: string, newSalt: Salt, argon: bool, policyOk: bool)
    | Resolve(token: Token, commits: bool)
    | Gate(token: Token, commits: bool)
    | Logout(token: Token)
    | Lock(token: Token)
    | WorkerKey(token: Token, jobExpiresAt: Option<int>)
    | UserKey(userId: UserId, order: seq<Token>)

  datatype Reply =
    | Refused              // an exception, a 401 or a 423, or "no key"
    | Opened(dek: Key)     // a new unlocked session, with the data key it cached
    | Granted(user: User)  // the caller is let through
    | Found(key: Key)      // a key lookup succeeded
    | Done                 // logout or lock of an existing session

  // ---- Key cache ------------------------------------------------------------------------------

  /** Look a key up; an expired entry is dropped on the way. */
  function GetKey(keys: map<Token, CachedKey>, tok: Token, now: int): (map<Token, CachedKey>, Option<Key>) {
    if tok !in keys then (keys, None)
    else if keys[tok].expiresAt <= now then (keys - {tok}, None)
    else (keys, Some(keys[tok].key))
  }

  /** First unexpired key of a user in iteration order; expired entries met before it are dropped. */
  function ActiveKey(keys: map<Token, CachedKey>, order: seq<Token>, userId: UserId, now: int)
    : (map<Token, CachedKey>, Option<Key>)
  {
    if order == [] then (keys, None)
    else
      var tok := order[0];
      if tok !in keys then ActiveKey(keys, order[1..], userId, now)
      else if keys[tok].expiresAt <= now then ActiveKey(keys - {tok}, order[1..], userId, now)
      else if keys[tok].userId == userId then (keys, Some(keys[tok].key))
      else ActiveKey(keys, order[1..], userId, now)
  }

  function WithoutUser(keys: map<Token, CachedKey>, userId: UserId): map<Token, CachedKey> {
    map t | t in keys && keys[t].userId != userId :: keys[t]
  }

  // ---- Capabilities ---------------------------------------------------------------------------

  function RevokeCapability(caps: map<Token, Capability>, tok: Token, now: int): map<Token, Capability> {
    if tok in caps then caps[tok := caps[tok].(revokedAt := Some(now))] else caps
  }

  function RevokeUserCapabilities(caps: map<Token, Capability>, userId: UserId, now: int): map<Token, Capability> {
    map t | t in caps ::
      if caps[t].userId == userId && caps[t].revokedAt.None? then caps[t].(revokedAt := Some(now)) else caps[t]
  }

  /** Issue, or re-issue in place, the capability of a session. */
  function IssueCapability(cfg: Settings, caps: map<Token, Capability>, user: User, tok: Token, now: int)
    : map<Token, Capability>
  {
    caps[tok := Capability(user.id, tok, user.epoch, now + cfg.Ttl(), now, None)]
  }

  predicate CapabilityHolds(caps: map<Token, Capability>, user: User, session: Session, tok: Token, now: int) {
    && tok in caps
    && caps[tok].userId == user.id
    && caps[tok].session == tok
    && caps[tok].revokedAt.None?
    && now < caps[tok].expiresAt
    && user.epoch == caps[tok].epoch
    && session.epoch == caps[tok].epoch
  }

  function TouchCapability(cfg: Settings, caps: map<Token, Capability>, tok: Token, now: int): map<Token, Capability>
    requires tok in caps
  {
    caps[tok := caps[tok].(lastSeen := now, expiresAt := now + cfg.Ttl())]
  }

  // ---- Sessions -------------------------------------------------------------------------------

  predicate Expired(cfg: Settings, session: Session, now: int) {
    || session.expiresAt <= now
    || now - session.lastSeen >= cfg.Idle()
    || now - session.createdAt >= cfg.Absolute()
  }

  function RevokeUserSessions(sessions: map<Token, Session>, userId: UserId, now: int): map<Token, Session> {
    map t | t in sessions ::
      if sessions[t].userId == userId && sessions[t].revokedAt.None?
      then sessions[t].(revokedAt := Some(now)) else sessions[t]
  }

  /** New session with its capability and cached key. */
  function OpenSession(cfg: Settings, s: State, user: User, tok: Token, dek: Key, now: int): State {
    State(
      Some(user),
      s.sessions[tok := Session(user.id, user.epoch, now, now + cfg.Absolute(), now, None)],
      IssueCapability(cfg, s.capabilities, user, tok, now),
      s.keys[tok := CachedKey(user.id, dek, now + cfg.Absolute())])
  }

  /** Close a session for good: key dropped, capability revoked, session marked unless `keepMark`. */
  function CloseSession(s: State, tok: Token, now: int, mark: bool): State
    requires tok in s.sessions
  {
    s.(sessions := if mark then s.sessions[tok := s.sessions[tok].(revokedAt := Some(now))] else s.sessions,
       capabilities := RevokeCapability(s.capabilities, tok, now),
       keys := s.keys - {tok})
  }

  function ResolveSession(cfg: Settings, s: State, tok: Token, now: int): (State, Option<User>) {
    if tok !in s.sessions then (s, None)
    else
      var session := s.sessions[tok];
      if session.revokedAt.Some? || Expired(cfg, session, now) then
        (CloseSession(s, tok, now, session.revokedAt.None?), None)
      else if s.user.None? || s.user.value.id != session.userId then (s, None)
      else if s.user.value.epoch != session.epoch then (CloseSession(s, tok, now, true), None)
      else (s.(sessions := s.sessions[tok := session.(lastSeen := now)]), s.user)
  }

  /** A request that ends without a commit loses its row updates; the in-memory cache is not rolled back. */
  function Persist(before: State, after: State, commits: bool): State {
    if commits then after else before.(keys := after.keys)
  }

  // ---- Operations -----------------------------------------------------------------------------

  function NewUser(ev: Event): User
    requires ev.Setup?
  {
    var (kdf, hash) := HashSecret(ev.password, ev.passwordSalt, ev.argon);
    var (recoveryKdf, recoveryHash) := HashSecret(ev.recoveryKey, ev.recoverySalt, ev.argon);
    User(ev.userId, ev.passwordSalt, kdf, hash, ev.recoverySalt, recoveryHash,
         Some(WrapDek(ev.dek, DeriveKek(ev.password, ev.passwordSalt, kdf, ev.argon))),
         Some(WrapDek(ev.dek, DeriveKek(ev.recoveryKey, ev.recoverySalt, recoveryKdf, ev.argon))),
         1)
  }

  function SetupUser(cfg: Settings, s: State, now: int, ev: Event): (State, Reply)
    requires ev.Setup?
  {
    if !ev.policyOk || s.user.Some? then (s, Refused)
    else (OpenSession(cfg, s, NewUser(ev), ev.token, ev.dek, now), Opened(ev.dek))
  }

  function VerifyUnlock(cfg: Settings, s: State, now: int, ev: Event): (State, Reply)
    requires ev.Unlock?
  {
    if s.user.None? then (s, Refused)
    else
      var u := s.user.value;
      if HashForKdf(ev.password, u.passwordSalt, u.passwordKdf, ev.argon) != u.passwordHash then (s, Refused)
      else
        var kek := DeriveKek(ev.password, u.passwordSalt, u.passwordKdf, ev.argon);
        if u.wrappedByPassword.Some? then
          match UnwrapDek(u.wrappedByPassword.value, kek)
          case None => (s, Refused)
          case Some(dek) => (OpenSession(cfg, s, u, ev.token, dek, now), Opened(dek))
        else
          var dek := LegacyFieldKey(ev.password, u.passwordSalt, u.passwordKdf, ev.argon);
          var u' := u.(wrappedByPassword := Some(WrapDek(dek, kek)));
          (OpenSession(cfg, s, u', ev.token, dek, now), Opened(dek))
  }

  /** The stored epoch may be missing on old rows, which reads as 1. */
  function NextEpoch(epoch: nat): nat { (if epoch == 0 then 1 else epoch) + 1 }

  function AfterReset(u: User, ev: Event, dek: Key): User
    requires ev.Reset?
  {
    var (kdf, hash) := HashSecret(ev.newPassword, ev.newSalt, ev.argon);
    u.(passwordSalt := ev.newSalt, passwordKdf := kdf, passwordHash := hash,
       wrappedByPassword := Some(WrapDek(dek, DeriveKek(ev.newPassword, ev.newSalt, kdf, ev.argon))),
       epoch := NextEpoch(u.epoch))
  }

  function RecoveryReset(cfg: Settings, s: State, now: int, ev: Event): (State, Reply)
    requires ev.Reset?
  {
    if !ev.policyOk || s.user.None? then (s, Refused)
    else
      var u := s.user.value;
      var (ok, kdf) := AnyKdf(ev.recoveryKey, u.recoverySalt, u.recoveryHash, ev.argon);
      if !ok || u.wrappedByRecovery.None? then (s, Refused)
      else
        match UnwrapDek(u.wrappedByRecovery.value, DeriveKek(ev.recoveryKey, u.recoverySalt, kdf, ev.argon))
        case None => (s, Refused)
        case Some(dek) =>
          var closed := State(
            s.user,
            RevokeUserSessions(s.sessions, u.id, now),
            RevokeUserCapabilities(s.capabilities, u.id, now),
            WithoutUser(s.keys, u.id));
          (OpenSession(cfg, closed, AfterReset(u, ev, dek), ev.token, dek, now), Opened(dek))
  }

  /** Session, capability and cached key must all be live; a passing check extends the capability. */
  function PassGate(cfg: Settings, s: State, tok: Token, now: int): (State, Reply) {
    var (s1, who) := ResolveSession(cfg, s, tok, now);
    if who.None? || tok !in s1.sessions then (s1, Refused)
    else if !CapabilityHolds(s1.capabilities, who.value, s1.sessions[tok], tok, now) then (s1, Refused)
    else
      var s2 := s1.(capabilities := TouchCapability(cfg, s1.capabilities, tok, now));
      var (keys, key) := GetKey(s2.keys, tok, now);
      (s2.(keys := keys), if key.Some? then Granted(who.value) else Refused)
  }

  function LockSession(s: State, tok: Token, now: int, logout: bool): (State, Reply) {
    if tok !in s.sessions then (s, Refused) else (CloseSession(s, tok, now, logout), Done)
  }

  /** Key lookup of a background job, by the token recorded on the job. No epoch is compared. */
  function ResolveJobKey(s: State, tok: Token, jobExpiresAt: Option<int>, now: int): (State, Reply) {
    if tok !in s.capabilities || s.capabilities[tok].revokedAt.Some? then (s, Refused)
    else if jobExpiresAt.Some? && jobExpiresAt.value <= now then (s, Refused)
    else if s.capabilities[tok].expiresAt <= now then (s, Refused)
    else
      var (keys, key) := GetKey(s.keys, tok, now);
      (s.(keys := keys), if key.Some? then Found(key.value) else Refused)
  }

  function Step(cfg: Settings, s: State, now: int, ev: Event): (State, Reply) {
    match ev
    case Setup(_, _, _, _, _, _, _, _, _) => SetupUser(cfg, s, now, ev)
    case Unlock(_, _, _) => VerifyUnlock(cfg, s, now, ev)
    case Reset(_, _, _, _, _, _) => RecoveryReset(cfg, s, now, ev)
    case Resolve(tok, commits) =>
      var (s', who) := ResolveSession(cfg, s, tok, now);
      (Persist(s, s', commits), if who.Some? then Granted(who.value) else Refused)
    case Gate(tok, commits) =>
      var (s', reply) := PassGate(cfg, s, tok, now);
      (Persist(s, s', commits), reply)
    case Logout(tok) => LockSession(s, tok, now, true)
    case Lock(tok) => LockSession(s, tok, now, false)
    case WorkerKey(tok, jobExpiresAt) => ResolveJobKey(s, tok, jobExpiresAt, now)
    case UserKey(userId, order) =>
      var (keys, key) := ActiveKey(s.keys, order, userId, now);
      (s.(keys := keys), if key.Some? then Found(key.value) else Refused)
  }

  // ---- Runs -----------------------------------------------------------------------------------

  datatype Timed = At(now: int, event: Event)

  /** Tokens of new sessions are random, hence never seen before. */
  predicate Fresh(s: State, ev: Event) {
    ev.Setup? || ev.Unlock? || ev.Reset? ==> ev.token !in s.sessions
  }

  function Run(cfg: Settings, s: State, run: seq<Timed>): State
    decreases |run|
  {
    if run == [] then s
    else Run(cfg, Step(cfg, s, run[0].now, run[0].event).0, run[1..])
  }

  /** The clock never goes back, and every new token is fresh. */
  predicate Legal(cfg: Settings, s: State, clock: int, run: seq<Timed>)
    decreases |run|
  {
    run == [] ||
    (&& clock <= run[0].now
     && Fresh(s, run[0].event)
     && Legal(cfg, Step(cfg, s, run[0].now, run[0].event).0, run[0].now, run[1..]))
  }

  function Clock(clock: int, run: seq<Timed>): int {
    if run == [] then clock else run[|run| - 1].now
  }
}
