/**
 The authentication service as an object: the user and session rows, with the capability
 rows and the key cache it drives. Each method is proved to have exactly the effect of the
 operation of the same name on the abstract state.
 */
module AuthServices {
  import opened Wrappers
  import opened Config
  import opened Crypto
  import opened AuthModel
  import opened CapabilityStores
  import opened KeyCaches

  class AuthService {
    const cfg: Settings
    const caps: CapabilityStore
    const cache: KeyCache
    var user: Option<User>
    var sessions: map<Token, Session>

    predicate Valid() { caps.cfg == cfg }

    function View(): State
      reads this, caps, cache
    {
      State(user, sessions, caps.rows, cache.rows)
    }

    constructor (cfg: Settings)
      ensures Valid() && View() == EMPTY && this.cfg == cfg && fresh(caps) && fresh(cache)
    {
      this.cfg := cfg;
      caps := new CapabilityStore(cfg);
      cache := new KeyCache();
      user := None;
      sessions := map[];
    }

    method CreateSession(owner: User, tok: Token, now: int) returns (expiresAt: int)
      modifies this`sessions
      ensures sessions == old(sessions)[tok := Session(owner.id, owner.epoch, now, expiresAt, now, None)]
      ensures expiresAt == now + cfg.Absolute()
    {
      expiresAt := now + cfg.Absolute();
      sessions := sessions[tok := Session(owner.id, owner.epoch, now, expiresAt, now, None)];
    }

    method Open(owner: User, tok: Token, dek: Key, now: int)
      requires Valid()
      modifies this`user, this`sessions, caps`rows, cache
      ensures View() == OpenSession(cfg, old(View()), owner, tok, dek, now)
    {
      user := Some(owner);
      var expiresAt := CreateSession(owner, tok, now);
      caps.Issue(owner, tok, now);
      cache.CacheSessionKey(tok, owner.id, dek, expiresAt);
    }

    method SetupUser(ev: Event, now: int) returns (reply: Reply)
      requires Valid() && ev.Setup?
      modifies this`user, this`sessions, caps`rows, cache
      ensures (View(), reply) == AuthModel.SetupUser(cfg, old(View()), now, ev)
    {
      if !ev.policyOk { return Refused; }
      if user.Some? { return Refused; }
      var (kdf, hash) := HashSecret(ev.password, ev.passwordSalt, ev.argon);
      var (recoveryKdf, recoveryHash) := HashSecret(ev.recoveryKey, ev.recoverySalt, ev.argon);
      var passwordKek := DeriveKek(ev.password, ev.passwordSalt, kdf, ev.argon);
      var recoveryKek := DeriveKek(ev.recoveryKey, ev.recoverySalt, recoveryKdf, ev.argon);
      var owner := User(ev.userId, ev.passwordSalt, kdf, hash, ev.recoverySalt, recoveryHash,
                        Some(WrapDek(ev.dek, passwordKek)), Some(WrapDek(ev.dek, recoveryKek)), 1);
      Open(owner, ev.token, ev.dek, now);
      return Opened(ev.dek);
    }

    method VerifyUnlock(ev: Event, now: int) returns (reply: Reply)
      requires Valid() && ev.Unlock?
      modifies this`user, this`sessions, caps`rows, cache
      ensures (View(), reply) == AuthModel.VerifyUnlock(cfg, old(View()), now, ev)
    {
      if user.None? { return Refused; }
      var owner := user.value;
      var candidate := HashForKdf(ev.password, owner.passwordSalt, owner.passwordKdf, ev.argon);
      if candidate != owner.passwordHash { return Refused; }
      var kek := DeriveKek(ev.password, owner.passwordSalt, owner.passwordKdf, ev.argon);
      var dek: Key;
      if owner.wrappedByPassword.Some? {
        var unwrapped := UnwrapDek(owner.wrappedByPassword.value, kek);
        if unwrapped.None? { return Refused; }
        dek := unwrapped.value;
      } else {
        dek := LegacyFieldKey(ev.password, owner.passwordSalt, owner.passwordKdf, ev.argon);
        owner := owner.(wrappedByPassword := Some(WrapDek(dek, kek)));
      }
      Open(owner, ev.token, dek, now);
      return Opened(dek);
    }

    method RevokeAllSessions(userId: UserId, now: int)
      modifies this`sessions
      ensures sessions == RevokeUserSessions(old(sessions), userId, now)
    {
      var live := set t | t in sessions && sessions[t].userId == userId && sessions[t].revokedAt.None?;
      var todo := live;
      while todo != {}
        invariant todo <= live && sessions.Keys == old(sessions).Keys
        invariant forall t :: t in sessions ==>
          sessions[t] == if t in live && t !in todo then old(sessions)[t].(revokedAt := Some(now)) else old(sessions)[t]
        decreases todo
      {
        var t :| t in todo;
        todo := todo - {t};
        sessions := sessions[t := sessions[t].(revokedAt := Some(now))];
      }
    }

    method RecoveryResetPassword(ev: Event, now: int) returns (reply: Reply)
      requires Valid() && ev.Reset?
      modifies this`user, this`sessions, caps`rows, cache
      ensures (View(), reply) == AuthModel.RecoveryReset(cfg, old(View()), now, ev)
    {
      if !ev.policyOk { return Refused; }
      if user.None? { return Refused; }
      var owner := user.value;
      var ok, kdf := VerifyHashAnyKdf(ev.recoveryKey, owner.recoverySalt, owner.recoveryHash, ev.argon);
      if !ok { return Refused; }
      if owner.wrappedByRecovery.None? { return Refused; }
      var recoveryKek := DeriveKek(ev.recoveryKey, owner.recoverySalt, kdf, ev.argon);
      var unwrapped := UnwrapDek(owner.wrappedByRecovery.value, recoveryKek);
      if unwrapped.None? { return Refused; }
      var dek := unwrapped.value;

      var (newKdf, newHash) := HashSecret(ev.newPassword, ev.newSalt, ev.argon);
      var newKek := DeriveKek(ev.newPassword, ev.newSalt, newKdf, ev.argon);
      owner := owner.(passwordSalt := ev.newSalt, passwordKdf := newKdf, passwordHash := newHash);
      owner := owner.(wrappedByPassword := Some(WrapDek(dek, newKek)));
      owner := owner.(epoch := (if owner.epoch == 0 then 1 else owner.epoch) + 1);

      RevokeAllSessions(owner.id, now);
      var revoked := caps.RevokeForUser(owner.id, now);
      cache.ClearUserKeys(owner.id);
      Open(owner, ev.token, dek, now);
      return Opened(dek);
    }

    method ResolveSession(tok: Token, now: int) returns (who: Option<User>)
      requires Valid()
      modifies this`sessions, caps`rows, cache
      ensures (View(), who) == AuthModel.ResolveSession(cfg, old(View()), tok, now)
    {
      if tok !in sessions { return None; }
      var session := sessions[tok];
      var idleExpired := now - session.lastSeen >= cfg.Idle();
      var absoluteExpired := now - session.createdAt >= cfg.Absolute();
      var expired := session.expiresAt <= now || idleExpired || absoluteExpired;
      if session.revokedAt.Some? || expired {
        cache.ClearSessionKey(tok);
        caps.RevokeForSession(tok, now);
        if expired && session.revokedAt.None? {
          sessions := sessions[tok := session.(revokedAt := Some(now))];
        }
        return None;
      }
      if user.None? || user.value.id != session.userId { return None; }
      if user.value.epoch != session.epoch {
        sessions := sessions[tok := session.(revokedAt := Some(now))];
        caps.RevokeForSession(tok, now);
        cache.ClearSessionKey(tok);
        return None;
      }
      sessions := sessions[tok := session.(lastSeen := now)];
      return user;
    }

    /** Logout. */
    method RevokeSession(tok: Token, now: int) returns (reply: Reply)
      requires Valid()
      modifies this`sessions, caps`rows, cache
      ensures (View(), reply) == AuthModel.LockSession(old(View()), tok, now, true)
    {
      if tok !in sessions { return Refused; }
      sessions := sessions[tok := sessions[tok].(revokedAt := Some(now))];
      caps.RevokeForSession(tok, now);
      cache.ClearSessionKey(tok);
      return Done;
    }

    method LockSession(tok: Token, now: int) returns (reply: Reply)
      requires Valid()
      modifies this`sessions, caps`rows, cache
      ensures (View(), reply) == AuthModel.LockSession(old(View()), tok, now, false)
    {
      if tok !in sessions { return Refused; }
      caps.RevokeForSession(tok, now);
      cache.ClearSessionKey(tok);
      return Done;
    }

    /** The access gate in front of every route that shows tax data. */
    method CurrentUnlockedUser(tok: Token, now: int) returns (reply: Reply)
      requires Valid()
      modifies this`sessions, caps, cache
      ensures (View(), reply) == AuthModel.PassGate(cfg, old(View()), tok, now)
    {
      var who := ResolveSession(tok, now);
      if who.None? { return Refused; }
      if tok !in sessions { return Refused; }
      var active := caps.Validate(who.value, sessions[tok], tok, now);
      if !active { return Refused; }
      var key := cache.GetSessionKey(tok, now);
      if key.None? { return Refused; }
      return Granted(who.value);
    }

    /** Key lookup of the job worker, by the token stored with the job. */
    method ResolveJobKey(tok: Token, jobExpiresAt: Option<int>, now: int) returns (reply: Reply)
      requires Valid()
      modifies cache
      ensures (View(), reply) == AuthModel.ResolveJobKey(old(View()), tok, jobExpiresAt, now)
    {
      if tok !in caps.rows || caps.rows[tok].revokedAt.Some? { return Refused; }
      if jobExpiresAt.Some? {
        if jobExpiresAt.value <= now { return Refused; }
      }
      if caps.rows[tok].expiresAt <= now { return Refused; }
      var key := cache.GetSessionKey(tok, now);
      if key.None? { return Refused; }
      return Found(key.value);
    }
  }
}
