/** What every operation on the access-control state keeps, and hence what holds in every reachable state. */
module AuthInvariant {
  import opened Wrappers
  import opened Config
  import opened Crypto
  import opened AuthModel

  /** The one data key of an account: what its password wrapping holds, or what a legacy password would derive. */
  function DataKey(u: User): Key {
    if u.wrappedByPassword.Some? then u.wrappedByPassword.value.dek else PasswordDerived(u.passwordHash)
  }

  /** Both wrappings hold the data key, each under the key derived from the matching stored hash. */
  predicate UserOk(u: User) {
    && (u.wrappedByPassword.Some? ==> u.wrappedByPassword.value == WrapDek(DataKey(u), Kek(u.passwordHash)))
    && (u.wrappedByRecovery.Some? ==>
          u.wrappedByPassword.Some? && u.wrappedByRecovery.value == WrapDek(DataKey(u), Kek(u.recoveryHash)))
  }

  predicate SessionOk(cfg: Settings, u: User, x: Session, clock: int) {
    && x.userId == u.id
    && x.epoch <= u.epoch
    && (x.revokedAt.None? ==> x.epoch == u.epoch)
    && x.expiresAt == x.createdAt + cfg.Absolute()
    && x.createdAt <= x.lastSeen <= clock
  }

  predicate CapabilityOk(cfg: Settings, u: User, sessions: map<Token, Session>, tok: Token, c: Capability, clock: int) {
    && tok in sessions
    && c.userId == u.id
    && c.session == tok
    && c.epoch == sessions[tok].epoch
    && (c.revokedAt.None? ==> c.epoch == u.epoch)
    && c.expiresAt == c.lastSeen + cfg.Ttl()
    && sessions[tok].createdAt <= c.lastSeen <= clock
  }

  predicate KeyOk(u: User, s: State, tok: Token, k: CachedKey) {
    && tok in s.sessions && s.sessions[tok].revokedAt.None?
    && tok in s.capabilities && s.capabilities[tok].revokedAt.None?
    && k.userId == u.id
    && k.key == DataKey(u)
    && k.expiresAt == s.sessions[tok].expiresAt
  }

  /** The agreement between the user row and the three stores, at a given clock. */
  predicate Inv(cfg: Settings, s: State, clock: int) {
    match s.user
    case None => s == EMPTY
    case Some(u) =>
      && UserOk(u)
      && (forall t :: t in s.sessions ==> SessionOk(cfg, u, s.sessions[t], clock))
      && (forall t :: t in s.capabilities ==> CapabilityOk(cfg, u, s.sessions, t, s.capabilities[t], clock))
      && (forall t :: t in s.keys ==> KeyOk(u, s, t, s.keys[t]))
  }

  // ---- Preservation, operation by operation ---------------------------------------------------

  lemma OpenKeepsInv(cfg: Settings, s: State, u: User, tok: Token, now: int)
    requires s.user.Some? ==> UserOk(s.user.value)
    requires UserOk(u)
    requires forall t :: t in s.sessions ==> SessionOk(cfg, u, s.sessions[t], now)
    requires forall t :: t in s.capabilities ==> CapabilityOk(cfg, u, s.sessions, t, s.capabilities[t], now)
    requires forall t :: t in s.keys ==> KeyOk(u, s, t, s.keys[t])
    requires tok !in s.sessions
    ensures Inv(cfg, OpenSession(cfg, s, u, tok, DataKey(u), now), now)
  {
  }

  lemma CloseKeepsInv(cfg: Settings, s: State, tok: Token, now: int, mark: bool)
    requires Inv(cfg, s, now) && tok in s.sessions
    ensures Inv(cfg, CloseSession(s, tok, now, mark), now)
  {
  }

  lemma LaterClock(cfg: Settings, s: State, clock: int, now: int)
    requires Inv(cfg, s, clock) && clock <= now
    ensures Inv(cfg, s, now)
  {
  }

  lemma FewerKeysKeepInv(cfg: Settings, s: State, keys: map<Token, CachedKey>, clock: int)
    requires Inv(cfg, s, clock)
    requires forall t :: t in keys ==> t in s.keys && keys[t] == s.keys[t]
    ensures Inv(cfg, s.(keys := keys), clock)
  {
  }

  lemma ActiveKeyOnlyDrops(keys: map<Token, CachedKey>, order: seq<Token>, userId: UserId, now: int)
    ensures var r := ActiveKey(keys, order, userId, now).0;
            && (forall t :: t in r ==> t in keys && r[t] == keys[t])
            && (forall t :: t in keys && t !in r ==> keys[t].expiresAt <= now)
  {
  }

  lemma ResolveKeepsInv(cfg: Settings, s: State, tok: Token, now: int)
    requires Inv(cfg, s, now)
    ensures Inv(cfg, ResolveSession(cfg, s, tok, now).0, now)
  {
    var s' := ResolveSession(cfg, s, tok, now).0;
    if tok in s.sessions {
      var session := s.sessions[tok];
      var u := s.user.value;
      assert SessionOk(cfg, u, session, now);
      if session.revokedAt.Some? || Expired(cfg, session, now) {
        CloseKeepsInv(cfg, s, tok, now, session.revokedAt.None?);
      } else if u.epoch == session.epoch {
        forall t | t in s'.sessions ensures SessionOk(cfg, u, s'.sessions[t], now) {
          assert SessionOk(cfg, u, s.sessions[t], now);
        }
        forall t | t in s'.capabilities ensures CapabilityOk(cfg, u, s'.sessions, t, s'.capabilities[t], now) {
          assert CapabilityOk(cfg, u, s.sessions, t, s.capabilities[t], now);
        }
        forall t | t in s'.keys ensures KeyOk(u, s', t, s'.keys[t]) {
          assert KeyOk(u, s, t, s.keys[t]);
        }
      }
    }
  }

  lemma TouchKeepsInv(cfg: Settings, s: State, tok: Token, now: int)
    requires Inv(cfg, s, now) && tok in s.capabilities
    ensures Inv(cfg, s.(capabilities := TouchCapability(cfg, s.capabilities, tok, now)), now)
  {
  }

  lemma GateKeepsInv(cfg: Settings, s: State, tok: Token, now: int)
    requires Inv(cfg, s, now)
    ensures Inv(cfg, PassGate(cfg, s, tok, now).0, now)
  {
    ResolveKeepsInv(cfg, s, tok, now);
    var (s1, who) := ResolveSession(cfg, s, tok, now);
    if who.Some? && tok in s1.sessions && CapabilityHolds(s1.capabilities, who.value, s1.sessions[tok], tok, now) {
      TouchKeepsInv(cfg, s1, tok, now);
      var s2 := s1.(capabilities := TouchCapability(cfg, s1.capabilities, tok, now));
      FewerKeysKeepInv(cfg, s2, GetKey(s2.keys, tok, now).0, now);
    }
  }

  /**
   A successful reset moves the epoch on, leaves no earlier session or capability unrevoked and no
   earlier key cached, and opens exactly one session, of the new epoch, with the old data key.
   */
  lemma ResetStartsOver(cfg: Settings, s: State, now: int, ev: Event)
    requires Inv(cfg, s, now) && ev.Reset? && Fresh(s, ev)
    requires RecoveryReset(cfg, s, now, ev).1.Opened?
    ensures var s' := RecoveryReset(cfg, s, now, ev).0;
            && s.user.Some? && s'.user.Some?
            && s'.user.value.epoch == (if s.user.value.epoch == 0 then 1 else s.user.value.epoch) + 1
            && DataKey(s'.user.value) == DataKey(s.user.value)
            && (forall t :: t in s'.sessions && s'.sessions[t].revokedAt.None? <==> t == ev.token)
            && (forall t :: t in s'.capabilities && s'.capabilities[t].revokedAt.None? <==> t == ev.token)
            && s'.keys.Keys == {ev.token} && s'.keys[ev.token].key == DataKey(s.user.value)
            && s'.sessions[ev.token].epoch == s'.capabilities[ev.token].epoch == s'.user.value.epoch
  {
  }

  lemma {:induction false} ResetKeepsInv(cfg: Settings, s: State, now: int, ev: Event)
    requires Inv(cfg, s, now) && ev.Reset? && Fresh(s, ev)
    ensures Inv(cfg, RecoveryReset(cfg, s, now, ev).0, now)
  {
    if ev.policyOk && s.user.Some? {
      var u := s.user.value;
      var (ok, kdf) := AnyKdf(ev.recoveryKey, u.recoverySalt, u.recoveryHash, ev.argon);
      if ok && u.wrappedByRecovery.Some? {
        var dek := DataKey(u);
        var kek := DeriveKek(ev.recoveryKey, u.recoverySalt, kdf, ev.argon);
        assert UnwrapDek(u.wrappedByRecovery.value, kek) == Some(dek);
        var u' := AfterReset(u, ev, dek);
        var closed := State(s.user, RevokeUserSessions(s.sessions, u.id, now),
                            RevokeUserCapabilities(s.capabilities, u.id, now), WithoutUser(s.keys, u.id));
        forall t | t in closed.sessions ensures SessionOk(cfg, u', closed.sessions[t], now) {
          assert SessionOk(cfg, u, s.sessions[t], now);
        }
        forall t | t in closed.capabilities
          ensures CapabilityOk(cfg, u', closed.sessions, t, closed.capabilities[t], now)
        {
          assert CapabilityOk(cfg, u, s.sessions, t, s.capabilities[t], now);
        }
        assert forall t :: t in s.keys ==> KeyOk(u, s, t, s.keys[t]);
        assert closed.keys == map[];
        OpenKeepsInv(cfg, closed, u', ev.token, now);
      }
    }
  }

  lemma UnlockKeepsInv(cfg: Settings, s: State, now: int, ev: Event)
    requires Inv(cfg, s, now) && ev.Unlock? && Fresh(s, ev)
    ensures Inv(cfg, VerifyUnlock(cfg, s, now, ev).0, now)
  {
    if s.user.Some? {
      var u := s.user.value;
      if HashForKdf(ev.password, u.passwordSalt, u.passwordKdf, ev.argon) == u.passwordHash {
        var dek := DataKey(u);
        var u' := u.(wrappedByPassword := Some(WrapDek(dek, Kek(u.passwordHash))));
        assert u.wrappedByPassword.Some? ==> u' == u;
        assert DataKey(u') == dek;
        forall t | t in s.sessions ensures SessionOk(cfg, u', s.sessions[t], now) {
          assert SessionOk(cfg, u, s.sessions[t], now);
        }
        forall t | t in s.capabilities ensures CapabilityOk(cfg, u', s.sessions, t, s.capabilities[t], now) {
          assert CapabilityOk(cfg, u, s.sessions, t, s.capabilities[t], now);
        }
        forall t | t in s.keys ensures KeyOk(u', s, t, s.keys[t]) { assert KeyOk(u, s, t, s.keys[t]); }
        OpenKeepsInv(cfg, s, u', ev.token, now);
      }
    }
  }

  lemma PersistKeepsInv(cfg: Settings, s: State, s': State, commits: bool, now: int)
    requires Inv(cfg, s, now) && Inv(cfg, s', now)
    requires forall t :: t in s'.keys ==> t in s.keys && s'.keys[t] == s.keys[t]
    ensures Inv(cfg, Persist(s, s', commits), now)
  {
  }

  lemma {:induction false} OpeningKeepsInv(cfg: Settings, s: State, now: int, ev: Event)
    requires Inv(cfg, s, now) && Fresh(s, ev) && (ev.Setup? || ev.Unlock? || ev.Reset?)
    ensures Inv(cfg, Step(cfg, s, now, ev).0, now)
  {
    if ev.Unlock? {
      UnlockKeepsInv(cfg, s, now, ev);
    } else if ev.Reset? {
      ResetKeepsInv(cfg, s, now, ev);
    } else if ev.policyOk && s.user.None? {
      OpenKeepsInv(cfg, s, NewUser(ev), ev.token, now);
    }
  }

  lemma {:induction false} RequestKeepsInv(cfg: Settings, s: State, now: int, ev: Event)
    requires Inv(cfg, s, now) && (ev.Resolve? || ev.Gate?)
    ensures Inv(cfg, Step(cfg, s, now, ev).0, now)
  {
    if ev.Resolve? {
      ResolveKeepsInv(cfg, s, ev.token, now);
      PersistKeepsInv(cfg, s, ResolveSession(cfg, s, ev.token, now).0, ev.commits, now);
    } else {
      GateKeepsInv(cfg, s, ev.token, now);
      PersistKeepsInv(cfg, s, PassGate(cfg, s, ev.token, now).0, ev.commits, now);
    }
  }

  lemma {:induction false} LookUpKeepsInv(cfg: Settings, s: State, now: int, ev: Event)
    requires Inv(cfg, s, now) && (ev.WorkerKey? || ev.UserKey?)
    ensures Inv(cfg, Step(cfg, s, now, ev).0, now)
  {
    if ev.WorkerKey? {
      FewerKeysKeepInv(cfg, s, GetKey(s.keys, ev.token, now).0, now);
    } else {
      ActiveKeyOnlyDrops(s.keys, ev.order, ev.userId, now);
      FewerKeysKeepInv(cfg, s, ActiveKey(s.keys, ev.order, ev.userId, now).0, now);
    }
  }

  lemma {:induction false} ClosingKeepsInv(cfg: Settings, s: State, now: int, ev: Event)
    requires Inv(cfg, s, now) && (ev.Logout? || ev.Lock?)
    ensures Inv(cfg, Step(cfg, s, now, ev).0, now)
  {
    if ev.token in s.sessions { CloseKeepsInv(cfg, s, ev.token, now, ev.Logout?); }
  }

  /** Every operation keeps the agreement between the stores. */
  lemma {:induction false} StepKeepsInv(cfg: Settings, s: State, clock: int, now: int, ev: Event)
    requires Inv(cfg, s, clock) && clock <= now && Fresh(s, ev)
    ensures Inv(cfg, Step(cfg, s, now, ev).0, now)
  {
    LaterClock(cfg, s, clock, now);
    if ev.Setup? || ev.Unlock? || ev.Reset? {
      OpeningKeepsInv(cfg, s, now, ev);
    } else if ev.Resolve? || ev.Gate? {
      RequestKeepsInv(cfg, s, now, ev);
    } else if ev.Logout? || ev.Lock? {
      ClosingKeepsInv(cfg, s, now, ev);
    } else {
      LookUpKeepsInv(cfg, s, now, ev);
    }
  }

  lemma {:induction false} RunKeepsInv(cfg: Settings, s: State, clock: int, run: seq<Timed>)
    requires Inv(cfg, s, clock) && Legal(cfg, s, clock, run)
    ensures Inv(cfg, Run(cfg, s, run), Clock(clock, run))
    decreases |run|
  {
    if run != [] {
      StepKeepsInv(cfg, s, clock, run[0].now, run[0].event);
      RunKeepsInv(cfg, Step(cfg, s, run[0].now, run[0].event).0, run[0].now, run[1..]);
    }
  }

  lemma {:induction false} LegalSplit(cfg: Settings, s: State, clock: int, pre: seq<Timed>, post: seq<Timed>)
    ensures Run(cfg, s, pre + post) == Run(cfg, Run(cfg, s, pre), post)
    ensures Legal(cfg, s, clock, pre + post) <==>
            Legal(cfg, s, clock, pre) && Legal(cfg, Run(cfg, s, pre), Clock(clock, pre), post)
    decreases |pre|
  {
    if pre == [] {
      assert pre + post == post;
    } else {
      assert (pre + post)[1..] == pre[1..] + post && (pre + post)[0] == pre[0];
      LegalSplit(cfg, Step(cfg, s, pre[0].now, pre[0].event).0, pre[0].now, pre[1..], post);
    }
  }
}
