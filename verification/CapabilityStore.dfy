/** Unlock-capability rows and refusal counters (app/services/security/unlock_capability.py). */
module CapabilityStores {
  import opened Wrappers
  import opened Config
  import opened AuthModel

  datatype Refusal = LockedOrMissing | Revoked | Expired | StaleEpoch

  datatype Metrics = Metrics(lockedOrMissing: nat, staleEpoch: nat, revoked: nat, expired: nat) {
    function Count(why: Refusal): Metrics {
      match why
      case LockedOrMissing => this.(lockedOrMissing := lockedOrMissing + 1)
      case Revoked => this.(revoked := revoked + 1)
      case Expired => this.(expired := expired + 1)
      case StaleEpoch => this.(staleEpoch := staleEpoch + 1)
    }
  }

  /** Live rows of a user, the ones a reset revokes. */
  function LiveOf(caps: map<Token, Capability>, userId: UserId): set<Token> {
    set t | t in caps && caps[t].userId == userId && caps[t].revokedAt.None?
  }

  /** The row is the user's, for this session, and not revoked. */
  predicate Live(row: Capability, user: User, tok: Token) {
    row.userId == user.id && row.session == tok && row.revokedAt.None?
  }

  class CapabilityStore {
    const cfg: Settings
    var rows: map<Token, Capability>
    var metrics: Metrics

    constructor (cfg: Settings)
      ensures this.cfg == cfg && rows == map[] && metrics == Metrics(0, 0, 0, 0)
    {
      this.cfg := cfg;
      rows := map[];
      metrics := Metrics(0, 0, 0, 0);
    }

    method Issue(user: User, tok: Token, now: int)
      modifies this`rows
      ensures rows == IssueCapability(cfg, old(rows), user, tok, now)
    {
      var expiresAt := now + cfg.Ttl();
      if tok in rows {
        var row := rows[tok];
        row := row.(userId := user.id, session := tok, epoch := user.epoch);
        row := row.(expiresAt := expiresAt, lastSeen := now, revokedAt := None);
        rows := rows[tok := row];
        return;
      }
      rows := rows[tok := Capability(user.id, tok, user.epoch, expiresAt, now, None)];
    }

    /** Check a capability; a pass extends it, a refusal bumps exactly the counter of the first failed test. */
    method Validate(user: User, session: Session, tok: Token, now: int) returns (ok: bool)
      modifies this
      ensures ok == CapabilityHolds(old(rows), user, session, tok, now)
      ensures rows == if ok then TouchCapability(cfg, old(rows), tok, now) else old(rows)
      ensures ok ==> metrics == old(metrics)
      ensures !ok ==> exists why :: metrics == old(metrics).Count(why)
                        && (why.LockedOrMissing? <==> tok !in rows)
                        && (why.Revoked? <==> tok in rows && !Live(rows[tok], user, tok))
                        && (why.Expired? <==> tok in rows && Live(rows[tok], user, tok) && rows[tok].expiresAt <= now)
    {
      if tok !in rows {
        metrics := metrics.Count(LockedOrMissing);
        return false;
      }
      var row := rows[tok];
      if row.userId != user.id || row.session != tok {
        metrics := metrics.Count(Revoked);
        return false;
      }
      if row.revokedAt.Some? {
        metrics := metrics.Count(Revoked);
        return false;
      }
      if row.expiresAt <= now {
        metrics := metrics.Count(Expired);
        return false;
      }
      if user.epoch != row.epoch || session.epoch != row.epoch {
        metrics := metrics.Count(StaleEpoch);
        return false;
      }
      rows := rows[tok := row.(lastSeen := now, expiresAt := now + cfg.Ttl())];
      return true;
    }

    method RevokeForSession(tok: Token, now: int)
      modifies this`rows
      ensures rows == RevokeCapability(old(rows), tok, now)
    {
      if tok in rows { rows := rows[tok := rows[tok].(revokedAt := Some(now))]; }
    }

    method RevokeForUser(userId: UserId, now: int) returns (count: nat)
      modifies this`rows
      ensures rows == RevokeUserCapabilities(old(rows), userId, now)
      ensures count == |LiveOf(old(rows), userId)|
    {
      var live := set t | t in rows && rows[t].userId == userId && rows[t].revokedAt.None?;
      count := |live|;
      var todo := live;
      while todo != {}
        invariant todo <= live && rows.Keys == old(rows).Keys
        invariant forall t :: t in rows ==>
          rows[t] == if t in live && t !in todo then old(rows)[t].(revokedAt := Some(now)) else old(rows)[t]
        decreases todo
      {
        var t :| t in todo;
        todo := todo - {t};
        rows := rows[t := rows[t].(revokedAt := Some(now))];
      }
      assert live == LiveOf(old(rows), userId);
    }
  }
}
