/** The in-memory map from session token to field key (app/services/security/key_cache.py). */
module KeyCaches {
  import opened Wrappers
  import opened Crypto
  import opened AuthModel

  class KeyCache {
    var rows: map<Token, CachedKey>

    constructor ()
      ensures rows == map[]
    {
      rows := map[];
    }

    method CacheSessionKey(tok: Token, userId: UserId, key: Key, expiresAt: int)
      modifies this
      ensures rows == old(rows)[tok := CachedKey(userId, key, expiresAt)]
    {
      rows := rows[tok := CachedKey(userId, key, expiresAt)];
    }

    method GetSessionKey(tok: Token, now: int) returns (key: Option<Key>)
      modifies this
      ensures (rows, key) == GetKey(old(rows), tok, now)
    {
      if tok !in rows { return None; }
      var row := rows[tok];
      if row.expiresAt <= now {
        rows := rows - {tok};
        return None;
      }
      return Some(row.key);
    }

    /** `order` is the iteration order of the dictionary. */
    method GetUserActiveKey(userId: UserId, now: int, order: seq<Token>) returns (key: Option<Key>)
      modifies this
      ensures (rows, key) == ActiveKey(old(rows), order, userId, now)
    {
      for i := 0 to |order|
        invariant ActiveKey(old(rows), order, userId, now) == ActiveKey(rows, order[i..], userId, now)
      {
        var tok := order[i];
        assert order[i..][1..] == order[i + 1..];
        if tok in rows {
          if rows[tok].expiresAt <= now {
            rows := rows - {tok};
          } else if rows[tok].userId == userId {
            return Some(rows[tok].key);
          }
        }
      }
      return None;
    }

    method ClearSessionKey(tok: Token)
      modifies this
      ensures rows == old(rows) - {tok}
    {
      rows := rows - {tok};
    }

    method ClearUserKeys(userId: UserId)
      modifies this
      ensures rows == WithoutUser(old(rows), userId)
    {
      var todo := rows.Keys;
      while todo != {}
        invariant todo <= rows.Keys <= old(rows).Keys
        invariant forall t :: t in rows ==> rows[t] == old(rows)[t] && (t in todo || rows[t].userId != userId)
        invariant forall t :: t in old(rows) && old(rows)[t].userId != userId ==> t in rows
        decreases todo
      {
        var t :| t in todo;
        todo := todo - {t};
        if rows[t].userId == userId { rows := rows - {t}; }
      }
    }
  }
}
