/** The login and session endpoints of bff/main.py, run on either store. Each is one step of the
    state machine: unless a method says otherwise, the clock shows the same second throughout a
    call. A JWT that fails its own check never reaches the store, so `jti` is that of one that
    verified. */
module LoginHandlers {
  import opened Cbor
  import opened SessionSpec
  import opened SessionStores

  // ----- with the in-memory store

  method MemLoginStart(store: SessionStore, did: string, cred: string, key: string, alg: string, drawn: string,
      now: int, cfg: Config) returns (answer: Answer)
    requires store.Valid()
    modifies store
    ensures store.Valid()
    ensures (store.View(), answer) == MemStep(old(store.View()), LoginStart(did, cred, key, alg, drawn), now, cfg)
  {
    var challenge := store.CreateChallenge(did, cred, key, alg, drawn, now);
    return Challenged(challenge);
  }

  method MemLoginComplete(store: SessionStore, challenge: string, did: string, accepts: Challenge -> bool,
      active: string -> bool, token: string, jti: string, now: int, cfg: Config) returns (answer: Answer)
    requires store.Valid() && token != "" && Find(store.tokens, token).None?
    modifies store
    ensures store.Valid()
    ensures (store.View(), answer) ==
      MemStep(old(store.View()), LoginComplete(challenge, did, accepts, active, token, jti), now, cfg)
  {
    var entry := store.ConsumeChallenge(challenge, now);
    if entry.None? { return Unauthorized(NO_CHALLENGE); }
    if entry.value.did != did { return Unauthorized("DID mismatch"); }
    if !accepts(entry.value) { return Unauthorized("Assertion signature verification failed"); }
    if !active(did) { return Unauthorized(INACTIVE); }
    var refresh, refreshExp := store.IssueRefreshToken(did, token, now, cfg.refreshLifetime);
    var exp := store.IssueSessionToken(refresh, jti, now, cfg.sessionLifetime);
    return LoggedIn(did, refresh, jti, exp, refreshExp);
  }

  method MemLoginRefresh(store: SessionStore, token: string, active: string -> bool, jti: string, now: int, cfg: Config)
      returns (answer: Answer)
    requires store.Valid()
    modifies store
    ensures store.Valid()
    ensures (store.View(), answer) == MemStep(old(store.View()), Refresh(token, active, jti), now, cfg)
  {
    var entry := store.ConsumeRefreshToken(token);
    if entry.None? { return Unauthorized(NO_REFRESH); }
    if now > entry.value.expiresAt {
      store.RevokeRefreshToken(token);
      return Unauthorized(NO_REFRESH);
    }
    if !active(entry.value.did) { return Unauthorized(INACTIVE); }
    var exp := store.IssueSessionToken(token, jti, now, cfg.sessionLifetime);
    return Refreshed(entry.value.did, jti, exp);
  }

  method MemLoginLogout(store: SessionStore, token: string, now: int, cfg: Config) returns (answer: Answer)
    requires store.Valid()
    modifies store
    ensures store.Valid()
    ensures (store.View(), answer) == MemStep(old(store.View()), Logout(token), now, cfg)
  {
    store.RevokeRefreshToken(token);
    return Fine;
  }

  method MemApiMe(store: SessionStore, jti: string, now: int, cfg: Config) returns (answer: Answer)
    requires store.Valid()
    ensures (store.View(), answer) == MemStep(store.View(), CheckToken(jti), now, cfg)
  {
    var revoked := store.IsJtiRevoked(jti);
    return if revoked then Unauthorized(REVOKED) else Fine;
  }

  method MemApiRevokeSession(store: SessionStore, sid: string, callerJti: string, now: int, cfg: Config)
      returns (answer: Answer)
    requires store.Valid()
    modifies store
    ensures store.Valid()
    ensures (store.View(), answer) == MemStep(old(store.View()), RevokeSession(sid, callerJti), now, cfg)
  {
    var revoked := store.IsJtiRevoked(callerJti);
    if revoked { return Unauthorized(REVOKED); }
    var found, _ := store.RevokeSession(sid);
    if !found { return NotFound; }
    var selfRevoked := store.IsJtiRevoked(callerJti);
    return Revoked(selfRevoked);
  }

  // ----- with the SQLite store

  method SqlLoginStart(store: SqliteSessionStore, did: string, cred: string, key: string, alg: string, drawn: string,
      now: int, cfg: Config) returns (answer: Answer)
    requires store.Valid() && drawn !in store.challenges
    modifies store
    ensures store.Valid()
    ensures (store.View(), answer) == SqlStep(old(store.View()), LoginStart(did, cred, key, alg, drawn), now, cfg)
  {
    var challenge := store.CreateChallenge(did, cred, key, alg, drawn, now);
    return Challenged(challenge);
  }

  method SqlLoginComplete(store: SqliteSessionStore, challenge: string, did: string, accepts: Challenge -> bool,
      active: string -> bool, token: string, jti: string, now: int, cfg: Config) returns (answer: Answer)
    requires store.Valid() && token != "" && Find(store.tokens, token).None?
    modifies store
    ensures store.Valid()
    ensures (store.View(), answer) ==
      SqlStep(old(store.View()), LoginComplete(challenge, did, accepts, active, token, jti), now, cfg)
  {
    var entry := store.ConsumeChallenge(challenge, now);
    if entry.None? { return Unauthorized(NO_CHALLENGE); }
    if entry.value.did != did { return Unauthorized("DID mismatch"); }
    if !accepts(entry.value) { return Unauthorized("Assertion signature verification failed"); }
    if !active(did) { return Unauthorized(INACTIVE); }
    var refresh, refreshExp := store.IssueRefreshToken(did, token, now, cfg.refreshLifetime);
    var exp := store.IssueSessionToken(refresh, jti, now, cfg.sessionLifetime);
    return LoggedIn(did, refresh, jti, exp, refreshExp);
  }

  /** The store reads the clock at `now`, the endpoint at `checked`: the endpoint's own check decides
      only if the token expires between the two, and otherwise this is the step at `checked`. */
  method SqlLoginRefresh(
      store: SqliteSessionStore, token: string, active: string -> bool, jti: string, now: int, checked: int, cfg: Config)
      returns (answer: Answer)
    requires store.Valid() && now <= checked
    modifies store
    ensures store.Valid()
    ensures (store.View(), answer) ==
      if ExpiresBetween(old(store.tokens), token, now, checked) then
        (SqlRevokeRefresh(old(store.View()), token), Unauthorized(NO_REFRESH))
      else SqlStep(old(store.View()), Refresh(token, active, jti), checked, cfg)
  {
    var entry := store.ConsumeRefreshToken(token, now);
    if entry.None? { return Unauthorized(NO_REFRESH); }
    if checked > entry.value.expiresAt {
      store.RevokeRefreshToken(token);
      return Unauthorized(NO_REFRESH);
    }
    if !active(entry.value.did) { return Unauthorized(INACTIVE); }
    var exp := store.IssueSessionToken(token, jti, checked, cfg.sessionLifetime);
    return Refreshed(entry.value.did, jti, exp);
  }

  ghost predicate ExpiresBetween(rows: seq<Row>, token: string, now: int, checked: int) {
    Find(rows, token).Some? && now <= Find(rows, token).value.expiresAt < checked
  }

  method SqlLoginLogout(store: SqliteSessionStore, token: string, now: int, cfg: Config) returns (answer: Answer)
    requires store.Valid()
    modifies store
    ensures store.Valid()
    ensures (store.View(), answer) == SqlStep(old(store.View()), Logout(token), now, cfg)
  {
    store.RevokeRefreshToken(token);
    return Fine;
  }

  method SqlApiMe(store: SqliteSessionStore, jti: string, now: int, cfg: Config) returns (answer: Answer)
    requires store.Valid()
    ensures (store.View(), answer) == SqlStep(store.View(), CheckToken(jti), now, cfg)
  {
    var revoked := store.IsJtiRevoked(jti, now);
    return if revoked then Unauthorized(REVOKED) else Fine;
  }

  method SqlApiRevokeSession(store: SqliteSessionStore, sid: string, callerJti: string, now: int, cfg: Config)
      returns (answer: Answer)
    requires store.Valid()
    modifies store
    ensures store.Valid()
    ensures (store.View(), answer) == SqlStep(old(store.View()), RevokeSession(sid, callerJti), now, cfg)
  {
    var revoked := store.IsJtiRevoked(callerJti, now);
    if revoked { return Unauthorized(REVOKED); }
    var found, _ := store.RevokeSession(sid, now, cfg.sessionLifetime);
    if !found { return NotFound; }
    var selfRevoked := store.IsJtiRevoked(callerJti, now);
    return Revoked(selfRevoked);
  }
}
