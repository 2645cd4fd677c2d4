/** Where the SQLite store is no drop-in replacement for the in-memory one. */
module SessionDiffer {
  import opened Cbor
  import opened SessionSpec
  import opened SessionLaws
  import opened SessionRuns

  /** The stores list the same sessions of a DID exactly when none of them expires at this very
      second: `list_sessions` keeps such a session in memory and omits it in SQLite. */
  lemma {:induction false} ListAgreesIff(m: MemState, q: SqlState, did: string, p: Past, now: int, cfg: Config)
    requires Inv(m, q, p, now, cfg)
    ensures MemListed(m, did, now) == SqlListed(q, did, now) <==>
      forall r :: r in q.tokens && r.did == did ==> r.expiresAt != now
  {
    if forall r :: r in q.tokens && r.did == did ==> r.expiresAt != now {
      ListAgrees(m, q, did, p, now, cfg);
    } else {
      var r :| r in q.tokens && r.did == did && r.expiresAt == now;
      LiveElements(q.tokens, now);
      LiveElements(m.tokens, now);
      ListIsExact(m, did, now);
      assert r in MemListed(m, did, now) && r !in SqlListed(q, did, now);
    }
  }

  // ----- revoking

  /** The session that an id names is the same to the caller in both stores: there or not, and the
      caller's own or not. */
  ghost predicate NamedAlike(a: Option<Row>, b: Option<Row>, caller: string) {
    a.Some? == b.Some? && (a.Some? ==> (a.value.lastJti == caller <==> b.value.lastJti == caller))
  }

  /** The stores answer a revocation alike exactly if the id names the same in both. */
  lemma {:induction false} RevokeAgreesIff(
      m: MemState, q: SqlState, sid: string, caller: string, p: Past, now: int, cfg: Config)
    requires Inv(m, q, p, now, cfg)
    requires caller in p.issued && p.issued[caller] > now && caller != "" && caller !in m.blocklist
    ensures MemRevoke(m, RevokeSession(sid, caller)).1 == SqlRevoke(q, RevokeSession(sid, caller), now, cfg).1 <==>
      NamedAlike(FirstWithId(m.tokens, sid), FirstWithId(q.tokens, sid), caller)
  {
    var a, b := FirstWithId(m.tokens, sid), FirstWithId(q.tokens, sid);
    if b.Some? { assert JtiKnown(b.value.lastJti, p, now + cfg.sessionLifetime); }
  }

  ghost predicate Unexpired(row: Option<Row>, now: int) { row.Some? ==> now <= row.value.expiresAt }

  /** And that can fail only for a session that has expired: where neither store's own is, they do. */
  lemma {:induction false} RevokeAgreesUnexpired(
      m: MemState, q: SqlState, sid: string, caller: string, p: Past, now: int, cfg: Config)
    requires Inv(m, q, p, now, cfg)
    requires caller in p.issued && p.issued[caller] > now && caller != "" && caller !in m.blocklist
    requires Unexpired(FirstWithId(m.tokens, sid), now) && Unexpired(FirstWithId(q.tokens, sid), now)
    ensures FirstWithId(m.tokens, sid) == FirstWithId(q.tokens, sid)
    ensures MemRevoke(m, RevokeSession(sid, caller)).1 == SqlRevoke(q, RevokeSession(sid, caller), now, cfg).1
  {
    FirstOfLive(m.tokens, sid, now);
    FirstOfLive(q.tokens, sid, now);
    RevokeAgreesIff(m, q, sid, caller, p, now, cfg);
  }

  lemma {:induction false} FirstOfLive(rows: seq<Row>, sid: string, now: int)
    requires Unexpired(FirstWithId(rows, sid), now)
    ensures FirstWithId(Live(rows, now), sid) == FirstWithId(rows, sid)
  {
    if rows == [] {
    } else {
      Cons(rows[0], Live(rows[1..], now));
      NothingBefore(Live(rows[1..], now));
      if SessionId(rows[0].token) != sid { FirstOfLive(rows[1..], sid, now); }
    }
  }

  const SHORT := Config(900, 10)
  const ANYONE := (did: string) => true
  const ANY_PROOF := (c: Challenge) => true

  /** A login, a restart after the refresh token has expired, and the revocation of that session
      by its own JWT, which still has a while to live. */
  const EXPIRED_REVOKE := [
    Timed(0, LoginStart("did", "cred", "key", "ed25519", "c")),
    Timed(0, LoginComplete("c", "did", ANY_PROOF, ANYONE, "t", "j")),
    Timed(11, Restart),
    Timed(11, RevokeSession("t", "j"))]

  /** In memory the expired session is found and its JWT blocked. */
  lemma {:induction false} MemoryRevokesExpired()
    ensures MemRun(EMPTY_MEM, EXPIRED_REVOKE, SHORT).1 ==
      [Challenged("c"), LoggedIn("did", "t", "j", 900, 10), Fine, Revoked(true)]
  {
    var s := EXPIRED_REVOKE;
    var c := NewChallenge("did", "cred", "key", "ed25519", 0);
    var m1 := MemState(map["c" := c], [], {}, map[]);
    var m2 := MemState(map[], [Row("t", "did", 0, 10, "j")], {}, map["did" := {"t"}]);
    assert m1.challenges - {"c"} == map[];
    OneRow("t", "did", 10, "j");
    assert Index(map[], "did") + {"t"} == {"t"};
    assert (map[])["did" := {"t"}] == m2.byDid;
    assert MemIssueRefresh(EMPTY_MEM, "did", "t", 0, 10).tokens == [Row("t", "did", 0, 10, "")];
    assert MemStep(m1, s[1].e, 0, SHORT).0 == m2;
    assert MemStep(m2, s[3].e, 11, SHORT).1 == Revoked(true);
    assert MemRun(m2, s[3..], SHORT).1 == [Revoked(true)];
    assert s[2..][1..] == s[3..] && MemRun(m2, s[2..], SHORT).1 == [Fine, Revoked(true)];
    assert s[1..][1..] == s[2..];
    assert MemRun(m1, s[1..], SHORT).1 == [LoggedIn("did", "t", "j", 900, 10), Fine, Revoked(true)];
  }

  /** SQLite has pruned it, answers that there is no such session, and the JWT stays good. */
  lemma {:induction false} SqliteForgetsExpired()
    ensures SqlRun(EMPTY_SQL, EXPIRED_REVOKE, SHORT).0 == EMPTY_SQL
    ensures SqlRun(EMPTY_SQL, EXPIRED_REVOKE, SHORT).1 ==
      [Challenged("c"), LoggedIn("did", "t", "j", 900, 10), Fine, NotFound]
    ensures SqlStep(EMPTY_SQL, CheckToken("j"), 11, SHORT).1 == Fine
  {
    var s := EXPIRED_REVOKE;
    var c := NewChallenge("did", "cred", "key", "ed25519", 0);
    var q1 := SqlState(map["c" := c], [], map[]);
    var q2 := SqlState(map[], [Row("t", "did", 0, 10, "j")], map[]);
    assert q1.challenges - {"c"} == map[];
    OneRow("t", "did", 10, "j");
    assert SqlStep(q1, s[1].e, 0, SHORT).0 == q2;
    assert Live(q2.tokens, 11) == [];
    assert LiveChallenges(map[], 11) == map[];
    assert SqlStep(q2, s[2].e, 11, SHORT).0 == EMPTY_SQL;
    assert SqlStep(EMPTY_SQL, s[3].e, 11, SHORT) == (EMPTY_SQL, NotFound);
    assert SqlRun(EMPTY_SQL, s[3..][1..], SHORT) == (EMPTY_SQL, []);
    assert SqlRun(EMPTY_SQL, s[3..], SHORT).0 == EMPTY_SQL && SqlRun(EMPTY_SQL, s[3..], SHORT).1 == [NotFound];
    assert s[2..][1..] == s[3..] && SqlRun(q2, s[2..], SHORT).0 == EMPTY_SQL;
    assert SqlRun(q2, s[2..], SHORT).1 == [Fine, NotFound];
    assert s[1..][1..] == s[2..];
    assert SqlRun(q1, s[1..], SHORT).0 == EMPTY_SQL;
    assert SqlRun(q1, s[1..], SHORT).1 == [LoggedIn("did", "t", "j", 900, 10), Fine, NotFound];
  }

  lemma {:induction false} OneRow(token: string, did: string, exp: int, jti: string)
    ensures SetJti([Row(token, did, 0, exp, "")], token, jti) == [Row(token, did, 0, exp, jti)]
    ensures [] + [Row(token, did, 0, exp, "")] == [Row(token, did, 0, exp, "")]
    ensures Live([Row(token, did, 0, exp, jti)], exp + 1) == []
  {
    var row := Row(token, did, 0, exp, "");
    assert [row][1..] == [];
    assert SetJti([], token, jti) == [];
  }
}
