/** What a revocation in the SQLite store is good for: it holds in every later state, across any
    operations and any restarts with pruning. */
module SessionDurable {
  import opened SessionSpec
  import opened SessionLaws
  import opened SessionRuns

  /** From `now` until its JWT expires at `exp`, `jti` is on the block list. */
  ghost predicate BlockedUntil(q: SqlState, jti: string, exp: int, now: int) {
    now < exp ==> jti in q.blocklist && q.blocklist[jti].originalExp >= exp
  }

  /** The refresh token is spent: drawn before, and in no row. */
  ghost predicate Spent(q: SqlState, token: string, p: Past) {
    token in p.used && forall r :: r in q.tokens ==> r.token != token
  }

  /** A run of the SQLite store on a clock that never goes back, with fresh tokens. */
  ghost predicate SqlRunFresh(q: SqlState, p: Past, now: int, steps: seq<Timed>, cfg: Config)
    decreases |steps|
  {
    steps == [] ||
    (var Timed(t, e) := steps[0];
     var (q', a) := SqlStep(q, e, t, cfg);
     now <= t && Fresh(e, p) && SqlRunFresh(q', Remember(p, e, a), t, steps[1..], cfg))
  }

  lemma {:induction false} BlockedStep(q: SqlState, jti: string, exp: int, e: Event, now: int, t: int, cfg: Config)
    requires BlockedUntil(q, jti, exp, now) && now <= t
    ensures BlockedUntil(SqlStep(q, e, t, cfg).0, jti, exp, t)
  {
  }

  lemma {:induction false} SpentStep(q: SqlState, token: string, p: Past, e: Event, t: int, cfg: Config)
    requires Spent(q, token, p) && Fresh(e, p)
    ensures var (q', a) := SqlStep(q, e, t, cfg); Spent(q', token, Remember(p, e, a))
  {
    match e
    case LoginComplete(_, did, _, _, tok, jti) =>
      SetJtiKeeps(q.tokens + [Row(tok, did, t, t + cfg.refreshLifetime, "")], tok, jti);
    case Refresh(tok, _, jti) => SetJtiKeeps(q.tokens, tok, jti);
    case Logout(tok) => WithoutElements(q.tokens, tok);
    case RevokeSession(sid, _) =>
      if FirstWithId(q.tokens, sid).Some? { WithoutElements(q.tokens, FirstWithId(q.tokens, sid).value.token); }
    case Restart => LiveElements(q.tokens, t);
    case _ =>
  }

  /** Issuing a JWT changes the tokens of no row. */
  lemma {:induction false} SetJtiKeeps(rows: seq<Row>, token: string, jti: string)
    ensures forall r :: r in SetJti(rows, token, jti) ==> exists s :: s in rows && s.token == r.token
  {
    SetJtiElements(rows, token, jti);
    forall r | r in SetJti(rows, token, jti) ensures exists s :: s in rows && s.token == r.token {
      var i :| 0 <= i < |rows| && SetJti(rows, token, jti)[i] == r;
      assert rows[i] in rows;
    }
  }

  lemma {:induction false} StaysRevoked(
      q: SqlState, p: Past, now: int, steps: seq<Timed>, cfg: Config, jti: string, exp: int, token: string)
    requires SqlRunFresh(q, p, now, steps, cfg) && BlockedUntil(q, jti, exp, now) && Spent(q, token, p)
    ensures BlockedUntil(SqlRun(q, steps, cfg).0, jti, exp, EndOf(now, steps))
    ensures forall r :: r in SqlRun(q, steps, cfg).0.tokens ==> r.token != token
    decreases |steps|
  {
    if steps == [] {
    } else {
      var Timed(t, e) := steps[0];
      var (q', a) := SqlStep(q, e, t, cfg);
      BlockedStep(q, jti, exp, e, now, t, cfg);
      SpentStep(q, token, p, e, t, cfg);
      StaysRevoked(q', Remember(p, e, a), t, steps[1..], cfg, jti, exp, token);
    }
  }

  /** What `revoke_session` does when it finds the session: it blocks the session's latest JWT for
      at least as long as that lives, removes that row, and leaves every other row and every
      other JWT as they were. */
  lemma {:induction false} RevocationNow(q: SqlState, p: Past, now: int, cfg: Config, sid: string, caller: string)
    requires SqlInv(q, p, now, cfg) && FirstWithId(q.tokens, sid).Some? && !SqlIsRevoked(q, caller, now)
    requires caller in p.issued && p.issued[caller] > now && caller != ""
    ensures var row := FirstWithId(q.tokens, sid).value;
      var (q', a) := SqlRevoke(q, RevokeSession(sid, caller), now, cfg);
      && a == Revoked(caller == row.lastJti)
      && Spent(q', row.token, p)
      && (row.lastJti != "" ==> BlockedUntil(q', row.lastJti, p.issued[row.lastJti], now))
      && (forall r :: r in q'.tokens <==> r in q.tokens && r != row)
      && (forall j, t :: j != row.lastJti ==> SqlIsRevoked(q', j, t) == SqlIsRevoked(q, j, t))
      && (row.lastJti != "" && row.lastJti !in q.blocklist ==>
            q'.blocklist == q.blocklist[row.lastJti := Block(now, now + cfg.sessionLifetime)])
      && (row.lastJti == "" || row.lastJti in q.blocklist ==> q'.blocklist == q.blocklist)
  {
    var row := FirstWithId(q.tokens, sid).value;
    WithoutElements(q.tokens, row.token);
    forall r | r in q.tokens && r.token == row.token ensures r == row {
      FindOnly(q.tokens, r);
      FindOnly(q.tokens, row);
    }
  }

  /** Durable revocation: once `revoke_session` has returned True, then after any run of any
      operations and restarts, the latest JWT of the session is refused at every time before its
      expiry (section 4.1.4 of RFC 7519), and its refresh token is refused for good. */
  lemma {:induction false} DurableRevocation(
      q: SqlState, p: Past, now: int, cfg: Config, sid: string, caller: string, steps: seq<Timed>, later: int,
      active: string -> bool, newJti: string)
    requires SqlInv(q, p, now, cfg) && FirstWithId(q.tokens, sid).Some? && !SqlIsRevoked(q, caller, now)
    requires caller in p.issued && p.issued[caller] > now && caller != ""
    requires SqlRunFresh(SqlRevoke(q, RevokeSession(sid, caller), now, cfg).0, p, now, steps, cfg)
    requires EndOf(now, steps) <= later
    ensures var row := FirstWithId(q.tokens, sid).value;
      var end := SqlRun(SqlRevoke(q, RevokeSession(sid, caller), now, cfg).0, steps, cfg).0;
      && (row.lastJti != "" && later < p.issued[row.lastJti] ==>
            SqlStep(end, CheckToken(row.lastJti), later, cfg).1 == Unauthorized(REVOKED))
      && SqlStep(end, Refresh(row.token, active, newJti), later, cfg).1 == Unauthorized(NO_REFRESH)
  {
    var row := FirstWithId(q.tokens, sid).value;
    var q' := SqlRevoke(q, RevokeSession(sid, caller), now, cfg).0;
    RevocationNow(q, p, now, cfg, sid, caller);
    var exp := if row.lastJti == "" then now else p.issued[row.lastJti];
    StaysRevoked(q', p, now, steps, cfg, row.lastJti, exp, row.token);
    FindIff(SqlRun(q', steps, cfg).0.tokens, row.token);
  }

  // ----- the other JWTs of a revoked session

  /** The latest JWT of each session was issued for that session. */
  ghost predicate Owned(q: SqlState, p: Past) {
    && (forall r :: r in q.tokens && r.lastJti != "" ==> r.lastJti in p.owner && p.owner[r.lastJti] == r.token)
    && (forall j :: j in p.owner ==> j in p.issued)
  }

  lemma {:induction false} OwnedRows(rows: seq<Row>, token: string, jti: string, p: Past)
    requires forall r :: r in rows && r.lastJti != "" ==> r.lastJti in p.owner && p.owner[r.lastJti] == r.token
    requires jti !in p.owner
    ensures var owner := p.owner[jti := token];
      forall r :: r in SetJti(rows, token, jti) && r.lastJti != "" ==> r.lastJti in owner && owner[r.lastJti] == r.token
  {
    SetJtiElements(rows, token, jti);
    forall r | r in SetJti(rows, token, jti) && r.lastJti != ""
      ensures r.lastJti in p.owner[jti := token] && p.owner[jti := token][r.lastJti] == r.token
    {
      var i :| 0 <= i < |rows| && SetJti(rows, token, jti)[i] == r;
      assert rows[i] in rows;
    }
  }

  lemma {:induction false} OwnedStep(q: SqlState, e: Event, p: Past, t: int, cfg: Config)
    requires Owned(q, p) && Fresh(e, p)
    ensures var (q', a) := SqlStep(q, e, t, cfg); Owned(q', Remember(p, e, a))
  {
    match e
    case LoginComplete(_, did, _, _, tok, jti) =>
      OwnedRows(q.tokens + [Row(tok, did, t, t + cfg.refreshLifetime, "")], tok, jti, p);
    case Refresh(tok, _, jti) => OwnedRows(q.tokens, tok, jti, p);
    case Logout(tok) => WithoutElements(q.tokens, tok);
    case RevokeSession(sid, _) =>
      if FirstWithId(q.tokens, sid).Some? { WithoutElements(q.tokens, FirstWithId(q.tokens, sid).value.token); }
    case Restart => LiveElements(q.tokens, t);
    case _ =>
  }

  /** `jti` was issued for a session that is gone, and is not on the block list. */
  ghost predicate AtLarge(q: SqlState, jti: string, token: string, p: Past) {
    jti in p.owner && p.owner[jti] == token && jti !in q.blocklist && Spent(q, token, p)
  }

  lemma {:induction false} AtLargeStep(q: SqlState, jti: string, token: string, p: Past, e: Event, t: int, cfg: Config)
    requires Owned(q, p) && AtLarge(q, jti, token, p) && jti != "" && Fresh(e, p)
    ensures var (q', a) := SqlStep(q, e, t, cfg); AtLarge(q', jti, token, Remember(p, e, a))
  {
    SpentStep(q, token, p, e, t, cfg);
  }

  lemma {:induction false} StaysAtLarge(
      q: SqlState, p: Past, now: int, steps: seq<Timed>, cfg: Config, jti: string, token: string)
    requires SqlRunFresh(q, p, now, steps, cfg) && Owned(q, p) && AtLarge(q, jti, token, p) && jti != ""
    ensures jti !in SqlRun(q, steps, cfg).0.blocklist
    decreases |steps|
  {
    if steps == [] {
    } else {
      var Timed(t, e) := steps[0];
      var (q', a) := SqlStep(q, e, t, cfg);
      OwnedStep(q, e, p, t, cfg);
      AtLargeStep(q, jti, token, p, e, t, cfg);
      StaysAtLarge(q', Remember(p, e, a), t, steps[1..], cfg, jti, token);
    }
  }

  /** `jti` was issued for the session of that refresh token and expires later than `later`. */
  ghost predicate IssuedFor(p: Past, jti: string, token: string, later: int) {
    jti != "" && jti in p.owner && p.owner[jti] == token && jti in p.issued && later < p.issued[jti]
  }

  /** What a revocation does to any JWT of the session, for good: as long as it has not expired, it is
      refused in any later state exactly if it was the session's latest or was refused before. The
      earlier ones stay accepted, whatever is revoked afterwards. */
  lemma {:induction false} RefusedIff(
      q: SqlState, p: Past, now: int, cfg: Config, sid: string, caller: string, steps: seq<Timed>, later: int, jti: string)
    requires SqlInv(q, p, now, cfg) && Owned(q, p) && FirstWithId(q.tokens, sid).Some?
    requires !SqlIsRevoked(q, caller, now) && caller in p.issued && p.issued[caller] > now && caller != ""
    requires SqlRunFresh(SqlRevoke(q, RevokeSession(sid, caller), now, cfg).0, p, now, steps, cfg)
    requires EndOf(now, steps) <= later && IssuedFor(p, jti, FirstWithId(q.tokens, sid).value.token, later)
    ensures var end := SqlRun(SqlRevoke(q, RevokeSession(sid, caller), now, cfg).0, steps, cfg).0;
      SqlStep(end, CheckToken(jti), later, cfg).1 == Unauthorized(REVOKED) <==>
      jti == FirstWithId(q.tokens, sid).value.lastJti || SqlIsRevoked(q, jti, now)
  {
    var row := FirstWithId(q.tokens, sid).value;
    var q' := SqlRevoke(q, RevokeSession(sid, caller), now, cfg).0;
    RevocationNow(q, p, now, cfg, sid, caller);
    EndIsLater(q', p, now, steps, cfg);
    if jti == row.lastJti || SqlIsRevoked(q, jti, now) {
      StaysRevoked(q', p, now, steps, cfg, jti, p.issued[jti], row.token);
    } else {
      OwnedStep(q, Logout(row.token), p, now, cfg);
      assert Owned(q', p);
      StaysAtLarge(q', p, now, steps, cfg, jti, row.token);
    }
  }

  lemma {:induction false} EndIsLater(q: SqlState, p: Past, now: int, steps: seq<Timed>, cfg: Config)
    requires SqlRunFresh(q, p, now, steps, cfg)
    ensures now <= EndOf(now, steps)
    decreases |steps|
  {
    if steps == [] {
    } else {
      var Timed(t, e) := steps[0];
      var (q', a) := SqlStep(q, e, t, cfg);
      EndIsLater(q', Remember(p, e, a), t, steps[1..], cfg);
    }
  }

  // ----- runs from the empty database

  lemma {:induction false} ReachableInv(q: SqlState, p: Past, now: int, steps: seq<Timed>, cfg: Config)
    requires SqlInv(q, p, now, cfg) && Owned(q, p) && SqlRunFresh(q, p, now, steps, cfg)
    ensures SqlInv(SqlRun(q, steps, cfg).0, SqlPast(q, p, steps, cfg), EndOf(now, steps), cfg)
    ensures Owned(SqlRun(q, steps, cfg).0, SqlPast(q, p, steps, cfg))
    decreases |steps|
  {
    if steps == [] {
    } else {
      var Timed(t, e) := steps[0];
      SqlLater(q, p, now, t, cfg);
      SqlStepInv(q, e, p, t, cfg);
      OwnedStep(q, e, p, t, cfg);
      var (q', a) := SqlStep(q, e, t, cfg);
      ReachableInv(q', Remember(p, e, a), t, steps[1..], cfg);
    }
  }

  /** Every state that a run from the empty database reaches, with what that run has issued and drawn,
      satisfies what the theorems above ask. */
  lemma {:induction false} ReachableFromEmpty(start: int, steps: seq<Timed>, now: int, cfg: Config)
    requires SqlRunFresh(EMPTY_SQL, NOTHING, start, steps, cfg) && EndOf(start, steps) <= now
    ensures SqlInv(SqlRun(EMPTY_SQL, steps, cfg).0, SqlPast(EMPTY_SQL, NOTHING, steps, cfg), now, cfg)
    ensures Owned(SqlRun(EMPTY_SQL, steps, cfg).0, SqlPast(EMPTY_SQL, NOTHING, steps, cfg))
  {
    ReachableInv(EMPTY_SQL, NOTHING, start, steps, cfg);
    SqlLater(SqlRun(EMPTY_SQL, steps, cfg).0, SqlPast(EMPTY_SQL, NOTHING, steps, cfg), EndOf(start, steps), now, cfg);
  }

  /** A run from the empty database in which `caller`, a JWT that was issued and is still accepted,
      revokes at second `now` the session with the id `sid`. */
  ghost predicate RevokesInRun(
      start: int, before: seq<Timed>, now: int, sid: string, caller: string, steps: seq<Timed>, cfg: Config)
  {
    var q := SqlRun(EMPTY_SQL, before, cfg).0;
    var p := SqlPast(EMPTY_SQL, NOTHING, before, cfg);
    && SqlRunFresh(EMPTY_SQL, NOTHING, start, before, cfg) && EndOf(start, before) <= now
    && caller in p.issued && p.issued[caller] > now && caller != "" && !SqlIsRevoked(q, caller, now)
    && FirstWithId(q.tokens, sid).Some?
    && SqlRunFresh(SqlRevoke(q, RevokeSession(sid, caller), now, cfg).0, p, now, steps, cfg)
  }

  /** The two theorems for whole runs: in every run from the empty database, after a session has been
      revoked its refresh token is refused for good; and of the JWTs that the run issued for it, one that
      has not expired is refused exactly if it was the session's latest or was refused before. */
  lemma {:induction false} RevocationFromEmpty(
      start: int, before: seq<Timed>, now: int, sid: string, caller: string, steps: seq<Timed>, later: int, cfg: Config,
      active: string -> bool, newJti: string)
    requires RevokesInRun(start, before, now, sid, caller, steps, cfg) && EndOf(now, steps) <= later
    ensures var q := SqlRun(EMPTY_SQL, before, cfg).0;
      var p := SqlPast(EMPTY_SQL, NOTHING, before, cfg);
      var row := FirstWithId(q.tokens, sid).value;
      var end := SqlRun(SqlRevoke(q, RevokeSession(sid, caller), now, cfg).0, steps, cfg).0;
      && SqlStep(end, Refresh(row.token, active, newJti), later, cfg).1 == Unauthorized(NO_REFRESH)
      && forall jti :: IssuedFor(p, jti, row.token, later) ==>
           (SqlStep(end, CheckToken(jti), later, cfg).1 == Unauthorized(REVOKED) <==>
            jti == row.lastJti || SqlIsRevoked(q, jti, now))
  {
    var q := SqlRun(EMPTY_SQL, before, cfg).0;
    var p := SqlPast(EMPTY_SQL, NOTHING, before, cfg);
    var row := FirstWithId(q.tokens, sid).value;
    var end := SqlRun(SqlRevoke(q, RevokeSession(sid, caller), now, cfg).0, steps, cfg).0;
    ReachableFromEmpty(start, before, now, cfg);
    DurableRevocation(q, p, now, cfg, sid, caller, steps, later, active, newJti);
    forall jti | IssuedFor(p, jti, row.token, later)
      ensures SqlStep(end, CheckToken(jti), later, cfg).1 == Unauthorized(REVOKED) <==>
        jti == row.lastJti || SqlIsRevoked(q, jti, now)
    {
      RefusedIff(q, p, now, cfg, sid, caller, steps, later, jti);
    }
  }

  // ----- a run

  const USUAL := Config(900, 604800)
  const ACTIVE := (did: string) => true
  const ACCEPTED := (c: Challenge) => true

  /** A login with its JWT, a refresh with a second one, the revocation of the session, and a check of
      both. */
  const TWO_JWTS := [
    Timed(0, LoginStart("did", "cred", "key", "ed25519", "c")),
    Timed(0, LoginComplete("c", "did", ACCEPTED, ACTIVE, "t", "first")),
    Timed(1, Refresh("t", ACTIVE, "second")),
    Timed(2, RevokeSession("t", "second")),
    Timed(3, CheckToken("second")),
    Timed(3, CheckToken("first"))]

  lemma {:induction false} RowOfRun()
    ensures var row := Row("t", "did", 0, 604800, "");
      && [] + [row] == [row]
      && SetJti([row], "t", "first") == [row.(lastJti := "first")]
      && SetJti([row.(lastJti := "first")], "t", "second") == [row.(lastJti := "second")]
      && Without([row.(lastJti := "second")], "t") == []
  {
    var row := Row("t", "did", 0, 604800, "");
    assert [row][1..] == [] && [row.(lastJti := "first")][1..] == [] && [row.(lastJti := "second")][1..] == [];
    assert SetJti([], "t", "first") == [] && SetJti([], "t", "second") == [] && Without([], "t") == [];
  }

  /** The caller hears that its own session was revoked, the second JWT is refused, and the first one,
      of the same session and not expired either, passes. */
  lemma {:induction false} FirstJwtSurvives()
    ensures SqlRun(EMPTY_SQL, TWO_JWTS, USUAL).1 ==
      [Challenged("c"), LoggedIn("did", "t", "first", 900, 604800), Refreshed("did", "second", 901), Revoked(true),
       Unauthorized(REVOKED), Fine]
  {
    var s := TWO_JWTS;
    var row := Row("t", "did", 0, 604800, "");
    var q1 := SqlState(map["c" := NewChallenge("did", "cred", "key", "ed25519", 0)], [], map[]);
    var q2 := SqlState(map[], [row.(lastJti := "first")], map[]);
    var q3 := SqlState(map[], [row.(lastJti := "second")], map[]);
    var q4 := SqlState(map[], [], map["second" := Block(2, 902)]);
    RowOfRun();
    assert q1.challenges - {"c"} == map[];
    assert SqlStep(EMPTY_SQL, s[0].e, 0, USUAL) == (q1, Challenged("c"));
    assert SqlStep(q1, s[1].e, 0, USUAL) == (q2, LoggedIn("did", "t", "first", 900, 604800));
    assert SqlStep(q2, s[2].e, 1, USUAL) == (q3, Refreshed("did", "second", 901));
    assert SqlStep(q3, s[3].e, 2, USUAL) == (q4, Revoked(true));
    assert SqlStep(q4, s[4].e, 3, USUAL) == (q4, Unauthorized(REVOKED));
    assert SqlStep(q4, s[5].e, 3, USUAL) == (q4, Fine);
    LastAnswers(q4, s);
    assert SqlRun(q3, s[3..], USUAL).1 == [Revoked(true), Unauthorized(REVOKED), Fine];
    assert s[2..][1..] == s[3..] && s[1..][1..] == s[2..];
    assert SqlRun(q2, s[2..], USUAL).1 == [Refreshed("did", "second", 901)] + SqlRun(q3, s[3..], USUAL).1;
    assert SqlRun(q1, s[1..], USUAL).1 ==
      [LoggedIn("did", "t", "first", 900, 604800)] + SqlRun(q2, s[2..], USUAL).1;
  }

  lemma {:induction false} LastAnswers(q: SqlState, s: seq<Timed>)
    requires |s| == 6
    requires SqlStep(q, s[4].e, s[4].now, USUAL) == (q, Unauthorized(REVOKED))
    requires SqlStep(q, s[5].e, s[5].now, USUAL) == (q, Fine)
    ensures SqlRun(q, s[4..], USUAL).1 == [Unauthorized(REVOKED), Fine]
    ensures s[3..][1..] == s[4..]
  {
    assert s[4..][1..] == s[5..] && s[5..][1..] == [];
    assert SqlRun(q, s[5..], USUAL).1 == [Fine];
  }
}
