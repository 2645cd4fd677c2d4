/** Whole runs of the session stores: the in-memory store and the SQLite store give the same
    answers, and a revoked session stays revoked. */
module SessionRuns {
  import opened Cbor
  import opened SessionSpec
  import opened SessionLaws

  // ----- agreement of the two stores

  /** Equal on unexpired challenges and tokens and on revocation of unexpired JWT ids. */
  ghost predicate Agree(m: MemState, q: SqlState, p: Past, now: int) {
    && LiveChallenges(m.challenges, now) == LiveChallenges(q.challenges, now)
    && Live(m.tokens, now) == Live(q.tokens, now)
    && BlocksAgree(m.blocklist, q.blocklist, p.issued, now)
  }

  ghost predicate BlocksAgree(mem: set<string>, sql: map<string, Block>, issued: map<string, int>, now: int) {
    forall j :: j in issued && issued[j] > now ==> (j in mem <==> j in sql && sql[j].originalExp > now)
  }

  lemma {:induction false} FreshJtiAgrees(
      mem: set<string>, sql: map<string, Block>, issued: map<string, int>, jti: string, exp: int, now: int)
    requires BlocksAgree(mem, sql, issued, now) && jti !in mem && jti !in sql
    ensures BlocksAgree(mem, sql, issued[jti := exp], now)
  {
  }

  ghost predicate Inv(m: MemState, q: SqlState, p: Past, now: int, cfg: Config) {
    MemInv(m, p, now, cfg) && SqlInv(q, p, now, cfg) && Agree(m, q, p, now)
  }

  /** Where the two stores are meant to answer alike: JWTs are unexpired, no token of a listed DID
      expires at this very second, and a session to be revoked has not expired. */
  ghost predicate Comparable(e: Event, m: MemState, q: SqlState, p: Past, now: int) {
    match e
    case CheckToken(jti) => jti in p.issued && p.issued[jti] > now
    case ListSessions(did) => forall r :: r in q.tokens && r.did == did ==> r.expiresAt != now
    case RevokeSession(sid, jti) =>
      && jti in p.issued && p.issued[jti] > now
      && (forall r :: (r in m.tokens || r in q.tokens) && SessionId(r.token) == sid ==> now <= r.expiresAt)
    case _ => true
  }

  lemma {:induction false} MemLater(s: MemState, p: Past, now: int, later: int, cfg: Config)
    requires MemInv(s, p, now, cfg) && now <= later
    ensures MemInv(s, p, later, cfg)
  {
  }

  lemma {:induction false} SqlLater(s: SqlState, p: Past, now: int, later: int, cfg: Config)
    requires SqlInv(s, p, now, cfg) && now <= later
    ensures SqlInv(s, p, later, cfg)
  {
  }

  /** Time alone does not make the stores disagree. */
  lemma {:induction false} Later(m: MemState, q: SqlState, p: Past, now: int, later: int, cfg: Config)
    requires Inv(m, q, p, now, cfg) && now <= later
    ensures Inv(m, q, p, later, cfg)
  {
    MemLater(m, p, now, later, cfg);
    SqlLater(q, p, now, later, cfg);
    LiveTwice(m.tokens, now, later);
    LiveTwice(q.tokens, now, later);
    assert LiveChallenges(m.challenges, later) == LiveChallenges(LiveChallenges(m.challenges, now), later);
    assert LiveChallenges(q.challenges, later) == LiveChallenges(LiveChallenges(q.challenges, now), later);
  }

  // ----- invariants step by step

  lemma {:induction false} MemLoginInv(s: MemState, e: Event, p: Past, now: int, cfg: Config)
    requires MemInv(s, p, now, cfg) && Fresh(e, p) && e.LoginComplete?
    ensures var (s', a) := MemLogin(s, e, now, cfg); MemInv(s', Remember(p, e, a), now, cfg)
  {
    if MemLogin(s, e, now, cfg).1.LoggedIn? {
      var s1 := s.(challenges := s.challenges - {e.challenge});
      assert IndexInv(s1, now);
      LoggedInRows(s.tokens, e, p, now, cfg);
      LoggedInIndex(s1, e, p, now, cfg);
    }
  }

  lemma {:induction false} LoggedInRows(rows: seq<Row>, e: Event, p: Past, now: int, cfg: Config)
    requires RowsInv(rows, p, now, cfg) && Fresh(e, p) && e.LoginComplete?
    ensures RowsInv(SetJti(rows + [Row(e.token, e.did, now, now + cfg.refreshLifetime, "")], e.token, e.jti),
      Past(p.issued[e.jti := now + cfg.sessionLifetime], p.owner[e.jti := e.token], p.used + {e.token}), now, cfg)
  {
    var row := Row(e.token, e.did, now, now + cfg.refreshLifetime, "");
    RowsAppend(rows, row, p, now, cfg);
    RowsSetJti(rows + [row], e.token, e.jti, p.(used := p.used + {e.token}), now, cfg);
  }

  lemma {:induction false} LoggedInIndex(s: MemState, e: Event, p: Past, now: int, cfg: Config)
    requires IndexInv(s, now) && RowsInv(s.tokens, p, now, cfg) && Fresh(e, p) && e.LoginComplete?
    ensures IndexInv(
      MemIssueSession(MemIssueRefresh(s, e.did, e.token, now, cfg.refreshLifetime), e.token, e.jti), now)
  {
    FindIff(s.tokens, e.token);
    IndexIssue(s, e.did, e.token, now, cfg.refreshLifetime);
    RowsAppend(s.tokens, Row(e.token, e.did, now, now + cfg.refreshLifetime, ""), p, now, cfg);
    IndexSetJti(MemIssueRefresh(s, e.did, e.token, now, cfg.refreshLifetime), e.token, e.jti, now);
  }

  lemma {:induction false} MemRefreshInv(s: MemState, e: Event, p: Past, now: int, cfg: Config)
    requires MemInv(s, p, now, cfg) && Fresh(e, p) && e.Refresh?
    ensures var (s', a) := MemRefresh(s, e, now, cfg); MemInv(s', Remember(p, e, a), now, cfg)
  {
    RowsWithout(s.tokens, e.token, p, now, cfg);
    IndexWithout(s, e.token, now);
    RowsSetJti(s.tokens, e.token, e.jti, p, now, cfg);
    IndexSetJti(s, e.token, e.jti, now);
  }

  lemma {:induction false} MemRevokeInv(s: MemState, e: Event, p: Past, now: int, cfg: Config)
    requires MemInv(s, p, now, cfg) && e.RevokeSession?
    ensures MemInv(MemRevoke(s, e).0, p, now, cfg)
  {
    var first := FirstWithId(s.tokens, e.sid);
    if first.Some? {
      var row := first.value;
      var s1 := if row.lastJti == "" then s else s.(blocklist := s.blocklist + {row.lastJti});
      RowsWithout(s.tokens, row.token, p, now, cfg);
      assert IndexInv(s1, now);
      IndexWithout(s1, row.token, now);
    }
  }

  /** Lazy index agreement, as an invariant of every step: each index holds only tokens of its DID
      and omits only expired ones. */
  lemma {:induction false} MemStepInv(s: MemState, e: Event, p: Past, now: int, cfg: Config)
    requires MemInv(s, p, now, cfg) && Fresh(e, p)
    ensures var (s', a) := MemStep(s, e, now, cfg); MemInv(s', Remember(p, e, a), now, cfg)
  {
    match e
    case LoginStart(_, _, _, _, c) =>
    case LoginComplete(_, _, _, _, _, _) => MemLoginInv(s, e, p, now, cfg);
    case Refresh(_, _, _) => MemRefreshInv(s, e, p, now, cfg);
    case Logout(token) =>
      RowsWithout(s.tokens, token, p, now, cfg);
      IndexWithout(s, token, now);
    case CheckToken(_) =>
    case ListSessions(did) => ListIsExact(s, did, now);
    case RevokeSession(_, _) => MemRevokeInv(s, e, p, now, cfg);
    case Restart =>
  }

  lemma {:induction false} SqlLoginInv(s: SqlState, e: Event, p: Past, now: int, cfg: Config)
    requires SqlInv(s, p, now, cfg) && Fresh(e, p) && e.LoginComplete?
    ensures var (s', a) := SqlLogin(s, e, now, cfg); SqlInv(s', Remember(p, e, a), now, cfg)
  {
    var (s', a) := SqlLogin(s, e, now, cfg);
    if a.LoggedIn? {
      var row := Row(e.token, e.did, now, now + cfg.refreshLifetime, "");
      RowsAppend(s.tokens, row, p, now, cfg);
      RowsSetJti(s.tokens + [row], e.token, e.jti, p.(used := p.used + {e.token}), now, cfg);
    }
  }

  lemma {:induction false} SqlRevokeInv(s: SqlState, e: Event, p: Past, now: int, cfg: Config)
    requires SqlInv(s, p, now, cfg) && e.RevokeSession?
    ensures SqlInv(SqlRevoke(s, e, now, cfg).0, p, now, cfg)
  {
    var first := FirstWithId(s.tokens, e.sid);
    if first.Some? { RowsWithout(s.tokens, first.value.token, p, now, cfg); }
  }

  lemma {:induction false} SqlStepInv(s: SqlState, e: Event, p: Past, now: int, cfg: Config)
    requires SqlInv(s, p, now, cfg) && Fresh(e, p)
    ensures var (s', a) := SqlStep(s, e, now, cfg); SqlInv(s', Remember(p, e, a), now, cfg)
  {
    match e
    case LoginStart(_, _, _, _, c) =>
    case LoginComplete(_, _, _, _, _, _) => SqlLoginInv(s, e, p, now, cfg);
    case Refresh(token, _, jti) => RowsSetJti(s.tokens, token, jti, p, now, cfg);
    case Logout(token) => RowsWithout(s.tokens, token, p, now, cfg);
    case CheckToken(_) =>
    case ListSessions(_) =>
    case RevokeSession(_, _) => SqlRevokeInv(s, e, p, now, cfg);
    case Restart => RowsLive(s.tokens, now, p, now, cfg);
  }

  // ----- equal answers, step by step

  lemma {:induction false} ConsumeAgrees(a: map<string, Challenge>, b: map<string, Challenge>, c: string, now: int)
    requires LiveChallenges(a, now) == LiveChallenges(b, now)
    ensures Consumed(a, c, now) == Consumed(b, c, now)
    ensures LiveChallenges(a - {c}, now) == LiveChallenges(b - {c}, now)
  {
    assert c in LiveChallenges(a, now) <==> c in LiveChallenges(b, now);
    assert LiveChallenges(a - {c}, now) == LiveChallenges(a, now) - {c};
    assert LiveChallenges(b - {c}, now) == LiveChallenges(b, now) - {c};
  }

  lemma {:induction false} IssueAgrees(a: seq<Row>, b: seq<Row>, row: Row, jti: string, now: int)
    requires Live(a, now) == Live(b, now)
    ensures Live(SetJti(a + [row], row.token, jti), now) == Live(SetJti(b + [row], row.token, jti), now)
  {
    LiveAppend(a, row, now);
    LiveAppend(b, row, now);
    LiveSetJti(a + [row], row.token, jti, now);
    LiveSetJti(b + [row], row.token, jti, now);
  }

  lemma {:induction false} LoginAgrees(m: MemState, q: SqlState, e: Event, p: Past, now: int, cfg: Config)
    requires Inv(m, q, p, now, cfg) && Fresh(e, p) && e.LoginComplete?
    ensures MemLogin(m, e, now, cfg).1 == SqlLogin(q, e, now, cfg).1
    ensures Agree(MemLogin(m, e, now, cfg).0, SqlLogin(q, e, now, cfg).0,
      Remember(p, e, MemLogin(m, e, now, cfg).1), now)
  {
    ConsumeAgrees(m.challenges, q.challenges, e.challenge, now);
    var m1, q1 := m.(challenges := m.challenges - {e.challenge}), q.(challenges := q.challenges - {e.challenge});
    if MemLogin(m, e, now, cfg).1.LoggedIn? { LoggedInAgrees(m1, q1, e, p, now, cfg); }
  }

  lemma {:induction false} LoggedInAgrees(m: MemState, q: SqlState, e: Event, p: Past, now: int, cfg: Config)
    requires Agree(m, q, p, now) && e.LoginComplete? && e.jti !in m.blocklist && e.jti !in q.blocklist
    ensures Agree(
      MemIssueSession(MemIssueRefresh(m, e.did, e.token, now, cfg.refreshLifetime), e.token, e.jti),
      SqlIssueSession(SqlIssueRefresh(q, e.did, e.token, now, cfg.refreshLifetime), e.token, e.jti),
      Past(p.issued[e.jti := now + cfg.sessionLifetime], p.owner[e.jti := e.token], p.used + {e.token}), now)
  {
    IssueAgrees(m.tokens, q.tokens, Row(e.token, e.did, now, now + cfg.refreshLifetime, ""), e.jti, now);
    FreshJtiAgrees(m.blocklist, q.blocklist, p.issued, e.jti, now + cfg.sessionLifetime, now);
  }

  lemma {:induction false} RefreshAgrees(m: MemState, q: SqlState, e: Event, p: Past, now: int, cfg: Config)
    requires Inv(m, q, p, now, cfg) && Fresh(e, p) && e.Refresh?
    ensures MemRefresh(m, e, now, cfg).1 == SqlRefresh(q, e, now, cfg).1
    ensures Agree(MemRefresh(m, e, now, cfg).0, SqlRefresh(q, e, now, cfg).0,
      Remember(p, e, MemRefresh(m, e, now, cfg).1), now)
  {
    FindLive(m.tokens, e.token, now);
    FindLive(q.tokens, e.token, now);
    if Find(Live(m.tokens, now), e.token).None? {
      RefusedAgrees(m, q, e, p, now, cfg);
    } else if e.active(Find(m.tokens, e.token).value.did) {
      RefreshedAgrees(m, q, e.token, e.jti, p, now, cfg);
    }
  }

  lemma {:induction false} RefusedAgrees(m: MemState, q: SqlState, e: Event, p: Past, now: int, cfg: Config)
    requires Agree(m, q, p, now) && DistinctTokens(m.tokens) && DistinctTokens(q.tokens) && e.Refresh?
    requires Find(Live(m.tokens, now), e.token).None?
    ensures MemRefresh(m, e, now, cfg).1 == Unauthorized(NO_REFRESH)
    ensures SqlRefresh(q, e, now, cfg) == (q, Unauthorized(NO_REFRESH))
    ensures Agree(MemRefresh(m, e, now, cfg).0, q, p, now)
  {
    FindLive(m.tokens, e.token, now);
    FindLive(q.tokens, e.token, now);
    DropExpired(m.tokens, e.token, now);
  }

  lemma {:induction false} RefreshedAgrees(
      m: MemState, q: SqlState, token: string, jti: string, p: Past, now: int, cfg: Config)
    requires Inv(m, q, p, now, cfg) && jti !in p.issued
    ensures Agree(MemIssueSession(m, token, jti), SqlIssueSession(q, token, jti),
      p.(issued := p.issued[jti := now + cfg.sessionLifetime]), now)
  {
    LiveSetJti(m.tokens, token, jti, now);
    LiveSetJti(q.tokens, token, jti, now);
    FreshJtiAgrees(m.blocklist, q.blocklist, p.issued, jti, now + cfg.sessionLifetime, now);
  }

  /** Dropping a token that has expired changes nothing among the unexpired ones. */
  lemma {:induction false} DropExpired(rows: seq<Row>, token: string, now: int)
    requires DistinctTokens(rows) && Find(Live(rows, now), token).None?
    ensures Live(Without(rows, token), now) == Live(rows, now)
  {
    LiveWithout(rows, token, now);
    FindIff(Live(rows, now), token);
    NothingToDrop(Live(rows, now), token);
  }

  lemma {:induction false} NothingToDrop(rows: seq<Row>, token: string)
    requires forall r :: r in rows ==> r.token != token
    ensures Without(rows, token) == rows
  {
    if rows == [] {
    } else {
      assert rows[0] in rows;
      forall r | r in rows[1..] ensures r in rows {}
      NothingToDrop(rows[1..], token);
    }
  }

  lemma {:induction false} ListAgrees(m: MemState, q: SqlState, did: string, p: Past, now: int, cfg: Config)
    requires Inv(m, q, p, now, cfg) && Comparable(ListSessions(did), m, q, p, now)
    ensures MemListed(m, did, now) == SqlListed(q, did, now)
  {
    ListIsExact(m, did, now);
    LiveElements(m.tokens, now);
    LiveElements(q.tokens, now);
    assert MemListed(m, did, now) == set r | r in Live(m.tokens, now) && r.did == did;
    assert SqlListed(q, did, now) == set r | r in Live(q.tokens, now) && r.did == did;
  }

  lemma {:induction false} RevokeAgrees(m: MemState, q: SqlState, e: Event, p: Past, now: int, cfg: Config)
    requires Inv(m, q, p, now, cfg) && e.RevokeSession? && Comparable(e, m, q, p, now)
    ensures MemRevoke(m, e).1 == SqlRevoke(q, e, now, cfg).1
    ensures Agree(MemRevoke(m, e).0, SqlRevoke(q, e, now, cfg).0, p, now)
  {
    FirstLive(m.tokens, e.sid, now);
    FirstLive(q.tokens, e.sid, now);
    var first := FirstWithId(m.tokens, e.sid);
    if first.Some? && e.callerJti !in m.blocklist { RevokedAgrees(m, q, first.value, e.sid, p, now, cfg); }
  }

  lemma {:induction false} RevokedAgrees(
      m: MemState, q: SqlState, row: Row, sid: string, p: Past, now: int, cfg: Config)
    requires Inv(m, q, p, now, cfg)
    requires FirstWithId(m.tokens, sid) == Some(row) && FirstWithId(q.tokens, sid) == Some(row)
    ensures Agree(MemRevokeSession(m, sid), SqlRevokeSession(q, sid, now, cfg.sessionLifetime), p, now)
  {
    FindOnly(m.tokens, row);
    LiveWithout(m.tokens, row.token, now);
    LiveWithout(q.tokens, row.token, now);
    if row.lastJti != "" {
      BlockAgrees(m.blocklist, q.blocklist, p.issued, row.lastJti, now, cfg.sessionLifetime);
    }
  }

  lemma {:induction false} BlockAgrees(
      mem: set<string>, sql: map<string, Block>, issued: map<string, int>, jti: string, now: int, lifetime: int)
    requires BlocksAgree(mem, sql, issued, now)
    requires jti in issued && issued[jti] <= now + lifetime
    requires forall j :: j in sql ==> j in issued && issued[j] <= sql[j].originalExp
    ensures BlocksAgree(mem + {jti}, AddBlock(sql, jti, now, lifetime), issued, now)
  {
  }

  /** One step of both stores: the same answer, and still in agreement. A restart of the SQLite
      store, with its pruning, is a step that the in-memory store does not notice. */
  lemma {:induction false} StepAgrees(m: MemState, q: SqlState, e: Event, p: Past, now: int, cfg: Config)
    requires Inv(m, q, p, now, cfg) && Fresh(e, p) && Comparable(e, m, q, p, now)
    ensures MemStep(m, e, now, cfg).1 == SqlStep(q, e, now, cfg).1
    ensures Inv(MemStep(m, e, now, cfg).0, SqlStep(q, e, now, cfg).0, Remember(p, e, MemStep(m, e, now, cfg).1), now, cfg)
  {
    MemStepInv(m, e, p, now, cfg);
    SqlStepInv(q, e, p, now, cfg);
    AnswersAgree(m, q, e, p, now, cfg);
  }

  lemma {:induction false} AnswersAgree(m: MemState, q: SqlState, e: Event, p: Past, now: int, cfg: Config)
    requires Inv(m, q, p, now, cfg) && Fresh(e, p) && Comparable(e, m, q, p, now)
    ensures MemStep(m, e, now, cfg).1 == SqlStep(q, e, now, cfg).1
    ensures Agree(MemStep(m, e, now, cfg).0, SqlStep(q, e, now, cfg).0, Remember(p, e, MemStep(m, e, now, cfg).1), now)
  {
    match e
    case LoginStart(did, cred, key, alg, c) =>
      ChallengeAgrees(m.challenges, q.challenges, c, NewChallenge(did, cred, key, alg, now), now);
    case LoginComplete(_, _, _, _, _, _) => LoginAgrees(m, q, e, p, now, cfg);
    case Refresh(_, _, _) => RefreshAgrees(m, q, e, p, now, cfg);
    case Logout(token) => LogoutAgrees(m, q, token, now);
    case CheckToken(jti) =>
    case ListSessions(did) => ListAgrees(m, q, did, p, now, cfg);
    case RevokeSession(_, _) => RevokeAgrees(m, q, e, p, now, cfg);
    case Restart => RestartAgrees(q, now);
  }

  lemma {:induction false} ChallengeAgrees(
      a: map<string, Challenge>, b: map<string, Challenge>, c: string, entry: Challenge, now: int)
    requires LiveChallenges(a, now) == LiveChallenges(b, now) && now <= entry.expiresAt
    ensures LiveChallenges(a[c := entry], now) == LiveChallenges(b[c := entry], now)
  {
    assert LiveChallenges(a[c := entry], now) == LiveChallenges(a, now)[c := entry];
    assert LiveChallenges(b[c := entry], now) == LiveChallenges(b, now)[c := entry];
  }

  lemma {:induction false} LogoutAgrees(m: MemState, q: SqlState, token: string, now: int)
    requires Live(m.tokens, now) == Live(q.tokens, now)
    ensures Live(MemRevokeRefresh(m, token).tokens, now) == Live(SqlRevokeRefresh(q, token).tokens, now)
  {
    LiveWithout(m.tokens, token, now);
    LiveWithout(q.tokens, token, now);
    if Find(m.tokens, token).None? {
      FindIff(m.tokens, token);
      NothingToDrop(m.tokens, token);
    }
  }

  lemma {:induction false} RestartAgrees(q: SqlState, now: int)
    ensures Live(SqlRestart(q, now).tokens, now) == Live(q.tokens, now)
    ensures LiveChallenges(SqlRestart(q, now).challenges, now) == LiveChallenges(q.challenges, now)
  {
    LiveTwice(q.tokens, now, now);
  }

  // ----- runs

  datatype Timed = Timed(now: int, e: Event)

  function MemRun(m: MemState, steps: seq<Timed>, cfg: Config): (MemState, seq<Answer>)
    decreases |steps|
  {
    if steps == [] then (m, [])
    else
      var (m', a) := MemStep(m, steps[0].e, steps[0].now, cfg);
      var (last, answers) := MemRun(m', steps[1..], cfg);
      (last, [a] + answers)
  }

  function SqlRun(q: SqlState, steps: seq<Timed>, cfg: Config): (SqlState, seq<Answer>)
    decreases |steps|
  {
    if steps == [] then (q, [])
    else
      var (q', a) := SqlStep(q, steps[0].e, steps[0].now, cfg);
      var (last, answers) := SqlRun(q', steps[1..], cfg);
      (last, [a] + answers)
  }

  /** What has been issued and drawn once the in-memory store has run. */
  ghost function MemPast(m: MemState, p: Past, steps: seq<Timed>, cfg: Config): Past
    decreases |steps|
  {
    if steps == [] then p
    else
      var (m', a) := MemStep(m, steps[0].e, steps[0].now, cfg);
      MemPast(m', Remember(p, steps[0].e, a), steps[1..], cfg)
  }

  /** And once the SQLite store has. */
  ghost function SqlPast(q: SqlState, p: Past, steps: seq<Timed>, cfg: Config): Past
    decreases |steps|
  {
    if steps == [] then p
    else
      var (q', a) := SqlStep(q, steps[0].e, steps[0].now, cfg);
      SqlPast(q', Remember(p, steps[0].e, a), steps[1..], cfg)
  }

  function EndOf(now: int, steps: seq<Timed>): int {
    if steps == [] then now else steps[|steps| - 1].now
  }

  /** A run on a clock that never goes back, with fresh tokens, comparable at every step. */
  ghost predicate ComparableRun(m: MemState, q: SqlState, p: Past, now: int, steps: seq<Timed>, cfg: Config)
    decreases |steps|
  {
    steps == [] ||
    (var Timed(t, e) := steps[0];
     var (m', a) := MemStep(m, e, t, cfg);
     && now <= t && Fresh(e, p) && Comparable(e, m, q, p, t)
     && ComparableRun(m', SqlStep(q, e, t, cfg).0, Remember(p, e, a), t, steps[1..], cfg))
  }

  /** Store simulation: driven by the same run, with any number of restarts of the SQLite store in
      it, the two stores give the same answers to all of it, issue the same JWTs, and at its end agree
      on unexpired challenges, unexpired tokens and the revocation of the unexpired JWTs issued. */
  lemma {:induction false} Simulation(m: MemState, q: SqlState, p: Past, now: int, steps: seq<Timed>, cfg: Config)
    requires Inv(m, q, p, now, cfg) && ComparableRun(m, q, p, now, steps, cfg)
    ensures MemRun(m, steps, cfg).1 == SqlRun(q, steps, cfg).1
    ensures MemPast(m, p, steps, cfg) == SqlPast(q, p, steps, cfg)
    ensures Inv(MemRun(m, steps, cfg).0, SqlRun(q, steps, cfg).0, MemPast(m, p, steps, cfg), EndOf(now, steps), cfg)
    decreases |steps|
  {
    if steps == [] {
    } else {
      var Timed(t, e) := steps[0];
      Later(m, q, p, now, t, cfg);
      StepAgrees(m, q, e, p, t, cfg);
      var (m', a) := MemStep(m, e, t, cfg);
      Simulation(m', SqlStep(q, e, t, cfg).0, Remember(p, e, a), t, steps[1..], cfg);
    }
  }

  /** Both stores start empty. */
  lemma {:induction false} SimulationFromEmpty(steps: seq<Timed>, now: int, cfg: Config)
    requires ComparableRun(EMPTY_MEM, EMPTY_SQL, NOTHING, now, steps, cfg)
    ensures MemRun(EMPTY_MEM, steps, cfg).1 == SqlRun(EMPTY_SQL, steps, cfg).1
    ensures Agree(MemRun(EMPTY_MEM, steps, cfg).0, SqlRun(EMPTY_SQL, steps, cfg).0,
      SqlPast(EMPTY_SQL, NOTHING, steps, cfg), EndOf(now, steps))
  {
    Simulation(EMPTY_MEM, EMPTY_SQL, NOTHING, now, steps, cfg);
  }

  /** A run of the in-memory store on a clock that never goes back, with fresh tokens. */
  ghost predicate MemRunFresh(m: MemState, p: Past, now: int, steps: seq<Timed>, cfg: Config)
    decreases |steps|
  {
    steps == [] ||
    (var Timed(t, e) := steps[0];
     var (m', a) := MemStep(m, e, t, cfg);
     now <= t && Fresh(e, p) && MemRunFresh(m', Remember(p, e, a), t, steps[1..], cfg))
  }

  lemma {:induction false} MemReachable(m: MemState, p: Past, now: int, steps: seq<Timed>, cfg: Config)
    requires MemInv(m, p, now, cfg) && MemRunFresh(m, p, now, steps, cfg)
    ensures MemInv(MemRun(m, steps, cfg).0, MemPast(m, p, steps, cfg), EndOf(now, steps), cfg)
    decreases |steps|
  {
    if steps == [] {
    } else {
      var Timed(t, e) := steps[0];
      MemLater(m, p, now, t, cfg);
      MemStepInv(m, e, p, t, cfg);
      var (m', a) := MemStep(m, e, t, cfg);
      MemReachable(m', Remember(p, e, a), t, steps[1..], cfg);
    }
  }

  /** Lazy index agreement, for every state that a run from the empty store reaches: each DID's index
      holds only tokens of that DID and omits only expired ones, and at any later time `list_sessions`
      returns exactly the DID's tokens with now <= expires_at. */
  lemma {:induction false} LazyIndex(steps: seq<Timed>, start: int, cfg: Config, did: string, later: int)
    requires MemRunFresh(EMPTY_MEM, NOTHING, start, steps, cfg) && EndOf(start, steps) <= later
    ensures var m := MemRun(EMPTY_MEM, steps, cfg).0;
      IndexInv(m, later) && MemListed(m, did, later) == set r | r in m.tokens && r.did == did && later <= r.expiresAt
  {
    MemReachable(EMPTY_MEM, NOTHING, start, steps, cfg);
    var m := MemRun(EMPTY_MEM, steps, cfg).0;
    MemLater(m, MemPast(EMPTY_MEM, NOTHING, steps, cfg), EndOf(start, steps), later, cfg);
    ListIsExact(m, did, later);
  }
}
