/** The two session stores of bff/session.py as state machines. Times are whole seconds; fresh
    tokens and JWT ids are inputs. A JWT stands for its id and its expiry. */
module SessionSpec {
  import opened Cbor

  datatype Challenge = Challenge(
    did: string, credentialId: string, publicKeyHex: string, algorithm: string, issuedAt: int, expiresAt: int)

  /** One refresh token. The in-memory store keeps these in a dictionary, which remembers the
      order of insertion; SQLite scans its rows in that order. */
  datatype Row = Row(token: string, did: string, issuedAt: int, expiresAt: int, lastJti: string)

  datatype Block = Block(addedAt: int, originalExp: int)

  datatype MemState = MemState(
    challenges: map<string, Challenge>,
    tokens: seq<Row>,
    blocklist: set<string>,
    byDid: map<string, set<string>>)

  datatype SqlState = SqlState(
    challenges: map<string, Challenge>,
    tokens: seq<Row>,
    blocklist: map<string, Block>)

  const EMPTY_MEM := MemState(map[], [], {}, map[])
  const EMPTY_SQL := SqlState(map[], [], map[])

  /** The lifetimes, constant over a run. */
  datatype Config = Config(sessionLifetime: int, refreshLifetime: int)

  // ----- rows

  function Find(rows: seq<Row>, token: string): (r: Option<Row>)
    ensures r.Some? ==> r.value in rows && r.value.token == token
  {
    if rows == [] then None
    else if rows[0].token == token then Some(rows[0])
    else Find(rows[1..], token)
  }

  function Without(rows: seq<Row>, token: string): seq<Row> {
    if rows == [] then []
    else if rows[0].token == token then Without(rows[1..], token)
    else [rows[0]] + Without(rows[1..], token)
  }

  function SetJti(rows: seq<Row>, token: string, jti: string): seq<Row> {
    if rows == [] then []
    else [if rows[0].token == token then rows[0].(lastJti := jti) else rows[0]] + SetJti(rows[1..], token, jti)
  }

  /** The rows not yet expired at `now`: those that a restart keeps. */
  function Live(rows: seq<Row>, now: int): seq<Row> {
    if rows == [] then []
    else (if now <= rows[0].expiresAt then [rows[0]] else []) + Live(rows[1..], now)
  }

  function SessionId(token: string): string { if |token| <= 16 then token else token[..16] }

  /** The first row whose token starts with the session id. */
  function FirstWithId(rows: seq<Row>, sid: string): (r: Option<Row>)
    ensures r.Some? ==> r.value in rows && SessionId(r.value.token) == sid
  {
    if rows == [] then None
    else if SessionId(rows[0].token) == sid then Some(rows[0])
    else FirstWithId(rows[1..], sid)
  }

  function LiveChallenges(cs: map<string, Challenge>, now: int): map<string, Challenge> {
    map c | c in cs && now <= cs[c].expiresAt :: cs[c]
  }

  // ----- operations of the in-memory store

  function NewChallenge(did: string, cred: string, key: string, alg: string, now: int): Challenge {
    Challenge(did, cred, key, alg, now, now + 60)
  }

  /** What `consume_challenge` returns in either store. */
  function Consumed(cs: map<string, Challenge>, c: string, now: int): Option<Challenge> {
    if c in cs && now <= cs[c].expiresAt then Some(cs[c]) else None
  }

  function Index(byDid: map<string, set<string>>, did: string): set<string> {
    if did in byDid then byDid[did] else {}
  }

  function MemIssueRefresh(s: MemState, did: string, token: string, now: int, lifetime: int): MemState {
    s.(tokens := s.tokens + [Row(token, did, now, now + lifetime, "")],
       byDid := s.byDid[did := Index(s.byDid, did) + {token}])
  }

  function MemIssueSession(s: MemState, token: string, jti: string): MemState {
    s.(tokens := SetJti(s.tokens, token, jti))
  }

  function MemRevokeRefresh(s: MemState, token: string): MemState {
    match Find(s.tokens, token)
    case None => s
    case Some(row) =>
      s.(tokens := Without(s.tokens, token),
         byDid := if row.did in s.byDid then s.byDid[row.did := s.byDid[row.did] - {token}] else s.byDid)
  }

  predicate ListedAt(rows: seq<Row>, token: string, now: int) {
    Find(rows, token).Some? && now <= Find(rows, token).value.expiresAt
  }

  /** What `list_sessions` returns, before session ids are cut from the tokens. */
  function MemListed(s: MemState, did: string, now: int): set<Row> {
    set t | t in Index(s.byDid, did) && ListedAt(s.tokens, t, now) :: Find(s.tokens, t).value
  }

  /** And what it leaves in the index. */
  function MemList(s: MemState, did: string, now: int): MemState {
    if did in s.byDid then
      s.(byDid := s.byDid[did := set t | t in s.byDid[did] && ListedAt(s.tokens, t, now)])
    else s
  }

  function MemRevokeSession(s: MemState, sid: string): MemState {
    match FirstWithId(s.tokens, sid)
    case None => s
    case Some(row) =>
      MemRevokeRefresh(if row.lastJti == "" then s else s.(blocklist := s.blocklist + {row.lastJti}), row.token)
  }

  // ----- operations of the SQLite store

  function SqlIssueRefresh(s: SqlState, did: string, token: string, now: int, lifetime: int): SqlState {
    s.(tokens := s.tokens + [Row(token, did, now, now + lifetime, "")])
  }

  function SqlIssueSession(s: SqlState, token: string, jti: string): SqlState {
    s.(tokens := SetJti(s.tokens, token, jti))
  }

  function SqlConsumeRefresh(s: SqlState, token: string, now: int): Option<Row> {
    match Find(s.tokens, token)
    case None => None
    case Some(row) => if now > row.expiresAt then None else Some(row)
  }

  function SqlRevokeRefresh(s: SqlState, token: string): SqlState {
    s.(tokens := Without(s.tokens, token))
  }

  predicate SqlIsRevoked(s: SqlState, jti: string, now: int) {
    jti in s.blocklist && s.blocklist[jti].originalExp > now
  }

  function SqlListed(s: SqlState, did: string, now: int): set<Row> {
    set r | r in s.tokens && r.did == did && r.expiresAt > now
  }

  /** `INSERT OR IGNORE` */
  function AddBlock(blocklist: map<string, Block>, jti: string, now: int, lifetime: int): map<string, Block> {
    if jti in blocklist then blocklist else blocklist[jti := Block(now, now + lifetime)]
  }

  function SqlRevokeSession(s: SqlState, sid: string, now: int, lifetime: int): SqlState {
    match FirstWithId(s.tokens, sid)
    case None => s
    case Some(row) =>
      SqlRevokeRefresh(
        if row.lastJti == "" then s else s.(blocklist := AddBlock(s.blocklist, row.lastJti, now, lifetime)),
        row.token)
  }

  /** `_prune_expired`, which runs whenever the store is opened. */
  function SqlRestart(s: SqlState, now: int): SqlState {
    SqlState(LiveChallenges(s.challenges, now), Live(s.tokens, now),
      map j | j in s.blocklist && now <= s.blocklist[j].originalExp :: s.blocklist[j])
  }

  // ----- endpoint handlers (bff/main.py), one atomic step each

  /** The inputs of a handler. `accepts` is the assertion check on the stored challenge, `active`
      the lookup in the trust bundle; `token` and `jti` are what the random generator returns. */
  datatype Event =
    | LoginStart(did: string, cred: string, key: string, alg: string, challenge: string)
    | LoginComplete(challenge: string, did: string, accepts: Challenge -> bool, active: string -> bool,
                    token: string, jti: string)
    | Refresh(token: string, active: string -> bool, jti: string)
    | Logout(token: string)
    | CheckToken(jti: string)
    | ListSessions(did: string)
    | RevokeSession(sid: string, callerJti: string)
    | Restart

  datatype Answer =
    | Challenged(challenge: string)
    | LoggedIn(did: string, token: string, jti: string, exp: int, refreshExp: int)
    | Refreshed(did: string, jti: string, exp: int)
    | Unauthorized(detail: string)
    | NotFound
    | Fine
    | Sessions(rows: set<Row>)
    | Revoked(selfRevoked: bool)

  const NO_CHALLENGE := "Challenge expired or not found"
  const NO_REFRESH := "Refresh token not found or expired"
  const INACTIVE := "DID not active in trust bundle"
  const REVOKED := "Session has been revoked"

  /** The checks of `login_complete` on the consumed challenge, in order; None if all pass. */
  function Rejection(entry: Option<Challenge>, e: Event): Option<Answer>
    requires e.LoginComplete?
  {
    if entry.None? then Some(Unauthorized(NO_CHALLENGE))
    else if entry.value.did != e.did then Some(Unauthorized("DID mismatch"))
    else if !e.accepts(entry.value) then Some(Unauthorized("Assertion signature verification failed"))
    else if !e.active(e.did) then Some(Unauthorized(INACTIVE))
    else None
  }

  function LoginAnswer(entry: Option<Challenge>, e: Event, now: int, cfg: Config): Answer
    requires e.LoginComplete?
  {
    match Rejection(entry, e)
    case Some(a) => a
    case None => LoggedIn(e.did, e.token, e.jti, now + cfg.sessionLifetime, now + cfg.refreshLifetime)
  }

  function MemLogin(s: MemState, e: Event, now: int, cfg: Config): (MemState, Answer)
    requires e.LoginComplete?
  {
    var entry := Consumed(s.challenges, e.challenge, now);
    var s1 := s.(challenges := s.challenges - {e.challenge});
    var a := LoginAnswer(entry, e, now, cfg);
    if a.LoggedIn? then
      (MemIssueSession(MemIssueRefresh(s1, e.did, e.token, now, cfg.refreshLifetime), e.token, e.jti), a)
    else
      (s1, a)
  }

  function SqlLogin(s: SqlState, e: Event, now: int, cfg: Config): (SqlState, Answer)
    requires e.LoginComplete?
  {
    var entry := Consumed(s.challenges, e.challenge, now);
    var s1 := s.(challenges := s.challenges - {e.challenge});
    var a := LoginAnswer(entry, e, now, cfg);
    if a.LoggedIn? then
      (SqlIssueSession(SqlIssueRefresh(s1, e.did, e.token, now, cfg.refreshLifetime), e.token, e.jti), a)
    else
      (s1, a)
  }

  /** The in-memory store returns expired entries, which the handler then drops. */
  function MemRefresh(s: MemState, e: Event, now: int, cfg: Config): (MemState, Answer)
    requires e.Refresh?
  {
    match Find(s.tokens, e.token)
    case None => (s, Unauthorized(NO_REFRESH))
    case Some(row) =>
      if now > row.expiresAt then (MemRevokeRefresh(s, e.token), Unauthorized(NO_REFRESH))
      else if !e.active(row.did) then (s, Unauthorized(INACTIVE))
      else (MemIssueSession(s, e.token, e.jti), Refreshed(row.did, e.jti, now + cfg.sessionLifetime))
  }

  function SqlRefresh(s: SqlState, e: Event, now: int, cfg: Config): (SqlState, Answer)
    requires e.Refresh?
  {
    match SqlConsumeRefresh(s, e.token, now)
    case None => (s, Unauthorized(NO_REFRESH))
    case Some(row) =>
      if !e.active(row.did) then (s, Unauthorized(INACTIVE))
      else (SqlIssueSession(s, e.token, e.jti), Refreshed(row.did, e.jti, now + cfg.sessionLifetime))
  }

  function MemRevoke(s: MemState, e: Event): (MemState, Answer)
    requires e.RevokeSession?
  {
    if e.callerJti in s.blocklist then (s, Unauthorized(REVOKED))
    else if FirstWithId(s.tokens, e.sid).None? then (s, NotFound)
    else
      var s1 := MemRevokeSession(s, e.sid);
      (s1, Revoked(e.callerJti in s1.blocklist))
  }

  function SqlRevoke(s: SqlState, e: Event, now: int, cfg: Config): (SqlState, Answer)
    requires e.RevokeSession?
  {
    if SqlIsRevoked(s, e.callerJti, now) then (s, Unauthorized(REVOKED))
    else if FirstWithId(s.tokens, e.sid).None? then (s, NotFound)
    else
      var s1 := SqlRevokeSession(s, e.sid, now, cfg.sessionLifetime);
      (s1, Revoked(SqlIsRevoked(s1, e.callerJti, now)))
  }

  function MemStep(s: MemState, e: Event, now: int, cfg: Config): (MemState, Answer) {
    match e
    case LoginStart(did, cred, key, alg, c) =>
      (s.(challenges := s.challenges[c := NewChallenge(did, cred, key, alg, now)]), Challenged(c))
    case LoginComplete(_, _, _, _, _, _) => MemLogin(s, e, now, cfg)
    case Refresh(_, _, _) => MemRefresh(s, e, now, cfg)
    case Logout(token) => (MemRevokeRefresh(s, token), Fine)
    case CheckToken(jti) => (s, if jti in s.blocklist then Unauthorized(REVOKED) else Fine)
    case ListSessions(did) => (MemList(s, did, now), Sessions(MemListed(s, did, now)))
    case RevokeSession(_, _) => MemRevoke(s, e)
    case Restart => (s, Fine)
  }

  function SqlStep(s: SqlState, e: Event, now: int, cfg: Config): (SqlState, Answer) {
    match e
    case LoginStart(did, cred, key, alg, c) =>
      (s.(challenges := s.challenges[c := NewChallenge(did, cred, key, alg, now)]), Challenged(c))
    case LoginComplete(_, _, _, _, _, _) => SqlLogin(s, e, now, cfg)
    case Refresh(_, _, _) => SqlRefresh(s, e, now, cfg)
    case Logout(token) => (SqlRevokeRefresh(s, token), Fine)
    case CheckToken(jti) => (s, if SqlIsRevoked(s, jti, now) then Unauthorized(REVOKED) else Fine)
    case ListSessions(did) => (s, Sessions(SqlListed(s, did, now)))
    case RevokeSession(_, _) => SqlRevoke(s, e, now, cfg)
    case Restart => (SqlRestart(s, now), Fine)
  }
}
