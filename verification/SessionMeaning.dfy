/** What the session endpoints promise their callers, stated for the SQLite store; the in-memory
    store gives the same answers. */
module SessionMeaning {
  import opened Cbor
  import opened SessionSpec
  import opened SessionLaws
  import opened SessionRuns
  import opened SessionDurable

  /** A login succeeds exactly with an unexpired challenge that was issued for that DID, an assertion
      that checks against the key of the challenge, and an active DID. The challenge is spent
      whatever comes of it, and a failed login issues nothing. */
  lemma {:induction false} LoginIff(q: SqlState, e: Event, now: int, cfg: Config)
    requires e.LoginComplete?
    ensures var (q', a) := SqlStep(q, e, now, cfg);
      && (a.LoggedIn? <==> CanLogIn(q, e, now))
      && e.challenge !in q'.challenges
      && (!a.LoggedIn? ==> a.Unauthorized? && q'.tokens == q.tokens && q'.blocklist == q.blocklist)
  {
  }

  ghost predicate CanLogIn(q: SqlState, e: Event, now: int)
    requires e.LoginComplete?
  {
    && e.challenge in q.challenges && now <= q.challenges[e.challenge].expiresAt
    && q.challenges[e.challenge].did == e.did && e.accepts(q.challenges[e.challenge]) && e.active(e.did)
  }

  /** The challenge `c` after the call `t`: created, spent, or as it was. */
  function OfferAfter(o: Option<Challenge>, t: Timed, c: string): Option<Challenge> {
    match t.e
    case LoginStart(did, cred, key, alg, drawn) =>
      if drawn == c then Some(Challenge(did, cred, key, alg, t.now, t.now + 60)) else o
    case LoginComplete(sent, _, _, _, _, _) => if sent == c then None else o
    case _ => o
  }

  /** What the calls of a run make of it, whatever the store does. */
  function Offer(o: Option<Challenge>, steps: seq<Timed>, c: string): Option<Challenge>
    decreases |steps|
  {
    if steps == [] then o else Offer(OfferAfter(o, steps[0], c), steps[1..], c)
  }

  /** From `now` on the store gives out exactly the offer, until it expires. */
  ghost predicate OnOffer(q: SqlState, c: string, o: Option<Challenge>, now: int) {
    forall t :: now <= t ==> Consumed(q.challenges, c, t) == Unexpired(o, t)
  }

  function Unexpired(o: Option<Challenge>, now: int): Option<Challenge> {
    if o.Some? && now <= o.value.expiresAt then o else None
  }

  lemma {:induction false} OfferStep(q: SqlState, c: string, o: Option<Challenge>, now: int, t: Timed, cfg: Config)
    requires OnOffer(q, c, o, now) && now <= t.now
    ensures OnOffer(SqlStep(q, t.e, t.now, cfg).0, c, OfferAfter(o, t, c), t.now)
  {
    var q' := SqlStep(q, t.e, t.now, cfg).0;
    forall later | t.now <= later ensures Consumed(q'.challenges, c, later) == Unexpired(OfferAfter(o, t, c), later) {
      assert Consumed(q.challenges, c, later) == Unexpired(o, later);
    }
  }

  lemma {:induction false} OfferRun(
      q: SqlState, p: Past, now: int, steps: seq<Timed>, cfg: Config, c: string, o: Option<Challenge>)
    requires OnOffer(q, c, o, now) && SqlRunFresh(q, p, now, steps, cfg)
    ensures OnOffer(SqlRun(q, steps, cfg).0, c, Offer(o, steps, c), EndOf(now, steps))
    decreases |steps|
  {
    if steps == [] {
    } else {
      var Timed(t, e) := steps[0];
      var (q', a) := SqlStep(q, e, t, cfg);
      OfferStep(q, c, o, now, steps[0], cfg);
      OfferRun(q', Remember(p, e, a), t, steps[1..], cfg, c, OfferAfter(o, steps[0], c));
    }
  }

  /** In every run from the empty database, restarts included, a login succeeds exactly if the last call
      that named its challenge created it, for that DID and at most 60 seconds ago, the assertion checks
      against the key of that call, and the DID is active. */
  lemma {:induction false} LoginInRunIff(start: int, before: seq<Timed>, e: Event, now: int, cfg: Config)
    requires e.LoginComplete? && SqlRunFresh(EMPTY_SQL, NOTHING, start, before, cfg) && EndOf(start, before) <= now
    ensures var offer := Offer(None, before, e.challenge);
      var a := SqlStep(SqlRun(EMPTY_SQL, before, cfg).0, e, now, cfg).1;
      && (a.LoggedIn? <==> offer.Some? && now <= offer.value.issuedAt + 60 && Accepted(e, offer.value))
      && (a.LoggedIn? ==> a == LoggedIn(e.did, e.token, e.jti, now + cfg.sessionLifetime, now + cfg.refreshLifetime))
      && (a == Unauthorized("Challenge expired or not found") <==> offer.None? || now > offer.value.issuedAt + 60)
      && (a == Unauthorized("DID mismatch") <==>
            offer.Some? && now <= offer.value.issuedAt + 60 && offer.value.did != e.did)
      && (a == Unauthorized("Assertion signature verification failed") <==>
            offer.Some? && now <= offer.value.issuedAt + 60 && offer.value.did == e.did && !e.accepts(offer.value))
      && (a == Unauthorized("DID not active in trust bundle") <==>
            offer.Some? && now <= offer.value.issuedAt + 60 && offer.value.did == e.did && e.accepts(offer.value) &&
            !e.active(e.did))
  {
    OfferRun(EMPTY_SQL, NOTHING, start, before, cfg, e.challenge, None);
    OfferLasts(None, before, e.challenge);
    LoginTable(SqlRun(EMPTY_SQL, before, cfg).0, e, now, cfg);
  }

  ghost predicate Accepted(e: Event, offer: Challenge)
    requires e.LoginComplete?
  {
    offer.did == e.did && e.accepts(offer) && e.active(e.did)
  }

  /** The answers of a login, by what the store gives out for its challenge. */
  lemma {:induction false} LoginTable(q: SqlState, e: Event, now: int, cfg: Config)
    requires e.LoginComplete?
    ensures var entry := Consumed(q.challenges, e.challenge, now);
      var a := SqlStep(q, e, now, cfg).1;
      && (a == Unauthorized("Challenge expired or not found") <==> entry.None?)
      && (a == Unauthorized("DID mismatch") <==> entry.Some? && entry.value.did != e.did)
      && (a == Unauthorized("Assertion signature verification failed") <==>
            entry.Some? && entry.value.did == e.did && !e.accepts(entry.value))
      && (a == Unauthorized("DID not active in trust bundle") <==>
            entry.Some? && entry.value.did == e.did && e.accepts(entry.value) && !e.active(e.did))
      && (a.LoggedIn? <==> entry.Some? && Accepted(e, entry.value))
      && (a.LoggedIn? ==> a == LoggedIn(e.did, e.token, e.jti, now + cfg.sessionLifetime, now + cfg.refreshLifetime))
  {
    assert NO_CHALLENGE[0] == 'C' && INACTIVE[3] == ' ' && INACTIVE[4] == 'n' && "DID mismatch"[4] == 'm';
  }

  lemma {:induction false} OfferLasts(o: Option<Challenge>, steps: seq<Timed>, c: string)
    requires o.Some? ==> o.value.expiresAt == o.value.issuedAt + 60
    ensures Offer(o, steps, c).Some? ==> Offer(o, steps, c).value.expiresAt == Offer(o, steps, c).value.issuedAt + 60
    decreases |steps|
  {
    if steps == [] {
    } else {
      OfferLasts(OfferAfter(o, steps[0], c), steps[1..], c);
    }
  }

  /** The row that a login adds. */
  lemma {:induction false} LoginRow(q: SqlState, p: Past, e: Event, now: int, cfg: Config) returns (row: Row)
    requires SqlInv(q, p, now, cfg) && Fresh(e, p) && e.LoginComplete? && CanLogIn(q, e, now)
    ensures row == Row(e.token, e.did, now, now + cfg.refreshLifetime, e.jti)
    ensures Find(SqlStep(q, e, now, cfg).0.tokens, e.token) == Some(row)
    ensures SqlStep(q, e, now, cfg).0.blocklist == q.blocklist
    ensures SqlStep(q, e, now, cfg).1 ==
      LoggedIn(e.did, e.token, e.jti, now + cfg.sessionLifetime, now + cfg.refreshLifetime)
  {
    SqlStepInv(q, e, p, now, cfg);
    row := Row(e.token, e.did, now, now + cfg.refreshLifetime, e.jti);
    var rows := q.tokens + [row.(lastJti := "")];
    SetJtiElements(rows, e.token, e.jti);
    assert SetJti(rows, e.token, e.jti)[|q.tokens|] == row;
    FindOnly(SqlStep(q, e, now, cfg).0.tokens, row);
  }

  /** What a login hands out works: the JWT passes, and the refresh token is good for a new JWT of
      that DID until it expires, and not a second longer. */
  lemma {:induction false} LoginWorks(
      q: SqlState, p: Past, e: Event, now: int, cfg: Config, later: int, active: string -> bool, jti: string)
    requires SqlInv(q, p, now, cfg) && Fresh(e, p) && e.LoginComplete? && CanLogIn(q, e, now)
    ensures var q' := SqlStep(q, e, now, cfg).0;
      && SqlStep(q', CheckToken(e.jti), later, cfg).1 == Fine
      && SqlStep(q', Refresh(e.token, active, jti), later, cfg).1 ==
        if later > now + cfg.refreshLifetime then Unauthorized(NO_REFRESH)
        else if !active(e.did) then Unauthorized(INACTIVE)
        else Refreshed(e.did, jti, later + cfg.sessionLifetime)
  {
    var row := LoginRow(q, p, e, now, cfg);
  }

  /** A refresh is granted exactly for the token of an unexpired session whose DID is active, and refused by
      saying which of the two it lacks. The new JWT becomes the session's latest, and nothing else
      changes. */
  lemma {:induction false} RefreshIff(
      q: SqlState, p: Past, now: int, cfg: Config, token: string, active: string -> bool, jti: string)
    requires SqlInv(q, p, now, cfg)
    ensures var (q', a) := SqlStep(q, Refresh(token, active, jti), now, cfg);
      && (a.Refreshed? <==> exists r :: r in q.tokens && r.token == token && now <= r.expiresAt && active(r.did))
      && (a == Unauthorized("Refresh token not found or expired") <==>
            forall r :: r in q.tokens && r.token == token ==> now > r.expiresAt)
      && (a == Unauthorized("DID not active in trust bundle") <==>
            exists r :: r in q.tokens && r.token == token && now <= r.expiresAt && !active(r.did))
      && (forall r :: r in q.tokens && r.token == token && a.Refreshed? ==>
            a == Refreshed(r.did, jti, now + cfg.sessionLifetime))
      && (!a.Refreshed? ==> q' == q)
      && (a.Refreshed? ==> IsLatest(q, q', token, jti))
  {
    assert NO_REFRESH[0] == 'R' && INACTIVE[0] == 'D';
    FindIff(q.tokens, token);
    forall r | r in q.tokens && r.token == token ensures Find(q.tokens, token) == Some(r) { FindOnly(q.tokens, r); }
    SetJtiElements(q.tokens, token, jti);
  }

  /** `jti` is the latest JWT of that session, and all else is as it was. */
  ghost predicate IsLatest(q: SqlState, q': SqlState, token: string, jti: string) {
    && q'.challenges == q.challenges && q'.blocklist == q.blocklist && |q'.tokens| == |q.tokens|
    && forall i :: 0 <= i < |q.tokens| ==>
         q'.tokens[i] == if q.tokens[i].token == token then q.tokens[i].(lastJti := jti) else q.tokens[i]
  }

  /** A JWT passes unless it is on the block list and that entry still counts. A caller whose JWT does not pass
      may not revoke; one whose JWT does is told if no session has the id; and neither changes anything. */
  lemma {:induction false} RevokeTable(q: SqlState, sid: string, caller: string, now: int, cfg: Config)
    ensures var (q', a) := SqlStep(q, RevokeSession(sid, caller), now, cfg);
      var blocked := caller in q.blocklist && q.blocklist[caller].originalExp > now;
      && (a == Unauthorized("Session has been revoked") <==> blocked)
      && (SqlStep(q, CheckToken(caller), now, cfg) == (q, Unauthorized("Session has been revoked")) <==> blocked)
      && (SqlStep(q, CheckToken(caller), now, cfg) == (q, Fine) <==> !blocked)
      && (a == NotFound <==> !blocked && forall r :: r in q.tokens ==> SessionId(r.token) != sid)
      && (a.Revoked? <==> !blocked && exists r :: r in q.tokens && SessionId(r.token) == sid)
      && (!a.Revoked? ==> q' == q)
  {
    if r :| r in q.tokens && SessionId(r.token) == sid { NamedSome(q.tokens, r, sid); }
  }

  lemma {:induction false} NamedSome(rows: seq<Row>, r: Row, sid: string)
    requires r in rows && SessionId(r.token) == sid
    ensures FirstWithId(rows, sid).Some?
  {
    if rows[0] == r {
    } else {
      assert r in rows[1..];
      NamedSome(rows[1..], r, sid);
    }
  }

  /** What the in-memory store tidies up on the way: a refresh drops an expired session with its index entry,
      and a listing leaves in the DID's index exactly the sessions that it lists. */
  lemma {:induction false} MemoryTidiesUp(
      m: MemState, p: Past, now: int, cfg: Config, token: string, active: string -> bool, jti: string, did: string)
    requires MemInv(m, p, now, cfg)
    ensures var (m', a) := MemStep(m, Refresh(token, active, jti), now, cfg);
      forall r :: r in m.tokens && r.token == token && now > r.expiresAt ==>
        && a == Unauthorized("Refresh token not found or expired")
        && (forall x :: x in m'.tokens <==> x in m.tokens && x.token != token)
        && token !in Index(m'.byDid, r.did)
    ensures var (m', a) := MemStep(m, ListSessions(did), now, cfg);
      && a == Sessions(set r | r in m.tokens && r.did == did && now <= r.expiresAt)
      && m'.tokens == m.tokens && m'.byDid.Keys == m.byDid.Keys
      && (forall t :: t in Index(m'.byDid, did) <==> exists r :: r in m.tokens && IsListed(r, t, did, now))
      && (forall d :: d in m.byDid && d != did ==> m'.byDid[d] == m.byDid[d])
  {
    forall r | r in m.tokens && r.token == token { FindOnly(m.tokens, r); }
    WithoutElements(m.tokens, token);
    ListIsExact(m, did, now);
    IndexAfterListing(m, did, now);
  }

  ghost predicate IsListed(r: Row, token: string, did: string, now: int) {
    r.token == token && r.did == did && now <= r.expiresAt
  }

  lemma {:induction false} IndexAfterListing(m: MemState, did: string, now: int)
    requires IndexInv(m, now) && DistinctTokens(m.tokens)
    ensures forall t :: t in Index(MemList(m, did, now).byDid, did) <==>
      exists r :: r in m.tokens && IsListed(r, t, did, now)
  {
    forall t ensures t in Index(MemList(m, did, now).byDid, did) <==>
      exists r :: r in m.tokens && IsListed(r, t, did, now)
    {
      FindIff(m.tokens, t);
      if r :| r in m.tokens && IsListed(r, t, did, now) { FindOnly(m.tokens, r); }
    }
  }

  /** Opening the database keeps exactly what has not expired before now, in all three tables. */
  lemma {:induction false} RestartKeeps(q: SqlState, now: int, cfg: Config)
    ensures var (q', a) := SqlStep(q, Restart, now, cfg);
      && (forall r :: r in q'.tokens <==> r in q.tokens && now <= r.expiresAt)
      && (forall c :: c in q'.challenges <==> c in q.challenges && now <= q.challenges[c].expiresAt)
      && (forall c :: c in q'.challenges ==> q'.challenges[c] == q.challenges[c])
      && (forall j :: j in q'.blocklist <==> j in q.blocklist && now <= q.blocklist[j].originalExp)
      && (forall j :: j in q'.blocklist ==> q'.blocklist[j] == q.blocklist[j])
  {
    LiveElements(q.tokens, now);
  }

  /** After a logout the refresh token is refused for good, whatever happens in between. */
  lemma {:induction false} LogoutIsFinal(
      q: SqlState, p: Past, now: int, cfg: Config, token: string, steps: seq<Timed>, later: int,
      active: string -> bool, jti: string)
    requires token in p.used && SqlRunFresh(SqlStep(q, Logout(token), now, cfg).0, p, now, steps, cfg)
    ensures var end := SqlRun(SqlStep(q, Logout(token), now, cfg).0, steps, cfg).0;
      SqlStep(end, Refresh(token, active, jti), later, cfg).1 == Unauthorized(NO_REFRESH)
  {
    var q' := SqlStep(q, Logout(token), now, cfg).0;
    WithoutElements(q.tokens, token);
    StaysRevoked(q', p, now, steps, cfg, "", now, token);
    FindIff(SqlRun(q', steps, cfg).0.tokens, token);
  }
}
