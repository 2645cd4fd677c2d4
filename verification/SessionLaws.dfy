/** Laws of the session stores' rows and of the lazily cleaned index, and the invariants that whole
    runs keep. */
module SessionLaws {
  import opened Cbor
  import opened SessionSpec

  // ----- rows

  ghost predicate DistinctTokens(rows: seq<Row>) {
    forall i, j :: 0 <= i < j < |rows| ==> rows[i].token != rows[j].token
  }

  lemma {:induction false} LiveElements(rows: seq<Row>, now: int)
    ensures forall r :: r in Live(rows, now) <==> r in rows && now <= r.expiresAt
  {
    if rows == [] {
    } else {
      LiveElements(rows[1..], now);
      assert rows == [rows[0]] + rows[1..];
    }
  }

  lemma {:induction false} WithoutElements(rows: seq<Row>, token: string)
    ensures forall r :: r in Without(rows, token) <==> r in rows && r.token != token
  {
    if rows == [] {
    } else {
      WithoutElements(rows[1..], token);
      assert rows == [rows[0]] + rows[1..];
    }
  }

  lemma {:induction false} SetJtiElements(rows: seq<Row>, token: string, jti: string)
    ensures |SetJti(rows, token, jti)| == |rows|
    ensures forall i :: 0 <= i < |rows| ==>
      SetJti(rows, token, jti)[i] == if rows[i].token == token then rows[i].(lastJti := jti) else rows[i]
  {
    if rows == [] {
    } else {
      SetJtiElements(rows[1..], token, jti);
    }
  }

  lemma {:induction false} FindIff(rows: seq<Row>, token: string)
    ensures Find(rows, token).None? <==> forall r :: r in rows ==> r.token != token
  {
    if rows == [] {
    } else {
      FindIff(rows[1..], token);
      assert rows == [rows[0]] + rows[1..];
    }
  }

  lemma {:induction false} FindOnly(rows: seq<Row>, r: Row)
    requires DistinctTokens(rows) && r in rows
    ensures Find(rows, r.token) == Some(r)
  {
    if rows[0] == r {
    } else {
      var i :| 0 <= i < |rows| && rows[i] == r;
      assert rows[0].token != rows[i].token;
      assert r in rows[1..];
      FindOnly(rows[1..], r);
    }
  }

  lemma {:induction false} Cons(r: Row, rows: seq<Row>)
    ensures ([r] + rows)[1..] == rows && ([r] + rows)[0] == r
  {
  }

  lemma {:induction false} NothingBefore(rows: seq<Row>)
    ensures [] + rows == rows
  {
  }

  /** Every operation on the rows can be done before or after dropping the expired ones. */
  lemma {:induction false} LiveWithout(rows: seq<Row>, token: string, now: int)
    ensures Live(Without(rows, token), now) == Without(Live(rows, now), token)
  {
    if rows == [] {
    } else {
      var r, rest := rows[0], rows[1..];
      LiveWithout(rest, token, now);
      Cons(r, Without(rest, token));
      Cons(r, Live(rest, now));
      NothingBefore(Live(rest, now));
      NothingBefore(Live(Without(rest, token), now));
    }
  }

  lemma {:induction false} LiveSetJti(rows: seq<Row>, token: string, jti: string, now: int)
    ensures Live(SetJti(rows, token, jti), now) == SetJti(Live(rows, now), token, jti)
  {
    if rows == [] {
    } else {
      var r, rest := rows[0], rows[1..];
      LiveSetJti(rest, token, jti, now);
      Cons(if r.token == token then r.(lastJti := jti) else r, SetJti(rest, token, jti));
      Cons(r, Live(rest, now));
      NothingBefore(Live(rest, now));
      NothingBefore(Live(SetJti(rest, token, jti), now));
    }
  }

  lemma {:induction false} LiveAppend(rows: seq<Row>, r: Row, now: int)
    ensures Live(rows + [r], now) == Live(rows, now) + Live([r], now)
  {
    if rows == [] {
      assert rows + [r] == [r];
    } else {
      LiveAppend(rows[1..], r, now);
      assert (rows + [r])[1..] == rows[1..] + [r];
    }
  }

  lemma {:induction false} LiveTwice(rows: seq<Row>, now: int, later: int)
    requires now <= later
    ensures Live(Live(rows, now), later) == Live(rows, later)
  {
    if rows == [] {
    } else {
      var rest := rows[1..];
      LiveTwice(rest, now, later);
      Cons(rows[0], Live(rest, now));
      NothingBefore(Live(rest, now));
      NothingBefore(Live(rest, later));
    }
  }

  lemma {:induction false} FindLive(rows: seq<Row>, token: string, now: int)
    requires DistinctTokens(rows)
    ensures Find(Live(rows, now), token) ==
      if Find(rows, token).Some? && now <= Find(rows, token).value.expiresAt then Find(rows, token) else None
  {
    LiveElements(rows, now);
    LiveDistinct(rows, now);
    var live := Live(rows, now);
    if Find(live, token).Some? {
      FindOnly(rows, Find(live, token).value);
    } else {
      FindIff(live, token);
    }
  }

  lemma {:induction false} FirstLive(rows: seq<Row>, sid: string, now: int)
    requires forall r :: r in rows && SessionId(r.token) == sid ==> now <= r.expiresAt
    ensures FirstWithId(Live(rows, now), sid) == FirstWithId(rows, sid)
  {
    if rows == [] {
    } else {
      var rest := rows[1..];
      assert rows[0] in rows;
      forall r | r in rest ensures r in rows {}
      FirstLive(rest, sid, now);
      Cons(rows[0], Live(rest, now));
      NothingBefore(Live(rest, now));
    }
  }

  lemma {:induction false} WithoutDistinct(rows: seq<Row>, token: string)
    requires DistinctTokens(rows)
    ensures DistinctTokens(Without(rows, token))
  {
    if rows == [] {
    } else {
      WithoutDistinct(rows[1..], token);
      WithoutElements(rows[1..], token);
      ConsDistinct(rows, Without(rows[1..], token));
    }
  }

  lemma {:induction false} LiveDistinct(rows: seq<Row>, now: int)
    requires DistinctTokens(rows)
    ensures DistinctTokens(Live(rows, now))
  {
    if rows == [] {
    } else {
      LiveDistinct(rows[1..], now);
      LiveElements(rows[1..], now);
      ConsDistinct(rows, Live(rows[1..], now));
    }
  }

  lemma {:induction false} ConsDistinct(rows: seq<Row>, kept: seq<Row>)
    requires rows != [] && DistinctTokens(rows) && DistinctTokens(kept)
    requires forall r :: r in kept ==> r in rows[1..]
    ensures DistinctTokens([rows[0]] + kept)
  {
    forall j | 0 <= j < |kept| ensures rows[0].token != kept[j].token {
      assert kept[j] in rows[1..];
      var i :| 0 <= i < |rows[1..]| && rows[1..][i] == kept[j];
      assert rows[0].token != rows[i + 1].token;
    }
  }

  lemma {:induction false} SetJtiDistinct(rows: seq<Row>, token: string, jti: string)
    requires DistinctTokens(rows)
    ensures DistinctTokens(SetJti(rows, token, jti))
  {
    SetJtiElements(rows, token, jti);
  }

  // ----- what is known of a run so far

  /** The JWT ids issued so far with their expiry, the refresh token of the session that each was
      issued for, and all challenges and tokens ever drawn. */
  datatype Past = Past(issued: map<string, int>, owner: map<string, string>, used: set<string>)

  const NOTHING := Past(map[], map[], {})

  /** The random generator never repeats itself, and an empty id is never drawn. */
  ghost predicate Fresh(e: Event, p: Past) {
    match e
    case LoginStart(_, _, _, _, c) => c !in p.used
    case LoginComplete(_, _, _, _, token, jti) => token !in p.used && jti !in p.issued && jti != ""
    case Refresh(_, _, jti) => jti !in p.issued && jti != ""
    case _ => true
  }

  function Remember(p: Past, e: Event, a: Answer): Past {
    match (e, a)
    case (LoginStart(_, _, _, _, c), _) => p.(used := p.used + {c})
    case (LoginComplete(_, _, _, _, token, jti), LoggedIn(_, _, _, exp, _)) =>
      Past(p.issued[jti := exp], p.owner[jti := token], p.used + {token})
    case (LoginComplete(_, _, _, _, token, _), _) => p.(used := p.used + {token})
    case (Refresh(token, _, jti), Refreshed(_, _, exp)) =>
      p.(issued := p.issued[jti := exp], owner := p.owner[jti := token])
    case _ => p
  }

  /** Tokens are distinct and known, and the latest JWT of a session expires within a lifetime. */
  ghost predicate RowsInv(rows: seq<Row>, p: Past, now: int, cfg: Config) {
    && DistinctTokens(rows)
    && (forall r :: r in rows ==> r.token in p.used)
    && (forall r :: r in rows ==> JtiKnown(r.lastJti, p, now + cfg.sessionLifetime))
  }

  ghost predicate JtiKnown(jti: string, p: Past, latest: int) {
    jti == "" || (jti in p.issued && p.issued[jti] <= latest)
  }

  lemma {:induction false} RowsWithout(rows: seq<Row>, token: string, p: Past, now: int, cfg: Config)
    requires RowsInv(rows, p, now, cfg)
    ensures RowsInv(Without(rows, token), p, now, cfg)
  {
    WithoutDistinct(rows, token);
    WithoutElements(rows, token);
  }

  lemma {:induction false} RowsLive(rows: seq<Row>, at: int, p: Past, now: int, cfg: Config)
    requires RowsInv(rows, p, now, cfg)
    ensures RowsInv(Live(rows, at), p, now, cfg)
  {
    LiveDistinct(rows, at);
    LiveElements(rows, at);
  }

  /** Issuing a JWT for a session. */
  lemma {:induction false} RowsSetJti(rows: seq<Row>, token: string, jti: string, p: Past, now: int, cfg: Config)
    requires RowsInv(rows, p, now, cfg) && jti !in p.issued && jti != ""
    ensures RowsInv(SetJti(rows, token, jti), p.(issued := p.issued[jti := now + cfg.sessionLifetime]), now, cfg)
  {
    SetJtiDistinct(rows, token, jti);
    SetJtiElements(rows, token, jti);
    var after := SetJti(rows, token, jti);
    var p' := p.(issued := p.issued[jti := now + cfg.sessionLifetime]);
    forall r | r in after
      ensures r.token in p'.used && JtiKnown(r.lastJti, p', now + cfg.sessionLifetime)
    {
      var i :| 0 <= i < |after| && after[i] == r;
      assert rows[i] in rows;
    }
  }

  lemma {:induction false} RowsAppend(rows: seq<Row>, r: Row, p: Past, now: int, cfg: Config)
    requires RowsInv(rows, p, now, cfg) && r.token !in p.used && r.lastJti == ""
    ensures RowsInv(rows + [r], p.(used := p.used + {r.token}), now, cfg)
  {
    forall i | 0 <= i < |rows| ensures rows[i].token != r.token { assert rows[i] in rows; }
  }

  // ----- the in-memory index

  /** Each DID's index holds only tokens of that DID, and whatever token of the DID it omits has
      expired. */
  ghost predicate IndexInv(s: MemState, now: int) {
    && (forall did, t :: did in s.byDid && t in s.byDid[did] ==>
          Find(s.tokens, t).Some? && Find(s.tokens, t).value.did == did)
    && (forall r :: r in s.tokens && now <= r.expiresAt ==> r.token in Index(s.byDid, r.did))
  }

  ghost predicate MemInv(s: MemState, p: Past, now: int, cfg: Config) {
    && RowsInv(s.tokens, p, now, cfg)
    && IndexInv(s, now)
    && (forall j :: j in s.blocklist ==> j in p.issued)
    && (forall c :: c in s.challenges ==> c in p.used)
  }

  lemma {:induction false} IndexWithout(s: MemState, token: string, now: int)
    requires DistinctTokens(s.tokens) && IndexInv(s, now)
    ensures IndexInv(MemRevokeRefresh(s, token), now)
  {
    var s' := MemRevokeRefresh(s, token);
    WithoutElements(s.tokens, token);
    if Find(s.tokens, token).Some? {
      WithoutDistinct(s.tokens, token);
      forall did, t | did in s'.byDid && t in s'.byDid[did]
        ensures Find(s'.tokens, t).Some? && Find(s'.tokens, t).value.did == did
      {
        assert t in s.byDid[did];
        var r := Find(s.tokens, t).value;
        assert r in s'.tokens;
        FindOnly(s'.tokens, r);
      }
    }
  }

  lemma {:induction false} IndexSetJti(s: MemState, token: string, jti: string, now: int)
    requires IndexInv(s, now) && DistinctTokens(s.tokens)
    ensures IndexInv(MemIssueSession(s, token, jti), now)
  {
    var s' := MemIssueSession(s, token, jti);
    SetJtiElements(s.tokens, token, jti);
    SetJtiDistinct(s.tokens, token, jti);
    forall did, t | did in s'.byDid && t in s'.byDid[did]
      ensures Find(s'.tokens, t).Some? && Find(s'.tokens, t).value.did == did
    {
      var r := Find(s.tokens, t).value;
      var i :| 0 <= i < |s.tokens| && s.tokens[i] == r;
      assert s'.tokens[i] in s'.tokens;
      FindOnly(s'.tokens, s'.tokens[i]);
    }
    forall r | r in s'.tokens && now <= r.expiresAt ensures r.token in Index(s'.byDid, r.did) {
      var i :| 0 <= i < |s'.tokens| && s'.tokens[i] == r;
      assert s.tokens[i] in s.tokens;
    }
  }

  lemma {:induction false} IndexIssue(s: MemState, did: string, token: string, now: int, lifetime: int)
    requires IndexInv(s, now) && DistinctTokens(s.tokens) && Find(s.tokens, token).None?
    ensures IndexInv(MemIssueRefresh(s, did, token, now, lifetime), now)
  {
    var s' := MemIssueRefresh(s, did, token, now, lifetime);
    var row := Row(token, did, now, now + lifetime, "");
    FindIff(s.tokens, token);
    forall i | 0 <= i < |s.tokens| ensures s.tokens[i].token != token { assert s.tokens[i] in s.tokens; }
    assert DistinctTokens(s'.tokens);
    forall d, t | d in s'.byDid && t in s'.byDid[d]
      ensures Find(s'.tokens, t).Some? && Find(s'.tokens, t).value.did == d
    {
      if t == token {
        assert row in s'.tokens;
        FindOnly(s'.tokens, row);
      } else {
        assert t in s.byDid[d];
        FindOnly(s'.tokens, Find(s.tokens, t).value);
      }
    }
  }

  /** `list_sessions` returns exactly the DID's unexpired tokens, although it drops tokens from the
      index while it goes through them, and leaves the index in order. */
  lemma {:induction false} ListIsExact(s: MemState, did: string, now: int)
    requires IndexInv(s, now) && DistinctTokens(s.tokens)
    ensures MemListed(s, did, now) == set r | r in s.tokens && r.did == did && now <= r.expiresAt
    ensures IndexInv(MemList(s, did, now), now)
  {
    forall r | r in s.tokens && r.did == did && now <= r.expiresAt ensures r in MemListed(s, did, now) {
      FindOnly(s.tokens, r);
      assert r.token in Index(s.byDid, did) && ListedAt(s.tokens, r.token, now);
    }
    forall r | r in s.tokens && now <= r.expiresAt ensures r.token in Index(MemList(s, did, now).byDid, r.did) {
      FindOnly(s.tokens, r);
    }
  }

  // ----- invariants of the stores

  ghost predicate SqlInv(s: SqlState, p: Past, now: int, cfg: Config) {
    && RowsInv(s.tokens, p, now, cfg)
    && (forall j :: j in s.blocklist ==> j in p.issued && p.issued[j] <= s.blocklist[j].originalExp)
    && (forall c :: c in s.challenges ==> c in p.used)
  }
}
