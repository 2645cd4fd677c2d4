/** What a caller of `list_sessions` sees of a login, and what the session id in the listing is good for. */
module SessionListing {
  import opened Cbor
  import opened SessionSpec
  import opened SessionLaws
  import opened SessionRuns
  import opened SessionMeaning
  import opened SessionStores

  /** No other session's token begins with the same 16 characters. */
  ghost predicate OnlyPrefix(rows: seq<Row>, token: string) {
    forall r :: r in rows && r.token != token && |r.token| >= 16 && |token| >= 16 ==> r.token[..16] != token[..16]
  }

  ghost predicate LongTokens(rows: seq<Row>) { forall r :: r in rows ==> |r.token| >= 16 }

  /** A session is named by the first row whose token begins with the id. */
  lemma {:induction false} NamedFirst(rows: seq<Row>, row: Row, sid: string)
    requires DistinctTokens(rows) && row in rows && LongTokens(rows) && sid == row.token[..16]
    requires OnlyPrefix(rows, row.token)
    ensures FirstWithId(rows, sid) == Some(row)
  {
    if rows[0] == row {
    } else {
      var i :| 0 <= i < |rows| && rows[i] == row;
      assert row in rows[1..] && rows[0] in rows && rows[0].token != rows[i].token;
      assert forall r :: r in rows[1..] ==> r in rows;
      NamedFirst(rows[1..], row, sid);
    }
  }

  lemma {:induction false} ListedOnce(result: seq<Listing>, rows: set<Row>, did: string, row: Row) returns (i: nat)
    requires Lists(result, rows, did) && row in rows
    ensures i < |result| && IsListingOf(result[i], row, did)
  {
    var order: seq<Row> :| ListsInOrder(result, order, did) && Enumerates(order, rows);
    assert row in order;
    i :| 0 <= i < |order| && order[i] == row;
  }

  /** The last row is named by its id only if no other has that id. */
  lemma {:induction false} NamedLast(rows: seq<Row>, row: Row, sid: string)
    requires rows != [] && rows[|rows| - 1] == row && DistinctTokens(rows) && FirstWithId(rows, sid) == Some(row)
    ensures forall r :: r in rows && r != row ==> SessionId(r.token) != sid
  {
    if |rows| == 1 {
    } else {
      assert rows[0].token != rows[|rows| - 1].token;
      NamedLast(rows[1..], row, sid);
      assert rows == [rows[0]] + rows[1..];
    }
  }

  /** Both stores: an entry with the times of the session, its JWT, and the first 16 characters of its token. */
  ghost predicate ShowsLogin(l: Listing, e: Event, now: int, cfg: Config)
    requires e.LoginComplete? && |e.token| >= 16
  {
    && l.did == e.did && l.issuedAt == now && l.expiresAt == now + cfg.refreshLifetime && l.lastJti == e.jti
    && l.sessionId == e.token[..16]
  }

  /** After a login at second `now`, and until the session expires, the listing of its DID shows it. */
  lemma {:induction false} LoginIsListed(
      q: SqlState, p: Past, e: Event, now: int, cfg: Config, later: int, result: seq<Listing>)
    returns (i: nat)
    requires SqlInv(q, p, now, cfg) && Fresh(e, p) && e.LoginComplete? && CanLogIn(q, e, now)
    requires later < now + cfg.refreshLifetime && |e.token| >= 16
    requires Lists(result, SqlListed(SqlStep(q, e, now, cfg).0, e.did, later), e.did)
    ensures i < |result| && ShowsLogin(result[i], e, now, cfg)
  {
    var q' := SqlStep(q, e, now, cfg).0;
    var row := LoginRow(q, p, e, now, cfg);
    i := ListedOnce(result, SqlListed(q', e.did, later), e.did, row);
    assert result[i].sessionId == e.token[..16];
  }

  /** And on the in-memory store, where it shows to the last second. */
  lemma {:induction false} LoginIsListedInMemory(
      m: MemState, p: Past, e: Event, now: int, cfg: Config, later: int, result: seq<Listing>)
    returns (i: nat)
    requires MemInv(m, p, now, cfg) && Fresh(e, p) && e.LoginComplete? && MemStep(m, e, now, cfg).1.LoggedIn?
    requires now <= later <= now + cfg.refreshLifetime && |e.token| >= 16
    requires Lists(result, MemListed(MemStep(m, e, now, cfg).0, e.did, later), e.did)
    ensures i < |result| && ShowsLogin(result[i], e, now, cfg)
  {
    var m' := MemStep(m, e, now, cfg).0;
    var row := Row(e.token, e.did, now, now + cfg.refreshLifetime, e.jti);
    MemStepInv(m, e, p, now, cfg);
    RowIsLast(m.tokens, row.(lastJti := ""), e.jti);
    assert row in m'.tokens;
    ListIsExact(m', e.did, later);
    i := ListedOnce(result, MemListed(m', e.did, later), e.did, row);
    assert result[i].sessionId == e.token[..16];
  }

  lemma {:induction false} RowIsLast(rows: seq<Row>, row: Row, jti: string)
    ensures var after := SetJti(rows + [row], row.token, jti);
      && |after| == |rows| + 1 && after[|rows|] == row.(lastJti := jti)
      && forall i :: 0 <= i < |rows| ==> after[i].token == rows[i].token
  {
    SetJtiElements(rows + [row], row.token, jti);
  }

  /** The id in the listing, given to `revoke_session`, ends that session and no other, exactly if no other
      session's token begins with the same 16 characters. */
  lemma {:induction false} ListedIdRevokes(q: SqlState, p: Past, e: Event, now: int, cfg: Config, later: int)
    requires SqlInv(q, p, now, cfg) && Fresh(e, p) && e.LoginComplete? && CanLogIn(q, e, now)
    requires |e.token| >= 16 && LongTokens(q.tokens)
    ensures var q' := SqlStep(q, e, now, cfg).0;
      var ended := SqlRevokeSession(q', e.token[..16], later, cfg.sessionLifetime);
      (forall r :: r in ended.tokens <==> r in q'.tokens && r.token != e.token) <==> OnlyPrefix(q.tokens, e.token)
  {
    var row := LoginRowIsLast(q, p, e, now, cfg);
    EndsOnlyIff(SqlStep(q, e, now, cfg).0.tokens, row, e.token[..16]);
  }

  lemma {:induction false} LoginRowIsLast(q: SqlState, p: Past, e: Event, now: int, cfg: Config) returns (row: Row)
    requires SqlInv(q, p, now, cfg) && Fresh(e, p) && e.LoginComplete? && CanLogIn(q, e, now)
    requires |e.token| >= 16 && LongTokens(q.tokens)
    ensures var rows := SqlStep(q, e, now, cfg).0.tokens;
      && rows != [] && rows[|rows| - 1] == row && row.token == e.token
      && DistinctTokens(rows) && LongTokens(rows) && (OnlyPrefix(rows, e.token) <==> OnlyPrefix(q.tokens, e.token))
  {
    row := LoginRow(q, p, e, now, cfg);
    SqlStepInv(q, e, p, now, cfg);
    RowIsLast(q.tokens, row.(lastJti := ""), e.jti);
    OnlyPrefixAfter(q.tokens, SqlStep(q, e, now, cfg).0.tokens, e.token);
  }

  lemma {:induction false} EndsOnlyIff(rows: seq<Row>, row: Row, sid: string)
    requires DistinctTokens(rows) && rows != [] && rows[|rows| - 1] == row && LongTokens(rows) && sid == row.token[..16]
    ensures FirstWithId(rows, sid).Some?
    ensures (forall r :: r in Without(rows, FirstWithId(rows, sid).value.token) <==> r in rows && r.token != row.token) <==>
      OnlyPrefix(rows, row.token)
  {
    NamedIff(rows, row, sid);
    WithoutElements(rows, FirstWithId(rows, sid).value.token);
  }

  lemma {:induction false} NamedIff(rows: seq<Row>, row: Row, sid: string)
    requires DistinctTokens(rows) && rows != [] && rows[|rows| - 1] == row && LongTokens(rows) && sid == row.token[..16]
    ensures FirstWithId(rows, sid).Some?
    ensures FirstWithId(rows, sid) == Some(row) <==> OnlyPrefix(rows, row.token)
    ensures FirstWithId(rows, sid) != Some(row) ==> FirstWithId(rows, sid).value.token != row.token
  {
    NamedSome(rows, row, sid);
    if OnlyPrefix(rows, row.token) { NamedFirst(rows, row, sid); }
    if FirstWithId(rows, sid) == Some(row) { NamedLast(rows, row, sid); }
    if FirstWithId(rows, sid).value.token == row.token {
      FindOnly(rows, row);
      FindOnly(rows, FirstWithId(rows, sid).value);
    }
  }

  lemma {:induction false} OnlyPrefixAfter(before: seq<Row>, after: seq<Row>, token: string)
    requires |after| == |before| + 1 && after[|before|].token == token && LongTokens(before) && |token| >= 16
    requires forall i :: 0 <= i < |before| ==> after[i].token == before[i].token
    ensures OnlyPrefix(after, token) <==> OnlyPrefix(before, token)
    ensures LongTokens(after)
  {
    if OnlyPrefix(after, token) {
      forall r | r in before && r.token != token ensures r.token[..16] != token[..16] {
        var i :| 0 <= i < |before| && before[i] == r;
        assert after[i] in after;
      }
    }
  }
}
