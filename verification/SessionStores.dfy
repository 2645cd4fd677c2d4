/** The two stores of bff/session.py as they are written: objects whose methods update their
    dictionaries or table rows in place. Each method is proved against the state machine. The clock
    reading and what the random generator drew are parameters. */
module SessionStores {
  import opened Cbor
  import opened SessionSpec
  import opened SessionLaws

  /** What either store lists of a session: the id is cut from the token. */
  datatype Listing = Listing(sessionId: string, did: string, issuedAt: int, expiresAt: int, lastJti: string)

  /** Tokens are keys, and the generator draws no empty one. */
  ghost predicate Keys(rows: seq<Row>) {
    DistinctTokens(rows) && forall r :: r in rows ==> r.token != ""
  }

  function Unexpired(rows: seq<Row>, did: string, now: int): set<Row> {
    set r | r in rows && r.did == did && now <= r.expiresAt
  }

  /** `result` lists the sessions in `rows`, each once, in some order. */
  ghost predicate Lists(result: seq<Listing>, rows: set<Row>, did: string) {
    exists order: seq<Row> :: ListsInOrder(result, order, did) && Enumerates(order, rows)
  }

  ghost predicate ListsInOrder(result: seq<Listing>, order: seq<Row>, did: string) {
    |result| == |order| && forall i :: 0 <= i < |order| ==> IsListingOf(result[i], order[i], did)
  }

  /** The times and the latest JWT of the session, its DID, and the first 16 characters of its token. */
  ghost predicate IsListingOf(l: Listing, r: Row, did: string) {
    && l.did == did && l.issuedAt == r.issuedAt && l.expiresAt == r.expiresAt && l.lastJti == r.lastJti
    && l.sessionId <= r.token && |l.sessionId| == if |r.token| < 16 then |r.token| else 16
  }

  ghost predicate Enumerates(order: seq<Row>, rows: set<Row>) {
    DistinctTokens(order) && forall r :: r in order <==> r in rows
  }

  lemma {:induction false} KeysWithout(rows: seq<Row>, token: string)
    requires Keys(rows)
    ensures Keys(Without(rows, token))
  {
    WithoutDistinct(rows, token);
    WithoutElements(rows, token);
  }

  lemma {:induction false} KeysSetJti(rows: seq<Row>, token: string, jti: string)
    requires Keys(rows)
    ensures Keys(SetJti(rows, token, jti))
  {
    SetJtiDistinct(rows, token, jti);
    SetJtiElements(rows, token, jti);
    forall r | r in SetJti(rows, token, jti) ensures r.token != "" {
      var i :| 0 <= i < |rows| && SetJti(rows, token, jti)[i] == r;
      assert rows[i] in rows;
    }
  }

  lemma {:induction false} KeysAppend(rows: seq<Row>, r: Row)
    requires Keys(rows) && Find(rows, r.token).None? && r.token != ""
    ensures Keys(rows + [r])
  {
    FindIff(rows, r.token);
    forall i | 0 <= i < |rows| ensures rows[i].token != r.token { assert rows[i] in rows; }
  }

  lemma {:induction false} NobodyToUpdate(rows: seq<Row>, token: string, jti: string)
    requires Find(rows, token).None?
    ensures SetJti(rows, token, jti) == rows
  {
    if rows == [] {
    } else {
      NobodyToUpdate(rows[1..], token, jti);
    }
  }

  lemma {:induction false} NobodyToDrop(rows: seq<Row>, token: string)
    requires Find(rows, token).None?
    ensures Without(rows, token) == rows
  {
    if rows == [] {
    } else {
      NobodyToDrop(rows[1..], token);
    }
  }

  lemma {:induction false} FirstFromHere(rows: seq<Row>, sid: string, i: nat)
    requires i < |rows| && SessionId(rows[i].token) != sid
    ensures FirstWithId(rows[i..], sid) == FirstWithId(rows[i + 1..], sid)
  {
    assert rows[i..][1..] == rows[i + 1..];
  }

  /** The dictionaries in memory. */
  class SessionStore {
    var challenges: map<string, Challenge>
    var tokens: seq<Row>
    var blocklist: set<string>
    var byDid: map<string, set<string>>

    ghost function View(): MemState
      reads this
    {
      MemState(challenges, tokens, blocklist, byDid)
    }

    ghost predicate Valid()
      reads this
    {
      Keys(tokens)
    }

    constructor ()
      ensures Valid() && View() == EMPTY_MEM
    {
      challenges, tokens, blocklist, byDid := map[], [], {}, map[];
    }

    method CreateChallenge(did: string, cred: string, key: string, alg: string, drawn: string, now: int)
        returns (challenge: string)
      requires Valid()
      modifies this
      ensures Valid() && challenge == drawn
      ensures View() == old(View()).(challenges := old(challenges)[drawn := NewChallenge(did, cred, key, alg, now)])
    {
      challenge := drawn;
      challenges := challenges[challenge := Challenge(did, cred, key, alg, now, now + 60)];
    }

    method ConsumeChallenge(challenge: string, now: int) returns (entry: Option<Challenge>)
      requires Valid()
      modifies this
      ensures Valid() && entry == Consumed(old(challenges), challenge, now)
      ensures View() == old(View()).(challenges := old(challenges) - {challenge})
    {
      var found := challenge in challenges;
      entry := if found then Some(challenges[challenge]) else None;
      challenges := challenges - {challenge};
      if !found { return None; }
      if now > entry.value.expiresAt { return None; }
    }

    /** Returns the expiry of the new JWT, whose id is `jti`. */
    method IssueSessionToken(refresh: string, jti: string, now: int, lifetime: int) returns (exp: int)
      requires Valid()
      modifies this
      ensures Valid() && exp == now + lifetime
      ensures View() == MemIssueSession(old(View()), refresh, jti)
    {
      exp := now + lifetime;
      KeysSetJti(tokens, refresh, jti);
      FindIff(tokens, "");
      if refresh != "" && Find(tokens, refresh).Some? {
        tokens := SetJti(tokens, refresh, jti);
      } else {
        NobodyToUpdate(tokens, refresh, jti);
      }
    }

    method IssueRefreshToken(did: string, drawn: string, now: int, lifetime: int) returns (token: string, exp: int)
      requires Valid() && drawn != "" && Find(tokens, drawn).None?
      modifies this
      ensures Valid() && token == drawn && exp == now + lifetime
      ensures View() == MemIssueRefresh(old(View()), did, drawn, now, lifetime)
    {
      token, exp := drawn, now + lifetime;
      KeysAppend(tokens, Row(token, did, now, exp, ""));
      tokens := tokens + [Row(token, did, now, exp, "")];
      if did !in byDid { byDid := byDid[did := {}]; }
      byDid := byDid[did := byDid[did] + {token}];
    }

    /** The entry stays, and an expired one is returned too. */
    method ConsumeRefreshToken(token: string) returns (entry: Option<Row>)
      ensures entry == Find(tokens, token)
    {
      entry := Find(tokens, token);
    }

    method RevokeRefreshToken(token: string)
      requires Valid()
      modifies this
      ensures Valid() && View() == MemRevokeRefresh(old(View()), token)
    {
      KeysWithout(tokens, token);
      NothingIfAbsent(tokens, token);
      var entry := Find(tokens, token);
      tokens := Without(tokens, token);
      if entry.Some? {
        var did := entry.value.did;
        if did in byDid { byDid := byDid[did := byDid[did] - {token}]; }
      }
    }

    method IsJtiRevoked(jti: string) returns (revoked: bool)
      ensures revoked == (jti in blocklist)
    {
      revoked := jti in blocklist;
    }

    /** Goes through a copy of the DID's index, in any order, and drops from the index itself what
        is gone or expired. */
    method ListSessions(did: string, now: int) returns (result: seq<Listing>)
      requires Valid()
      modifies this
      ensures Valid() && View() == MemList(old(View()), did, now)
      ensures Lists(result, MemListed(old(View()), did, now), did)
      ensures old(IndexInv(View(), now)) ==>
        Lists(result, Unexpired(old(tokens), did, now), did)
    {
      ghost var was := View();
      if IndexInv(was, now) { ListIsExact(was, did, now); }
      result := [];
      ghost var order: seq<Row> := [];
      var todo := Index(byDid, did);
      IndexBefore(byDid, did, tokens, now);
      while todo != {}
        invariant tokens == was.tokens && challenges == was.challenges && blocklist == was.blocklist
        invariant todo <= Index(was.byDid, did)
        invariant byDid == IndexDuring(was.byDid, did, todo, tokens, now)
        invariant ListsInOrder(result, order, did)
        invariant DistinctTokens(order)
        invariant forall r :: r in order ==> r.token in Index(was.byDid, did) - todo
        invariant forall r :: r in order <==> r in ListedSoFar(tokens, Index(was.byDid, did) - todo, now)
        decreases |todo|
      {
        var token :| token in todo;
        var entry := Find(tokens, token);
        if entry.None? || now > entry.value.expiresAt {
          byDid := byDid[did := byDid[did] - {token}];
        } else {
          var listing := Describe(token, entry.value, did);
          ListsOneMore(result, order, did, listing, entry.value);
          order := order + [entry.value];
          result := result + [listing];
        }
        IndexNext(was.byDid, did, todo, token, tokens, now);
        assert Index(was.byDid, did) - (todo - {token}) == (Index(was.byDid, did) - todo) + {token};
        todo := todo - {token};
      }
      IndexAfter(was, did, now);
      assert ListedSoFar(tokens, Index(was.byDid, did), now) == MemListed(was, did, now);
      assert Index(was.byDid, did) - todo == Index(was.byDid, did);
      assert Enumerates(order, MemListed(was, did, now));
    }

    method RevokeSession(sid: string) returns (found: bool, token: string)
      requires Valid()
      modifies this
      ensures Valid() && View() == MemRevokeSession(old(View()), sid)
      ensures found == FirstWithId(old(tokens), sid).Some?
      ensures found ==> token == FirstWithId(old(tokens), sid).value.token
    {
      var items := tokens;
      var i := 0;
      while i < |items|
        invariant 0 <= i <= |items|
        invariant View() == old(View()) && Valid()
        invariant FirstWithId(items[i..], sid) == FirstWithId(items, sid)
      {
        if SessionId(items[i].token) == sid {
          if items[i].lastJti != "" { blocklist := blocklist + {items[i].lastJti}; }
          RevokeRefreshToken(items[i].token);
          return true, items[i].token;
        }
        FirstFromHere(items, sid, i);
        i := i + 1;
      }
      return false, "";
    }
  }

  lemma {:induction false} ListsOneMore(result: seq<Listing>, order: seq<Row>, did: string, l: Listing, r: Row)
    requires ListsInOrder(result, order, did) && DistinctTokens(order) && IsListingOf(l, r, did)
    requires forall x :: x in order ==> x.token != r.token
    ensures ListsInOrder(result + [l], order + [r], did) && DistinctTokens(order + [r])
  {
    forall i | 0 <= i < |order| ensures order[i].token != r.token { assert order[i] in order; }
  }

  method Describe(token: string, entry: Row, did: string) returns (l: Listing)
    requires entry.token == token
    ensures IsListingOf(l, entry, did)
  {
    l := Listing(SessionId(token), did, entry.issuedAt, entry.expiresAt, entry.lastJti);
  }

  lemma {:induction false} NothingIfAbsent(rows: seq<Row>, token: string)
    ensures Find(rows, token).None? ==> Without(rows, token) == rows
  {
    if Find(rows, token).None? { NobodyToDrop(rows, token); }
  }

  function ListedSoFar(rows: seq<Row>, done: set<string>, now: int): set<Row> {
    set t | t in done && ListedAt(rows, t, now) :: Find(rows, t).value
  }

  /** The index while `list_sessions` still has the tokens `todo` of `did` to look at. */
  function IndexDuring(byDid: map<string, set<string>>, did: string, todo: set<string>, rows: seq<Row>, now: int)
      : map<string, set<string>> {
    if did in byDid then byDid[did := StillIndexed(byDid[did], todo, rows, now)] else byDid
  }

  function StillIndexed(index: set<string>, todo: set<string>, rows: seq<Row>, now: int): set<string> {
    set t | t in index && (t in todo || ListedAt(rows, t, now))
  }

  lemma {:induction false} IndexBefore(byDid: map<string, set<string>>, did: string, rows: seq<Row>, now: int)
    ensures IndexDuring(byDid, did, Index(byDid, did), rows, now) == byDid
  {
    if did in byDid { assert StillIndexed(byDid[did], byDid[did], rows, now) == byDid[did]; }
  }

  lemma {:induction false} IndexNext(
      byDid: map<string, set<string>>, did: string, todo: set<string>, token: string, rows: seq<Row>, now: int)
    requires todo <= Index(byDid, did) && token in todo
    ensures var before := IndexDuring(byDid, did, todo, rows, now);
      IndexDuring(byDid, did, todo - {token}, rows, now) ==
      if ListedAt(rows, token, now) then before else before[did := before[did] - {token}]
  {
    var index := byDid[did];
    var after := StillIndexed(index, todo - {token}, rows, now);
    if ListedAt(rows, token, now) {
      assert after == StillIndexed(index, todo, rows, now);
    } else {
      assert after == StillIndexed(index, todo, rows, now) - {token};
    }
  }

  lemma {:induction false} IndexAfter(s: MemState, did: string, now: int)
    ensures IndexDuring(s.byDid, did, {}, s.tokens, now) == MemList(s, did, now).byDid
  {
    if did in s.byDid {
      assert StillIndexed(s.byDid[did], {}, s.tokens, now) ==
        set t | t in s.byDid[did] && ListedAt(s.tokens, t, now);
    }
  }

  /** The tables in SQLite. */
  class SqliteSessionStore {
    var challenges: map<string, Challenge>
    var tokens: seq<Row>
    var blocklist: map<string, Block>

    ghost function View(): SqlState
      reads this
    {
      SqlState(challenges, tokens, blocklist)
    }

    ghost predicate Valid()
      reads this
    {
      Keys(tokens)
    }

    /** Opens the database as an earlier process left it, and prunes it. */
    constructor (disk: SqlState, now: int)
      requires Keys(disk.tokens)
      ensures Valid() && View() == SqlRestart(disk, now)
    {
      challenges, tokens, blocklist := disk.challenges, disk.tokens, disk.blocklist;
      new;
      PruneExpired(now);
    }

    method PruneExpired(now: int)
      requires Valid()
      modifies this
      ensures Valid() && View() == SqlRestart(old(View()), now)
    {
      LiveDistinct(tokens, now);
      LiveElements(tokens, now);
      challenges := map c | c in challenges && !(challenges[c].expiresAt < now) :: challenges[c];
      tokens := Live(tokens, now);
      blocklist := map j | j in blocklist && !(blocklist[j].originalExp < now) :: blocklist[j];
    }

    method CreateChallenge(did: string, cred: string, key: string, alg: string, drawn: string, now: int)
        returns (challenge: string)
      requires Valid() && drawn !in challenges
      modifies this
      ensures Valid() && challenge == drawn
      ensures View() == old(View()).(challenges := old(challenges)[drawn := NewChallenge(did, cred, key, alg, now)])
    {
      challenge := drawn;
      challenges := challenges[challenge := Challenge(did, cred, key, alg, now, now + 60)];
    }

    /** The row is deleted whether or not it has expired. */
    method ConsumeChallenge(challenge: string, now: int) returns (entry: Option<Challenge>)
      requires Valid()
      modifies this
      ensures Valid() && entry == Consumed(old(challenges), challenge, now)
      ensures View() == old(View()).(challenges := old(challenges) - {challenge})
    {
      if challenge !in challenges {
        assert challenges - {challenge} == challenges;
        return None;
      }
      var row := challenges[challenge];
      challenges := challenges - {challenge};
      if now > row.expiresAt { return None; }
      return Some(row);
    }

    method IssueSessionToken(refresh: string, jti: string, now: int, lifetime: int) returns (exp: int)
      requires Valid()
      modifies this
      ensures Valid() && exp == now + lifetime
      ensures View() == SqlIssueSession(old(View()), refresh, jti)
    {
      exp := now + lifetime;
      KeysSetJti(tokens, refresh, jti);
      FindIff(tokens, "");
      if refresh != "" {
        tokens := SetJti(tokens, refresh, jti);
      } else {
        NobodyToUpdate(tokens, refresh, jti);
      }
    }

    method IssueRefreshToken(did: string, drawn: string, now: int, lifetime: int) returns (token: string, exp: int)
      requires Valid() && drawn != "" && Find(tokens, drawn).None?
      modifies this
      ensures Valid() && token == drawn && exp == now + lifetime
      ensures View() == SqlIssueRefresh(old(View()), did, drawn, now, lifetime)
    {
      token, exp := drawn, now + lifetime;
      KeysAppend(tokens, Row(token, did, now, exp, ""));
      tokens := tokens + [Row(token, did, now, exp, "")];
    }

    /** The row stays; an expired one is not returned. */
    method ConsumeRefreshToken(token: string, now: int) returns (entry: Option<Row>)
      ensures entry == SqlConsumeRefresh(View(), token, now)
    {
      entry := Find(tokens, token);
      if entry.None? { return None; }
      if now > entry.value.expiresAt { return None; }
    }

    method RevokeRefreshToken(token: string)
      requires Valid()
      modifies this
      ensures Valid() && View() == SqlRevokeRefresh(old(View()), token)
    {
      KeysWithout(tokens, token);
      tokens := Without(tokens, token);
    }

    method IsJtiRevoked(jti: string, now: int) returns (revoked: bool)
      ensures revoked == SqlIsRevoked(View(), jti, now)
    {
      revoked := jti in blocklist && blocklist[jti].originalExp > now;
    }

    method ListSessions(did: string, now: int) returns (result: seq<Listing>)
      requires Valid()
      ensures Lists(result, SqlListed(View(), did, now), did)
    {
      var rows := Selected(tokens, did, now);
      result := seq(|rows|, i requires 0 <= i < |rows| =>
        Listing(SessionId(rows[i].token), did, rows[i].issuedAt, rows[i].expiresAt, rows[i].lastJti));
      SelectedDistinct(tokens, did, now);
      assert ListsInOrder(result, rows, did) && Enumerates(rows, SqlListed(View(), did, now));
    }

    method RevokeSession(sid: string, now: int, lifetime: int) returns (found: bool, token: string)
      requires Valid()
      modifies this
      ensures Valid() && View() == SqlRevokeSession(old(View()), sid, now, lifetime)
      ensures found == FirstWithId(old(tokens), sid).Some?
      ensures found ==> token == FirstWithId(old(tokens), sid).value.token
    {
      var rows := tokens;
      var i := 0;
      while i < |rows|
        invariant 0 <= i <= |rows|
        invariant View() == old(View()) && Valid()
        invariant FirstWithId(rows[i..], sid) == FirstWithId(rows, sid)
      {
        if SessionId(rows[i].token) == sid {
          if rows[i].lastJti != "" && rows[i].lastJti !in blocklist {
            blocklist := blocklist[rows[i].lastJti := Block(now, now + lifetime)];
          }
          RevokeRefreshToken(rows[i].token);
          return true, rows[i].token;
        }
        FirstFromHere(rows, sid, i);
        i := i + 1;
      }
      return false, "";
    }
  }

  /** `SELECT … WHERE did = ? AND expires_at > ?` */
  function Selected(rows: seq<Row>, did: string, now: int): (r: seq<Row>)
    ensures forall x :: x in r <==> x in rows && x.did == did && x.expiresAt > now
  {
    if rows == [] then []
    else
      assert rows == [rows[0]] + rows[1..];
      (if rows[0].did == did && rows[0].expiresAt > now then [rows[0]] else []) + Selected(rows[1..], did, now)
  }

  lemma {:induction false} SelectedDistinct(rows: seq<Row>, did: string, now: int)
    requires DistinctTokens(rows)
    ensures DistinctTokens(Selected(rows, did, now))
  {
    if rows == [] {
    } else {
      SelectedDistinct(rows[1..], did, now);
      ConsDistinct(rows, Selected(rows[1..], did, now));
    }
  }
}
