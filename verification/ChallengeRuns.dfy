/** Login challenges of the SQLite store when calls overlap. Each of `create_challenge` and
    `consume_challenge` reads the clock first and takes the lock later, so a call is two steps, and
    between them other calls, the passing of time and a restart may happen. */
module ChallengeRuns {
  import opened Cbor
  import opened SessionSpec

  /** A call that has read the clock and waits for the lock. */
  datatype Pending =
    | Creating(challenge: string, entry: Challenge)
    | Consuming(challenge: string, readAt: int)

  /** `drawn` and `spent` record the challenges the generator has drawn and the store accepted. */
  datatype State = State(
    table: map<string, Challenge>, calls: map<nat, Pending>, clock: int, drawn: set<string>, spent: set<string>)

  datatype Step =
    | Tick(to: int)
    | StartCreate(call: nat, did: string, cred: string, key: string, alg: string, challenge: string)
    | FinishCreate(call: nat)
    | StartConsume(call: nat, challenge: string)
    | FinishConsume(call: nat)
    | Reopen

  const START := State(map[], map[], 0, {}, {})

  /** Time does not go back, the generator does not repeat itself, and a call is finished once. */
  ghost predicate Enabled(s: State, step: Step) {
    match step
    case Tick(to) => s.clock <= to
    case StartCreate(call, _, _, _, _, c) => call !in s.calls && c !in s.drawn
    case FinishCreate(call) => call in s.calls && s.calls[call].Creating?
    case StartConsume(call, _) => call !in s.calls
    case FinishConsume(call) => call in s.calls && s.calls[call].Consuming?
    case Reopen => true
  }

  function Apply(s: State, step: Step): State {
    match step
    case Tick(to) => s.(clock := to)
    case StartCreate(call, did, cred, key, alg, c) =>
      s.(calls := s.calls[call := Creating(c, NewChallenge(did, cred, key, alg, s.clock))], drawn := s.drawn + {c})
    case FinishCreate(call) =>
      if call in s.calls && s.calls[call].Creating? then
        s.(table := s.table[s.calls[call].challenge := s.calls[call].entry], calls := s.calls - {call})
      else s
    case StartConsume(call, c) => s.(calls := s.calls[call := Consuming(c, s.clock)])
    case FinishConsume(call) =>
      if call in s.calls && s.calls[call].Consuming? then FinishedConsume(s, call, s.calls[call]) else s
    case Reopen => s.(table := LiveChallenges(s.table, s.clock), calls := map[])
  }

  /** Under the lock the row is read and deleted; the clock reading decides afterwards. */
  function FinishedConsume(s: State, call: nat, p: Pending): State
    requires p.Consuming?
  {
    s.(table := s.table - {p.challenge},
       calls := s.calls - {call},
       spent := if Consumed(s.table, p.challenge, p.readAt).Some? then s.spent + {p.challenge} else s.spent)
  }

  function After(steps: seq<Step>): State
    decreases |steps|
  {
    if steps == [] then START else Apply(After(steps[..|steps| - 1]), steps[|steps| - 1])
  }

  ghost predicate Legal(steps: seq<Step>) {
    forall k :: 0 <= k < |steps| ==> Enabled(After(steps[..k]), steps[k])
  }

  /** Step `k` hands `entry` to the caller of `consume_challenge(c)`, who read the clock at `readAt`. */
  ghost predicate AcceptsAt(steps: seq<Step>, k: nat, c: string, entry: Challenge, readAt: int) {
    && k < |steps| && steps[k].FinishConsume?
    && AcceptsIn(After(steps[..k]), steps[k].call, c, entry, readAt)
  }

  ghost predicate AcceptsIn(s: State, call: nat, c: string, entry: Challenge, readAt: int) {
    call in s.calls && s.calls[call] == Consuming(c, readAt) && Consumed(s.table, c, readAt) == Some(entry)
  }

  /** Step `k` is the start of the `create_challenge` call that drew `c`, and the entry is for the
      DID and key of that call. */
  ghost predicate CreatesAt(steps: seq<Step>, k: nat, c: string, entry: Challenge) {
    && k < |steps| && steps[k].StartCreate? && steps[k].challenge == c
    && entry.did == steps[k].did && entry.credentialId == steps[k].cred
    && entry.publicKeyHex == steps[k].key && entry.algorithm == steps[k].alg
    && entry.issuedAt == After(steps[..k]).clock && entry.expiresAt == entry.issuedAt + 60
  }

  ghost predicate Created(steps: seq<Step>, c: string, entry: Challenge) {
    exists k: nat :: CreatesAt(steps, k, c, entry)
  }

  // ----- the invariant

  /** No challenge is in two places at once: in the table, waiting to be inserted by one call, or
      accepted already. */
  ghost predicate Apart(s: State) {
    && (forall c :: c in s.table ==> c in s.drawn && c !in s.spent)
    && (forall id :: id in s.calls && s.calls[id].Creating? ==>
          s.calls[id].challenge in s.drawn && s.calls[id].challenge !in s.table && s.calls[id].challenge !in s.spent)
    && (forall i, j :: i in s.calls && j in s.calls && i != j && s.calls[i].Creating? && s.calls[j].Creating? ==>
          s.calls[i].challenge != s.calls[j].challenge)
    && s.spent <= s.drawn
  }

  /** Every entry, in the table or about to be, is the one its `create_challenge` made. */
  ghost predicate Genuine(s: State, steps: seq<Step>) {
    && (forall c :: c in s.table ==> Created(steps, c, s.table[c]))
    && (forall id :: id in s.calls && s.calls[id].Creating? ==>
          Created(steps, s.calls[id].challenge, s.calls[id].entry))
  }

  lemma {:induction false} ApplyApart(s: State, step: Step)
    requires Apart(s) && Enabled(s, step)
    ensures Apart(Apply(s, step))
  {
  }

  lemma {:induction false} Prefix(steps: seq<Step>, k: nat, n: nat)
    requires k <= n <= |steps|
    ensures steps[..n][..k] == steps[..k]
  {
  }

  lemma {:induction false} CreatedLater(steps: seq<Step>, n: nat, c: string, entry: Challenge)
    requires n <= |steps| && Created(steps[..n], c, entry)
    ensures Created(steps, c, entry)
  {
    var k: nat :| CreatesAt(steps[..n], k, c, entry);
    Prefix(steps, k, n);
    assert CreatesAt(steps, k, c, entry);
  }

  lemma {:induction false} Invariant(steps: seq<Step>)
    requires Legal(steps)
    ensures Apart(After(steps)) && Genuine(After(steps), steps)
    decreases |steps|
  {
    if steps == [] {
    } else {
      var n := |steps| - 1;
      LegalPrefix(steps, n);
      Invariant(steps[..n]);
      var s := After(steps[..n]);
      ApplyApart(s, steps[n]);
      forall c, entry | Created(steps[..n], c, entry) ensures Created(steps, c, entry) {
        CreatedLater(steps, n, c, entry);
      }
      if steps[n].StartCreate? {
        assert CreatesAt(steps, n, steps[n].challenge, After(steps).calls[steps[n].call].entry);
      }
    }
  }

  lemma {:induction false} LegalPrefix(steps: seq<Step>, n: nat)
    requires Legal(steps) && n <= |steps|
    ensures Legal(steps[..n])
  {
    forall k | 0 <= k < n ensures Enabled(After(steps[..n][..k]), steps[..n][k]) { Prefix(steps, k, n); }
  }

  lemma {:induction false} SpentStays(steps: seq<Step>, n: nat)
    requires n <= |steps|
    ensures After(steps[..n]).spent <= After(steps).spent
    decreases |steps|
  {
    if n < |steps| {
      SpentStays(steps[..|steps| - 1], n);
      Prefix(steps, n, |steps| - 1);
    } else {
      assert steps[..n] == steps;
    }
  }

  lemma {:induction false} AcceptedIsSpent(steps: seq<Step>, k: nat, c: string, entry: Challenge, readAt: int)
    requires AcceptsAt(steps, k, c, entry, readAt)
    ensures c in After(steps[..k + 1]).spent
  {
    Prefix(steps, k, k + 1);
    assert steps[..k + 1][..k] == steps[..k] && steps[..k + 1][k] == steps[k];
  }

  // ----- the theorems

  /** In any run, with calls interleaved and restarts anywhere, a challenge is accepted at most once. */
  lemma {:induction false} AcceptedOnce(
      steps: seq<Step>, c: string, i: nat, first: Challenge, readFirst: int, j: nat, second: Challenge, readSecond: int)
    requires Legal(steps)
    requires AcceptsAt(steps, i, c, first, readFirst) && AcceptsAt(steps, j, c, second, readSecond)
    ensures i == j
  {
    if i < j {
      NotAgain(steps, c, i, first, readFirst, j, second, readSecond);
    } else if j < i {
      NotAgain(steps, c, j, second, readSecond, i, first, readFirst);
    }
  }

  lemma {:induction false} NotAgain(
      steps: seq<Step>, c: string, i: nat, first: Challenge, readFirst: int, j: nat, second: Challenge, readSecond: int)
    requires Legal(steps) && i < j && AcceptsAt(steps, i, c, first, readFirst)
    ensures !AcceptsAt(steps, j, c, second, readSecond)
  {
    if j < |steps| {
      AcceptedIsSpent(steps, i, c, first, readFirst);
      Prefix(steps, i + 1, j);
      SpentStays(steps[..j], i + 1);
      LegalPrefix(steps, j);
      Invariant(steps[..j]);
    }
  }

  /** What is accepted was created earlier in the run, with that DID and key, and the caller read
      the clock no later than 60 seconds after the creating call did. */
  lemma {:induction false} AcceptedInTime(
      steps: seq<Step>, i: nat, c: string, entry: Challenge, readAt: int) returns (k: nat)
    requires Legal(steps) && AcceptsAt(steps, i, c, entry, readAt)
    ensures k < i && CreatesAt(steps, k, c, entry) && readAt <= After(steps[..k]).clock + 60
  {
    LegalPrefix(steps, i);
    Invariant(steps[..i]);
    k :| CreatesAt(steps[..i], k, c, entry);
    Prefix(steps, k, i);
  }

  /** The reading is one the clock showed: the consuming call started at a step where it did. */
  lemma {:induction false} ReadingIsGenuine(steps: seq<Step>, call: nat) returns (k: nat)
    requires call in After(steps).calls && After(steps).calls[call].Consuming?
    ensures k < |steps| && steps[k] == StartConsume(call, After(steps).calls[call].challenge)
    ensures After(steps[..k]).clock == After(steps).calls[call].readAt
    decreases |steps|
  {
    var n := |steps| - 1;
    if steps[n].StartConsume? && steps[n].call == call {
      k := n;
    } else {
      k := ReadingIsGenuine(steps[..n], call);
      Prefix(steps, k, n);
    }
  }

  /** Consuming burns the challenge whatever the answer: once a call for `c` has had the lock, no
      later call gets it, though it be refused for being late. */
  lemma {:induction false} ConsumedForGood(
      steps: seq<Step>, n: nat, c: string, readAt: int, i: nat, entry: Challenge, at: int)
    requires Legal(steps) && n < i && n < |steps|
    requires steps[n].FinishConsume? && After(steps[..n]).calls[steps[n].call] == Consuming(c, readAt)
    requires c in After(steps[..n]).table
    ensures !AcceptsAt(steps, i, c, entry, at)
  {
    if AcceptsAt(steps, i, c, entry, at) {
      FinishedIsGone(steps, n, c, readAt);
      GoneStays(steps, c, n + 1, i);
    }
  }

  lemma {:induction false} FinishedIsGone(steps: seq<Step>, n: nat, c: string, readAt: int)
    requires Legal(steps) && n < |steps| && steps[n].FinishConsume?
    requires After(steps[..n]).calls[steps[n].call] == Consuming(c, readAt)
    requires c in After(steps[..n]).table
    ensures Gone(After(steps[..n + 1]), c)
  {
    LegalPrefix(steps, n);
    Invariant(steps[..n]);
    assert steps[..n + 1][..n] == steps[..n] && steps[..n + 1][n] == steps[n];
  }

  ghost predicate Gone(s: State, c: string) {
    c in s.drawn && c !in s.table && forall id :: id in s.calls && s.calls[id].Creating? ==> s.calls[id].challenge != c
  }

  lemma {:induction false} GoneStays(steps: seq<Step>, c: string, n: nat, i: nat)
    requires Legal(steps) && n <= i <= |steps| && Gone(After(steps[..n]), c)
    ensures Gone(After(steps[..i]), c)
    decreases i
  {
    if n < i {
      GoneStays(steps, c, n, i - 1);
      Prefix(steps, i - 1, i);
      assert Enabled(After(steps[..i - 1]), steps[i - 1]);
    }
  }
}
