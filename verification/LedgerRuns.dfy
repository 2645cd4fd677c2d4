/** Whole lives of a ledger: DIDs stay unique, blocks grow, and revocation is permanent, up to what
    the offline check says about every bundle generated later. */
module LedgerRuns {
  import opened Bytes
  import opened Cbor
  import opened Models
  import opened Bundle
  import opened Verify
  import opened VerifyComplete
  import opened LedgerSpec

  datatype Step =
    | Register(record: Record, validators: seq<Value>, threshold: int)
    | Promote(did: Value, key: ByteString, signers: seq<Value>, metadata: seq<Entry>)
    | Revoke(did: Value, provided: nat, threshold: int)
    | Reload

  /** DIDs are texts. */
  ghost predicate Typed(step: Step) {
    match step
    case Register(r, _, _) => r.did.Text?
    case Promote(did, _, _, _) => did.Text?
    case _ => true
  }

  /** The ledger after a step. Save and load is a step of its own. */
  function Apply(log: seq<Record>, step: Step): seq<Record> {
    match step
    case Register(r, validators, threshold) => Registered(log, r, validators, threshold).0
    case Promote(did, key, signers, metadata) => Promoted(log, did, key, signers, metadata)
    case Revoke(did, provided, threshold) => Revoked(log, did, provided, threshold).0
    case Reload => Reloaded(log)
  }

  /** A ledger that cannot be saved stays where it is. */
  function Reloaded(log: seq<Record>): seq<Record> {
    match Saved(log)
    case Ok(doc) => (match LoadedLog(doc) case Ok(loaded) => loaded case _ => log)
    case _ => log
  }

  function Run(log: seq<Record>, steps: seq<Step>): seq<Record>
    decreases |steps|
  {
    if steps == [] then log else Run(Apply(log, steps[0]), steps[1..])
  }

  ghost predicate AllTyped(steps: seq<Step>) {
    forall i :: 0 <= i < |steps| ==> Typed(steps[i])
  }

  ghost predicate GrowingBlocks(log: seq<Record>) {
    && (forall i :: 0 <= i < |log| ==> log[i].issuedAt.UInt?)
    && (forall i, j :: 0 <= i < j < |log| ==> BlockOf(log[i]) < BlockOf(log[j]))
  }

  ghost predicate LedgerInv(log: seq<Record>) {
    DistinctDids(log) && GrowingBlocks(log)
  }

  /** A record is what it was, or was active and has been revoked at a later block. */
  ghost predicate Kept(before: Record, after: Record) {
    after == before ||
    (&& before.IsActive() && after.revokedAt.UInt? && after.revokedAt.n > BlockOf(before)
     && after == before.(revokedAt := after.revokedAt))
  }

  /** Records are only ever appended, and each keeps its place. */
  ghost predicate Extends(before: seq<Record>, after: seq<Record>) {
    |before| <= |after| && forall i :: 0 <= i < |before| ==> Kept(before[i], after[i])
  }

  lemma {:induction false} ExtendsTrans(a: seq<Record>, b: seq<Record>, c: seq<Record>)
    requires Extends(a, b) && Extends(b, c)
    ensures Extends(a, c)
  {
    forall i | 0 <= i < |a| ensures Kept(a[i], c[i]) { assert Kept(a[i], b[i]) && Kept(b[i], c[i]); }
  }

  lemma {:induction false} BlocksBelow(log: seq<Record>, i: nat)
    requires i < |log|
    ensures BlockOf(log[i]) < NextBlock(log)
  {
    MaxIsMax(log, i);
  }

  lemma {:induction false} MaxIsMax(log: seq<Record>, i: nat)
    requires i < |log|
    ensures BlockOf(log[i]) <= MaxBlock(log)
  {
    if |log| > 1 && i > 0 { MaxIsMax(log[1..], i - 1); }
  }

  lemma {:induction false} AddKeeps(log: seq<Record>, r: Record)
    requires LedgerInv(log) && r.did.Text? && r.issuedAt == UInt(NextBlock(log))
    ensures LedgerInv(Added(log, r).0) && Extends(log, Added(log, r).0)
  {
    forall i | 0 <= i < |log| ensures BlockOf(log[i]) < BlockOf(r) && log[i].did.Text? {
      BlocksBelow(log, i);
      assert log[i] in log;
    }
  }

  lemma {:induction false} RevokeKeeps(log: seq<Record>, did: Value, provided: nat, threshold: int)
    requires LedgerInv(log)
    ensures var after := Revoked(log, did, provided, threshold).0; LedgerInv(after) && Extends(log, after)
  {
    var after := Revoked(log, did, provided, threshold).0;
    var i := Position(log, did);
    if i < |log| { BlocksBelow(log, i); }
    forall k | 0 <= k < |after| ensures after[k].did == log[k].did && after[k].issuedAt == log[k].issuedAt {}
    forall k | 0 <= k < |log| ensures log[k].did.Text? { assert log[k] in log; }
    forall j, k | 0 <= j < k < |after| ensures DidKey(after[j]) != DidKey(after[k]) {
      assert DidKey(log[j]) != DidKey(log[k]);
    }
  }

  /** What every step keeps. */
  lemma {:induction false} StepKeeps(log: seq<Record>, step: Step)
    requires LedgerInv(log) && Typed(step)
    ensures LedgerInv(Apply(log, step)) && Extends(log, Apply(log, step))
  {
    match step
    case Register(r, validators, threshold) =>
      AddKeeps(log, r.(issuedAt := UInt(NextBlock(log)), issuedBy := validators));
    case Promote(did, key, signers, metadata) => AddKeeps(log, PromotedRecord(log, did, key, signers, metadata));
    case Revoke(did, provided, threshold) => RevokeKeeps(log, did, provided, threshold);
    case Reload => LedgerReadBack(log);
  }

  /** In every run DIDs stay unique, `issued_at` strictly increases along the ledger, and no record
      is lost, moved, changed or made active again. */
  lemma {:induction false} RunKeeps(log: seq<Record>, steps: seq<Step>)
    requires LedgerInv(log) && AllTyped(steps)
    ensures LedgerInv(Run(log, steps)) && Extends(log, Run(log, steps))
    decreases |steps|
  {
    if steps == [] {
    } else {
      var next := Apply(log, steps[0]);
      StepKeeps(log, steps[0]);
      assert forall i :: 0 <= i < |steps[1..]| ==> steps[1..][i] == steps[i + 1];
      RunKeeps(next, steps[1..]);
      ExtendsTrans(log, next, Run(next, steps[1..]));
    }
  }

  /** The next block is 1000 in an empty ledger, and otherwise the one after the highest block at
      which a record was issued. */
  lemma {:induction false} NextBlockFollows(log: seq<Record>)
    ensures log == [] ==> NextBlock(log) == 1000
    ensures forall r :: r in log ==> BlockOf(r) < NextBlock(log)
    ensures log != [] ==> exists r :: r in log && BlockOf(r) + 1 == NextBlock(log)
  {
    forall r | r in log ensures BlockOf(r) < NextBlock(log) {
      var i :| 0 <= i < |log| && log[i] == r;
      BlocksBelow(log, i);
    }
    if log != [] { var i := Highest(log); }
  }

  lemma {:induction false} Highest(log: seq<Record>) returns (i: nat)
    requires log != []
    ensures i < |log| && BlockOf(log[i]) == MaxBlock(log)
  {
    if |log| == 1 || BlockOf(log[0]) > MaxBlock(log[1..]) {
      i := 0;
    } else {
      var j := Highest(log[1..]);
      i := j + 1;
    }
  }

  /** The DID has a record and none of its records is active. */
  ghost predicate OutOfForce(log: seq<Record>, did: Value) {
    HasDid(log, did) && forall r :: r in log && r.did == did ==> !r.IsActive()
  }

  lemma {:induction false} OnlyRecord(log: seq<Record>, i: nat, r: Record)
    requires DistinctDids(log) && i < |log| && r in log && r.did == log[i].did
    ensures r == log[i]
  {
    var k :| 0 <= k < |log| && log[k] == r;
    assert DidKey(log[i]) == DidKey(log[k]);
  }

  /** A revocation by enough validators puts the DID out of force, or finds it so. */
  lemma {:induction false} RevokeTakesForce(log: seq<Record>, did: Value, provided: nat, threshold: int)
    requires LedgerInv(log) && HasDid(log, did) && provided >= threshold
    ensures OutOfForce(Revoked(log, did, provided, threshold).0, did)
  {
    var after := Revoked(log, did, provided, threshold).0;
    var i := Position(log, did);
    RevokeKeeps(log, did, provided, threshold);
    assert after[i].did == did && !after[i].IsActive();
    forall r | r in after && r.did == did ensures !r.IsActive() { OnlyRecord(after, i, r); }
  }

  /** Permanent revocation: whatever is registered, promoted, revoked, saved and loaded afterwards,
      the DID never comes into force again. */
  lemma {:induction false} StaysOutOfForce(log: seq<Record>, did: Value, steps: seq<Step>)
    requires LedgerInv(log) && AllTyped(steps) && OutOfForce(log, did)
    ensures OutOfForce(Run(log, steps), did)
  {
    var end := Run(log, steps);
    RunKeeps(log, steps);
    var i :| 0 <= i < |log| && log[i].did == did;
    assert log[i] in log && Kept(log[i], end[i]);
    forall r | r in end && r.did == did ensures !r.IsActive() { OnlyRecord(end, i, r); }
  }

  /** The step brings the DID into the ledger, unless it is there. */
  ghost predicate Enters(step: Step, did: Value) {
    match step
    case Register(r, validators, threshold) => r.did == did && |validators| >= threshold
    case Promote(d, _, _, _) => d == did
    case _ => false
  }

  lemma {:induction false} AddHolds(log: seq<Record>, r: Record, did: Value)
    ensures HasDid(Added(log, r).0, did) <==> HasDid(log, did) || r.did == did
  {
    var after := log + [r];
    if i :| 0 <= i < |log| && log[i].did == did { assert after[i].did == did; }
    assert after[|log|] == r;
  }

  lemma {:induction false} RevokeHolds(log: seq<Record>, target: Value, provided: nat, threshold: int, did: Value)
    ensures HasDid(Revoked(log, target, provided, threshold).0, did) <==> HasDid(log, did)
  {
    var after := Revoked(log, target, provided, threshold).0;
    assert |after| == |log| && forall i :: 0 <= i < |log| ==> after[i].did == log[i].did;
  }

  lemma {:induction false} StepHolds(log: seq<Record>, step: Step, did: Value)
    ensures HasDid(Apply(log, step), did) <==> HasDid(log, did) || Enters(step, did)
  {
    match step
    case Register(r, validators, threshold) =>
      AddHolds(log, r.(issuedAt := UInt(NextBlock(log)), issuedBy := validators), did);
    case Promote(d, key, signers, metadata) => AddHolds(log, PromotedRecord(log, d, key, signers, metadata), did);
    case Revoke(target, provided, threshold) => RevokeHolds(log, target, provided, threshold, did);
    case Reload => LedgerReadBack(log);
  }

  /** A run ends with the DID in the ledger exactly if it was there, or a step brought it in: neither
      revocation nor saving and loading takes it out. */
  lemma {:induction false} HoldsIff(log: seq<Record>, steps: seq<Step>, did: Value)
    ensures HasDid(Run(log, steps), did) <==> HasDid(log, did) || exists i :: 0 <= i < |steps| && Enters(steps[i], did)
    decreases |steps|
  {
    if steps == [] {
    } else {
      StepHolds(log, steps[0], did);
      HoldsIff(Apply(log, steps[0]), steps[1..], did);
      if i :| 0 < i < |steps| && Enters(steps[i], did) { assert steps[1..][i - 1] == steps[i]; }
      if i :| 0 <= i < |steps[1..]| && Enters(steps[1..][i], did) { assert Enters(steps[i + 1], did); }
    }
  }

  /** After any run from an empty ledger, a promotion leaves the ledger unchanged exactly if the DID was
      promoted or registered by a quorum before, revoked since or not: the duplicate error is
      swallowed. */
  lemma {:induction false} RepeatPromoteIsVoid(
      steps: seq<Step>, did: Value, key: ByteString, signers: seq<Value>, metadata: seq<Entry>)
    ensures Promoted(Run([], steps), did, key, signers, metadata) == Run([], steps) <==>
      exists i :: 0 <= i < |steps| && Enters(steps[i], did)
  {
    var log := Run([], steps);
    HoldsIff([], steps, did);
    if !HasDid(log, did) { assert |Promoted(log, did, key, signers, metadata)| == |log| + 1; }
  }

  /** Registration needs the quorum and a new DID, and nothing else stands in its way. */
  lemma {:induction false} RegistersIff(log: seq<Record>, r: Record, validators: seq<Value>, threshold: int)
    ensures var (after, outcome) := Registered(log, r, validators, threshold);
      && (outcome == Done <==> |validators| >= threshold && !HasDid(log, r.did))
      && (outcome == Done ==> after[..|after| - 1] == log && IsNewRecord(after[|after| - 1], r, log, validators, threshold))
      && (outcome != Done ==> after == log)
  {
    NextBlockFollows(log);
  }

  /** A revocation goes through exactly with the quorum, for a DID whose record is active. Then that record is
      revoked at the block after the highest issued, and nothing else of it or of the ledger changes; if it
      does not go through nothing does, and the answer says why. */
  lemma {:induction false} RevokesIff(log: seq<Record>, did: Value, provided: nat, threshold: int)
    requires DistinctDids(log)
    ensures var (after, outcome) := Revoked(log, did, provided, threshold);
      && (outcome == Done <==> provided >= threshold && exists r :: r in log && r.did == did && r.IsActive())
      && (outcome == Done ==> |after| == |log| && forall i :: 0 <= i < |log| ==>
            if log[i].did == did then IsRevoked(after[i], log[i], log) else after[i] == log[i])
      && (outcome != Done ==> after == log)
      && (outcome == QuorumShort(threshold, provided) <==> provided < threshold)
      && (outcome == NotInLedger <==> provided >= threshold && !HasDid(log, did))
      && (provided >= threshold ==> forall r :: r in log && r.did == did && !r.IsActive() ==>
            outcome == AlreadyRevoked(r.revokedAt))
  {
    var i := Position(log, did);
    NextBlockFollows(log);
    if i < |log| {
      assert log[i] in log;
      forall r | r in log && r.did == did ensures r == log[i] { OnlyRecord(log, i, r); }
    }
  }

  ghost predicate IsRevoked(after: Record, before: Record, log: seq<Record>) {
    && after.revokedAt.UInt? && after == before.(revokedAt := after.revokedAt)
    && (forall x :: x in log ==> BlockOf(x) < after.revokedAt.n)
    && exists x :: x in log && BlockOf(x) + 1 == after.revokedAt.n
  }

  /** The record as it was handed in, issued now by the quorum. */
  ghost predicate IsNewRecord(added: Record, r: Record, log: seq<Record>, validators: seq<Value>, threshold: int) {
    && added.did == r.did && added.publicKey == r.publicKey && added.metadata == r.metadata
    && added.validUntil == r.validUntil && added.revokedAt == r.revokedAt
    && added.issuedBy == validators && |added.issuedBy| >= threshold
    && forall x :: x in log ==> BlockOf(x) < BlockOf(added)
  }

  /** From the revocation on, every bundle generated from the ledger at any later time, by any
      validators that meet the threshold, verifies that DID as NOT_FOUND until it expires. */
  lemma {:induction false} RevokedIsNotFound(
      w: World, log: seq<Record>, did: ByteString, provided: nat, threshold: int, steps: seq<Step>,
      g: Generation, vs: seq<Validator>, m: Value, now: real)
    requires LedgerInv(log) && HasDid(log, Text(did)) && provided >= threshold && AllTyped(steps)
    requires g.log == Run(Revoked(log, Text(did), provided, threshold).0, steps)
    requires Proper(w, g, vs, m) && now < (g.now + g.grace) as real
    ensures VerifyFile(w, Encode(PublishedValue(Signed(w.sha, g, vs))), did, now) ==
      Result(NOT_FOUND, UInt(g.now + g.grace), None)
  {
    var after := Revoked(log, Text(did), provided, threshold).0;
    RevokeKeeps(log, Text(did), provided, threshold);
    RevokeTakesForce(log, Text(did), provided, threshold);
    StaysOutOfForce(after, Text(did), steps);
    GeneratedIsNotFound(w, g, vs, m, did, now);
  }
}
