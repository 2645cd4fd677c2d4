/** The offline check (src/decpki/verify.py). */
module Verify {
  import opened Bytes
  import opened Sorting
  import opened Cbor
  import opened Models
  import opened PyValues
  import opened Bundle
  import Merkle

  datatype Outcome = VALID | NOT_FOUND | EXPIRED | TAMPERED | INVALID | QUORUM_FAILURE

  /** `DecodeFailed` is a BundleDecodeError; `Raised` any other exception. */
  datatype Verdict =
    | Result(outcome: Outcome, expiresAt: Value, record: Option<Record>)
    | DecodeFailed
    | Raised

  function EntryKey(e: IdentityEntry): ByteString { DidKey(e.record) }

  function RecordOf(e: IdentityEntry): Record { e.record }

  /** Python compares DIDs only if there are two of them, and then they must be text. */
  predicate CanSort(es: seq<IdentityEntry>) {
    |es| <= 1 || forall i :: 0 <= i < |es| ==> es[i].record.did.Text?
  }

  /** `sorted(bundle.identities, key=lambda e: e.record.did)` */
  function SortedRecords(es: seq<IdentityEntry>): seq<Record> {
    MapSeq(RecordOf, Sort(es, EntryKey, LexLe))
  }

  predicate AllSignaturesHold(w: World, sigs: seq<Signature>, message: ByteString) {
    forall i :: 0 <= i < |sigs| ==> w.check(sigs[i].publicKey, message, sigs[i].signature)
  }

  function FindDid(es: seq<IdentityEntry>, did: ByteString): (r: Option<IdentityEntry>)
    ensures r.Some? ==> r.value in es && r.value.record.did == Text(did)
    ensures r.None? ==> forall e :: e in es ==> e.record.did != Text(did)
  {
    if es == [] then None
    else if es[0].record.did == Text(did) then Some(es[0])
    else FindDid(es[1..], did)
  }

  /** Step 4 of `verify`, recomputing the root, and what follows. */
  function CheckInclusion(w: World, b: TrustBundle, did: ByteString): Verdict {
    if !CanSort(b.identities) then Raised
    else if Merkle.Root(w.sha, LeafData(SortedRecords(b.identities))) != b.snapshotRoot then
      Result(INVALID, b.expiresAt, None)
    else
      LookUp(w, b, did)
  }

  /** Steps 5 and 6: find the DID, check its proof. */
  function LookUp(w: World, b: TrustBundle, did: ByteString): Verdict {
    match FindDid(b.identities, did)
    case None => Result(NOT_FOUND, b.expiresAt, None)
    case Some(e) => CheckProof(w, b, e)
  }

  function CheckProof(w: World, b: TrustBundle, e: IdentityEntry): (r: Verdict)
    ensures r.Result? && r.expiresAt == b.expiresAt && r.record == Some(e.record)
  {
    var accepted := Merkle.Accepts(w.sha, SerialiseRecord(e.record), ToSteps(e.proof.siblings), b.snapshotRoot);
    Result(if accepted then VALID else INVALID, b.expiresAt, Some(e.record))
  }

  /** `verify` on a parsed bundle at time `now` (a float in the source): quorum, signatures and
      expiry come first, in this order. */
  function VerifyBundle(w: World, b: TrustBundle, did: ByteString, now: real): Verdict {
    var threshold, expires := AsNumber(b.threshold), AsNumber(b.expiresAt);
    if threshold.None? then Raised
    else if |b.signatures| < threshold.value then Result(QUORUM_FAILURE, b.expiresAt, None)
    else if !AllSignaturesHold(w, b.signatures, SigningBytes(b.(signatures := []))) then
      Result(TAMPERED, b.expiresAt, None)
    else if expires.None? then Raised
    else if expires.value as real <= now then Result(EXPIRED, b.expiresAt, None)
    else CheckInclusion(w, b, did)
  }

  function VerifyFile(w: World, raw: ByteString, did: ByteString, now: real): Verdict {
    match Read(w, raw)
    case Ok(b) => VerifyBundle(w, b, did, now)
    case Caught => DecodeFailed
    case Uncaught => Raised
  }

  /** `len(bundle.signatures) >= bundle.threshold` */
  ghost predicate Quorate(b: TrustBundle) {
    AsNumber(b.threshold).Some? && |b.signatures| >= AsNumber(b.threshold).value
  }

  /** `bundle.expires_at > now` */
  ghost predicate Unexpired(b: TrustBundle, now: real) {
    AsNumber(b.expiresAt).Some? && AsNumber(b.expiresAt).value as real > now
  }

  ghost predicate AllSigned(w: World, b: TrustBundle) {
    forall s :: s in b.signatures ==> w.check(s.publicKey, SigningBytes(b.(signatures := [])), s.signature)
  }

  ghost predicate Rooted(w: World, b: TrustBundle) {
    Merkle.Root(w.sha, LeafData(SortedRecords(b.identities))) == b.snapshotRoot
  }

  ghost predicate FirstProves(w: World, b: TrustBundle, did: ByteString, holds: bool) {
    exists k :: IsFirst(b.identities, did, k) && Proves(w, b, k) == holds
  }

  ghost predicate Absent(b: TrustBundle, did: ByteString) {
    forall e :: e in b.identities ==> e.record.did != Text(did)
  }

  /** The decision of `verify` on any bundle, outcome by outcome: a step is reported exactly when it fails
      and all before it pass, and so is a comparison that raises. The record of a valid answer, and of one
      whose proof fails, is the first with the DID; no other answer has one. */
  lemma {:induction false} DecisionTable(w: World, b: TrustBundle, did: ByteString, now: real)
    ensures var r := VerifyBundle(w, b, did, now);
      var comparable := AsNumber(b.threshold).Some?;
      var signed := Quorate(b) && AllSigned(w, b);
      var dated := signed && AsNumber(b.expiresAt).Some?;
      var current := signed && Unexpired(b, now) && CanSort(b.identities);
      && (r == Raised <==>
            !comparable || (signed && !dated) || (signed && Unexpired(b, now) && !CanSort(b.identities)))
      && r != DecodeFailed
      && (r == Result(QUORUM_FAILURE, b.expiresAt, None) <==> comparable && !Quorate(b))
      && (r == Result(TAMPERED, b.expiresAt, None) <==> Quorate(b) && !AllSigned(w, b))
      && (r == Result(EXPIRED, b.expiresAt, None) <==> dated && !Unexpired(b, now))
      && (r == Result(INVALID, b.expiresAt, None) <==> current && !Rooted(w, b))
      && (r == Result(NOT_FOUND, b.expiresAt, None) <==> current && Rooted(w, b) && Absent(b, did))
      && (r.Result? && r.record.Some? && r.outcome == INVALID <==> current && Rooted(w, b) && FirstProves(w, b, did, false))
      && (r.Result? && r.outcome == VALID <==> current && Rooted(w, b) && FirstProves(w, b, did, true))
      && (r.Result? ==> r.expiresAt == b.expiresAt && (r.record.Some? ==> r.outcome in {VALID, INVALID}))
      && (r.Result? && r.record.Some? ==>
            exists k :: IsFirst(b.identities, did, k) && r.record == Some(b.identities[k].record))
  {
    SignedIffHold(w, b);
    if CanSort(b.identities) { InclusionTable(w, b, did); }
  }

  /** The last three steps. */
  lemma {:induction false} InclusionTable(w: World, b: TrustBundle, did: ByteString)
    requires CanSort(b.identities)
    ensures var r := CheckInclusion(w, b, did);
      && r.Result? && r.expiresAt == b.expiresAt && r.outcome in {VALID, INVALID, NOT_FOUND}
      && (r == Result(INVALID, b.expiresAt, None) <==> !Rooted(w, b))
      && (r == Result(NOT_FOUND, b.expiresAt, None) <==> Rooted(w, b) && Absent(b, did))
      && (r.record.Some? && r.outcome == INVALID <==> Rooted(w, b) && FirstProves(w, b, did, false))
      && (r.outcome == VALID <==> Rooted(w, b) && FirstProves(w, b, did, true))
      && (r.outcome == NOT_FOUND ==> r.record.None?)
      && (r.record.Some? ==> exists k :: IsFirst(b.identities, did, k) && r.record == Some(b.identities[k].record))
  {
    if FindDid(b.identities, did).Some? {
      var k := FirstIndex(b.identities, did);
      forall i | IsFirst(b.identities, did, i) ensures i == k { OneFirst(b.identities, did, i, k); }
      assert b.identities[k] in b.identities;
    } else {
      forall i | 0 <= i < |b.identities| ensures !IsFirst(b.identities, did, i) {
        assert b.identities[i] in b.identities;
      }
    }
  }

  lemma {:induction false} SignedIffHold(w: World, b: TrustBundle)
    ensures AllSigned(w, b) <==> AllSignaturesHold(w, b.signatures, SigningBytes(b.(signatures := [])))
  {
    var message := SigningBytes(b.(signatures := []));
    if AllSigned(w, b) {
      forall i | 0 <= i < |b.signatures|
        ensures w.check(b.signatures[i].publicKey, message, b.signatures[i].signature)
      {
        assert b.signatures[i] in b.signatures;
      }
    }
  }

  lemma {:induction false} OneFirst(es: seq<IdentityEntry>, did: ByteString, i: int, k: int)
    requires IsFirst(es, did, i) && IsFirst(es, did, k)
    ensures i == k
  {
  }

  ghost predicate IsFirst(es: seq<IdentityEntry>, did: ByteString, k: int) {
    0 <= k < |es| && es[k].record.did == Text(did) && forall j :: 0 <= j < k ==> es[j].record.did != Text(did)
  }

  ghost predicate Proves(w: World, b: TrustBundle, k: int)
    requires 0 <= k < |b.identities|
  {
    Merkle.Accepts(w.sha, SerialiseRecord(b.identities[k].record), ToSteps(b.identities[k].proof.siblings), b.snapshotRoot)
  }

  lemma {:induction false} FirstIndex(es: seq<IdentityEntry>, did: ByteString) returns (k: nat)
    requires FindDid(es, did).Some?
    ensures IsFirst(es, did, k) && FindDid(es, did) == Some(es[k])
  {
    if es[0].record.did == Text(did) {
      k := 0;
    } else {
      var j := FirstIndex(es[1..], did);
      k := j + 1;
      forall i | 0 <= i < k ensures es[i].record.did != Text(did) {
        if i > 0 { assert es[i] == es[1..][i - 1]; }
      }
    }
  }
}
