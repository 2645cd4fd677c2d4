/** Completeness of the browser's check: once a generated bundle has been synchronised, the client answers
    for its DIDs as long as it lasts. And it is a bundle to which soundness applies. */
module JsComplete {
  import opened Bytes
  import opened Sorting
  import opened Cbor
  import opened Models
  import opened Bundle
  import opened Verify
  import opened VerifyComplete
  import opened JsCbor
  import Js = JsBundle
  import opened JsAgreement
  import opened SyncProtocol
  import opened SyncRuns
  import JsSound
  import Merkle
  import MerkleLaws
  import VerifySound

  // ----- the two checks on one bundle

  lemma {:induction false} StepsAlike(siblings: seq<Sibling>)
    ensures StepsIn(MapSeq(JsSiblingOf, siblings)) == Some(ToSteps(siblings))
  {
    if siblings == [] {
    } else {
      var all := MapSeq(JsSiblingOf, siblings);
      StepsAlike(siblings[1..]);
      assert all[1..] == MapSeq(JsSiblingOf, siblings[1..]) && all[0] == JsSiblingOf(siblings[0]);
      SideAlike(siblings[0].side);
      assert ToSteps(siblings) == [ToSteps(siblings)[0]] + ToSteps(siblings[1..]);
    }
  }

  lemma {:induction false} SideAlike(v: Value)
    ensures FromCbor(v) == JString(Ascii("left")) <==> v == Text(Ascii("left"))
  {
  }

  /** The browser climbs from the hash that the proof carries. */
  lemma {:induction false} ProofAlike(f: Js.Platform, p: MerkleProof, root: ByteString)
    ensures ProofHolds(f, JsProofOf(p), JUint8Array(root)) <==>
      Merkle.Climb(f.sha, p.leafHash, ToSteps(p.siblings)) == root
  {
    StepsAlike(p.siblings);
  }

  lemma {:induction false} FindAlike(es: seq<IdentityEntry>, did: ByteString)
    ensures FindEntry(MapSeq(JsEntryOf, es), did) ==
      match FindDid(es, did) case None => None case Some(e) => Some(JsEntryOf(e))
  {
    if es == [] {
    } else {
      FindAlike(es[1..], did);
      assert MapSeq(JsEntryOf, es)[1..] == MapSeq(JsEntryOf, es[1..]);
      assert MapSeq(JsEntryOf, es)[0] == JsEntryOf(es[0]);
      DidAlike(es[0].record.did, did);
    }
  }

  lemma {:induction false} DidAlike(v: Value, did: ByteString)
    ensures FromCbor(v) == JString(did) <==> v == Text(did)
  {
  }

  /** What validation leaves of the bundle that the browser reads. */
  function Stored(c: TrustBundle): Js.JsBundle { JsBundleOf(c).(validSigCount := Some(|c.signatures|)) }

  /** The last two steps of the browser's check. */
  function ClientLookUp(f: Js.Platform, c: TrustBundle, did: ByteString): SyncProtocol.Outcome {
    match FindDid(c.identities, did)
    case None => SyncProtocol.NOT_FOUND
    case Some(e) =>
      if Merkle.Climb(f.sha, e.proof.leafHash, ToSteps(e.proof.siblings)) == c.snapshotRoot then SyncProtocol.VALID
      else SyncProtocol.TAMPERED
  }

  lemma {:induction false} NotPastNorShort(f: Js.Platform, threshold: nat, count: nat, expires: nat, now: int)
    requires threshold <= count && now <= expires
    ensures !Js.Exceeds(f, now, FromCbor(UInt(expires))) && !Js.LessThan(f, count, FromCbor(UInt(threshold)))
  {
  }

  lemma {:induction false} ClientPasses(f: Js.Platform, b: Js.JsBundle, did: ByteString, now: int)
    requires !Js.Exceeds(f, now, b.expiresAt) && !Js.LessThan(f, CountOf(b), b.threshold)
    ensures ClientVerify(f, Some(b), did, now) ==
      match FindEntry(b.identities, did)
      case None => SyncProtocol.NOT_FOUND
      case Some(e) => if ProofHolds(f, e.proof, b.snapRoot) then SyncProtocol.VALID else SyncProtocol.TAMPERED
  {
  }

  lemma {:induction false} ClientLooksUp(f: Js.Platform, c: TrustBundle, did: ByteString, now: int)
    requires !Js.Exceeds(f, now, FromCbor(c.expiresAt)) && !Js.LessThan(f, |c.signatures|, FromCbor(c.threshold))
    ensures ClientVerify(f, Some(Stored(c)), did, now) == ClientLookUp(f, c, did)
  {
    ClientPasses(f, Stored(c), did, now);
    FindAlike(c.identities, did);
    var found := FindDid(c.identities, did);
    if found.Some? { ProofAlike(f, found.value.proof, c.snapshotRoot); }
  }

  // ----- generated bundles

  ghost predicate IsActiveDid(log: seq<Record>, did: ByteString) {
    exists r :: r in log && r.IsActive() && r.did == Text(did)
  }

  lemma {:induction false} ProofClimbs(w: World, g: Generation, c: TrustBundle, k: nat)
    requires Recovered(w, g, c) && k < |c.identities|
    ensures Merkle.Climb(w.sha, c.identities[k].proof.leafHash, ToSteps(c.identities[k].proof.siblings)) ==
      c.snapshotRoot
  {
    var leaves := LeafData(SortedActive(g.log));
    assert EntryOf(w.sha, c.identities[k], SortedActive(g.log), k);
    StepsRoundTrip(Merkle.Proof(w.sha, leaves, k));
    MerkleLaws.ProofComplete(w.sha, leaves, k);
  }

  lemma {:induction false} LookUpRecovered(
      w: World, f: Js.Platform, g: Generation, c: TrustBundle, did: ByteString)
    requires Recovered(w, g, c) && DistinctDids(g.log) && f.sha == w.sha
    ensures ClientLookUp(f, c, did) ==
      if IsActiveDid(g.log, did) then SyncProtocol.VALID else SyncProtocol.NOT_FOUND
  {
    if IsActiveDid(g.log, did) {
      var r :| r in g.log && r.IsActive() && r.did == Text(did);
      var k := ActiveIndex(w.sha, g.log, c.identities, r);
      ProofClimbs(w, g, c, k);
    } else {
      NotListed(w.sha, g.log, c.identities, did);
      NowhereFound(c.identities, did);
    }
  }

  lemma {:induction false} NotListed(sha: Hash, log: seq<Record>, es: seq<IdentityEntry>, did: ByteString)
    requires DistinctDids(log) && !IsActiveDid(log, did) && |es| == |SortedActive(log)|
    requires forall i :: 0 <= i < |es| ==> EntryOf(sha, es[i], SortedActive(log), i)
    ensures forall i :: 0 <= i < |es| ==> es[i].record.did != Text(did)
  {
    var a := SortedActive(log);
    SortedActiveFacts(log);
    forall i | 0 <= i < |es| ensures es[i].record.did != Text(did) {
      assert EntryOf(sha, es[i], a, i);
      assert a[i] in a;
    }
  }

  /** A bundle in which the check finds what was generated, signed by all. */
  ghost predicate IsGenerated(w: World, g: Generation, c: TrustBundle) {
    Recovered(w, g, c) && SignedByAll(w, c, g.threshold, g.now + g.grace)
  }

  lemma {:induction false} RecoveredByBrowser(w: World, g: Generation, vs: seq<Validator>, m: Value)
    returns (c: TrustBundle)
    requires ProperGeneration(w, g, vs) && IsPublished(w.sha, g, vs, m)
    ensures Js.DecodeBundle(FromCbor(m), false) == Js.Ok(JsBundleOf(c))
    ensures IsGenerated(w, g, c)
  {
    var j;
    c, j := PublishedAgrees(w, g, vs, m, false);
    var same := ReadGenerated(w, g, vs, m);
    IsRecovered(w, g, vs, c);
  }

  lemma {:induction false} StillGood(w: World, f: Js.Platform, g: Generation, c: TrustBundle, now: int)
    requires 0 <= g.now + g.grace && SignedByAll(w, c, g.threshold, g.now + g.grace) && now <= g.now + g.grace
    ensures !Js.Exceeds(f, now, FromCbor(c.expiresAt)) && !Js.LessThan(f, |c.signatures|, FromCbor(c.threshold))
  {
    NotPastNorShort(f, g.threshold, |c.signatures|, g.now + g.grace, now);
  }

  lemma {:induction false} ClientAnswers(
      w: World, f: Js.Platform, g: Generation, c: TrustBundle, did: ByteString, now: int)
    requires IsGenerated(w, g, c) && DistinctDids(g.log) && f.sha == w.sha && now <= g.now + g.grace
    ensures ClientVerify(f, Some(Stored(c)), did, now) ==
      if IsActiveDid(g.log, did) then SyncProtocol.VALID else SyncProtocol.NOT_FOUND
  {
    StillGood(w, f, g, c, now);
    ClientLooksUp(f, c, did, now);
    LookUpRecovered(w, f, g, c, did);
  }

  /** The document of a proper generation, decoded by the service worker, validated and answered for. */
  lemma {:induction false} GeneratedIsAnswered(
      w: World, g: Generation, vs: seq<Validator>, m: Value, f: Js.Platform, now: int, did: ByteString, later: int)
    returns (c: TrustBundle)
    requires ProperGeneration(w, g, vs) && IsPublished(w.sha, g, vs, m)
    requires ChecksAlike(w, f.check) && f.sha == w.sha && now < g.now + g.grace && later <= g.now + g.grace
    ensures Js.DecodeBundle(FromCbor(m), false) == Js.Ok(JsBundleOf(c))
    ensures Js.Validated(f, JsBundleOf(c), now) == Js.Ok(Stored(c))
    ensures ClientVerify(f, Some(Stored(c)), did, later) ==
      if IsActiveDid(g.log, did) then SyncProtocol.VALID else SyncProtocol.NOT_FOUND
  {
    c := RecoveredByBrowser(w, g, vs, m);
    ValidatesGenerated(w, f, g, c, now);
    ClientAnswers(w, f, g, c, did, later);
  }

  /** A page that will take up the update: one that starts, or one that listens and has no other message first
      in its inbox. */
  ghost predicate WillLoad(p: Page, first: Step) {
    first == PageInit ||
    (first == PageReceive && p.listening && (p.inbox == [] || p.inbox[0].BundleUpdated?))
  }

  /** End-to-end completeness in the browser: in any state that a run can reach, whatever is stored and whatever
      the page holds, if a sync is called and fetches a generated bundle before it expires, then a page that
      starts or listens loads it, and until the bundle expires the client answers VALID for every active DID
      of the log, and NOT_FOUND for every other. */
  lemma {:induction false} ClientComplete(
      w: World, g: Generation, vs: seq<Validator>, m: Value, f: Js.Platform, before: seq<Step>, now: int, first: Step,
      did: ByteString, later: int) returns (raw: Js.JsBundle)
    requires ProperGeneration(w, g, vs) && IsPublished(w.sha, g, vs, m)
    requires ChecksAlike(w, f.check) && f.sha == w.sha && now < g.now + g.grace && later <= g.now + g.grace
    requires Legal(f, START, before) && !Run(f, START, before).worker.flag
    requires WillLoad(Run(f, START, before).page, first)
    ensures Js.DecodeBundle(FromCbor(m), false) == Js.Ok(raw)
    ensures var s := Run(f, START, before);
      var sync := Intake(s.worker.started, raw, now) + Storing(s.worker.started);
      var load := LoadSteps(first, s.page.asked);
      && Legal(f, s, sync + load)
      && ClientVerify(f, Run(f, s, sync + load).page.bundle, did, later) ==
           if IsActiveDid(g.log, did) then SyncProtocol.VALID else SyncProtocol.NOT_FOUND
  {
    var c := GeneratedIsAnswered(w, g, vs, m, f, now, did, later);
    raw := JsBundleOf(c);
    RunKeeps(f, START, before);
    SyncAndLoad(f, Run(f, START, before), raw, Stored(c), now, first);
  }

  lemma {:induction false} SyncAndLoad(
      f: Js.Platform, s: State, raw: Js.JsBundle, b: Js.JsBundle, now: int, first: Step)
    requires Guarded(s.worker) && !s.worker.flag && Js.Validated(f, raw, now) == Js.Ok(b) && WillLoad(s.page, first)
    ensures var sync := Intake(s.worker.started, raw, now) + Storing(s.worker.started);
      var load := LoadSteps(first, s.page.asked);
      Legal(f, s, sync + load) && Run(f, s, sync + load).page.bundle == Some(b)
  {
    var id := s.worker.started;
    Syncs(f, s, raw, b, now);
    Reloads(f, Synced(s, id, b), first);
    RunAppend(f, s, Intake(id, raw, now) + Storing(id), LoadSteps(first, s.page.asked));
  }

  // ----- soundness applies

  lemma {:induction false} CountsAt(w: World, f: Js.Platform, c: TrustBundle, k: nat)
    requires k < |c.signatures| && Valid(SigningValue(c)) && ChecksAlike(w, f.check)
    requires w.check(c.signatures[k].publicKey, SigningBytes(c), c.signatures[k].signature)
    ensures JsSound.Counts(f, Stored(c), k)
    ensures Encode(ToCbor(Js.Payload(Stored(c))).value) == SigningBytes(c)
  {
    PayloadIsSigningValue(c);
    assert Js.Payload(Stored(c)) == Js.Payload(JsBundleOf(c));
    assert Stored(c).signatures[k] == JsSignatureOf(c.signatures[k]);
  }

  /** What is stored of a generated bundle meets the hypotheses of soundness: each validator's signature
      counts and is no forgery, if what the validator has signed is this bundle's payload and any digests
      of enrolments. */
  lemma {:induction false} StoredIsUnforged(
      w: World, g: Generation, vs: seq<Validator>, m: Value, f: Js.Platform, k: nat, digests: set<ByteString>,
      history: set<Generation>) returns (c: TrustBundle)
    requires ProperGeneration(w, g, vs) && IsPublished(w.sha, g, vs, m) && ChecksAlike(w, f.check)
    requires k < |vs| && g in history && forall d :: d in digests ==> |d| == 32
    ensures Js.DecodeBundle(FromCbor(m), false) == Js.Ok(JsBundleOf(c))
    ensures var signed := digests + {SigningBytes(Unsigned(w.sha, g))};
      && JsSound.Counts(f, Stored(c), k) && JsSound.Unforged(f, Stored(c), k, signed)
      && VerifySound.SignsOnlyBundles(w, signed, history)
  {
    var j;
    c, j := PublishedAgrees(w, g, vs, m, false);
    CountsAt(w, f, c, k);
    SigningValueValid(Signed(w.sha, g, vs));
    PayloadIsHonest(w, g, digests, history);
  }
}
