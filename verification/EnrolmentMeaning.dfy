/** What the enrolment commands do and answer, case by case, and where a promotion leads: to a bundle that
    vouches for the DID under the key of the request. */
module EnrolmentMeaning {
  import opened Bytes
  import opened Cbor
  import opened Models
  import opened PyValues
  import opened LedgerSpec
  import opened EnrolmentSpec
  import opened EnrolmentRuns
  import Base64
  import CborLaws
  import Bundle
  import Publication
  import Verify
  import VerifyComplete

  // ----- the store

  /** A new request is pending, open and unsigned, from now until its time to live has passed; a credential
      id that any request has is refused. No other file changes. */
  lemma {:induction false} CreateIff(
      d: Dirs, id: ByteString, did: ByteString, key: ByteString, cred: ByteString, now: int, ttl: int)
    ensures var (after, r) := Created(d, NewRequest(id, did, key, cred, now, ttl));
      && (r.None? <==> (exists i :: i in d.pending && d.pending[i].credentialId == cred) ||
                        (exists i :: i in d.promoted && d.promoted[i].credentialId == cred))
      && (r.None? ==> after == d)
      && (r.Some? ==> after.promoted == d.promoted && after.pending == d.pending[id := r.value] && IsNew(
            r.value, id, did, key, cred, now, ttl))
  {
    assert cred in CredentialIds(d) <==> cred in IdsIn(d.pending) || cred in IdsIn(d.promoted);
  }

  ghost predicate IsNew(
      r: Request, id: ByteString, did: ByteString, key: ByteString, cred: ByteString, now: int, ttl: int)
  {
    && r.id == id && r.did == did && r.publicKeyHex == key && r.credentialId == cred
    && r.submittedAt == now && r.expiresAt == now + ttl && r.status == Open && r.signatures == []
  }

  /** `add_signature` signs the pending file, or if there is none a copy of the promoted one, which it leaves
      alone; the copy is as closed as that. */
  lemma {:induction false} AddSignatureMeans(d: Dirs, id: ByteString, s: ValidatorSig)
    requires Orderly(d)
    ensures var (after, r) := SignatureAdded(d, id, s);
      && (r.None? <==> id !in d.pending && id !in d.promoted) && (r.None? ==> after == d)
      && after.promoted == d.promoted
      && (id in d.pending ==>
            after.pending == d.pending[id := d.pending[id].(signatures := d.pending[id].signatures + [s])])
      && (id !in d.pending && id in d.promoted ==>
            after.pending == d.pending[id := d.promoted[id].(signatures := d.promoted[id].signatures + [s])] &&
            after.pending[id].status == Closed)
  {
  }

  /** `promote` closes the request and moves it; whatever it is, it can be promoted. */
  lemma {:induction false} StorePromoteMeans(d: Dirs, id: ByteString)
    ensures var (after, r) := StorePromoted(d, id);
      && (r.None? <==> id !in d.pending && id !in d.promoted) && (r.None? ==> after == d)
      && (r.Some? ==> r.value.status == Closed && after.promoted == d.promoted[id := r.value])
      && (r.Some? ==> after.pending.Keys == d.pending.Keys - {id})
      && (forall i :: i in d.pending && i != id ==> i in after.pending && after.pending[i] == d.pending[i])
      && (id in d.pending ==> r == Some(d.pending[id].(status := Closed)))
      && (id !in d.pending && id in d.promoted ==> r == Some(d.promoted[id].(status := Closed)))
  {
  }

  // ----- the commands

  /** No file but the one at `path` has changed. */
  ghost predicate OnlyAt(before: Dirs, after: Dirs, path: Path) {
    forall p :: p != path ==> At(after, p) == At(before, p)
  }

  ghost predicate IsOpen(d: Dirs, path: Path) { At(d, path).Some? && At(d, path).value.status == Open }

  /** The entry is the validator's signature over the request's payload, in hexadecimal. */
  ghost predicate IsEntryOf(sha: Hash, r: Request, v: Validator, at: int, s: ValidatorSig) {
    && s.name == v.did && s.signedAt == at
    && Base64.FromHex(Characters(s.signatureHex)) == Some(v.sign(SigningPayload(sha, r)))
  }

  ghost predicate SignsFor(d: Dirs, path: Path, v: Validator, checkedAt: int) {
    && IsOpen(d, path) && checkedAt <= At(d, path).value.expiresAt
    && forall i :: 0 <= i < |At(d, path).value.signatures| ==> At(d, path).value.signatures[i].name != v.did
  }

  /** `enrol_sign`: the first check that fails is reported and nothing is written; if none does, the
      validator's signature is appended. */
  lemma {:induction false} SignTable(sha: Hash, d: Dirs, path: Path, v: Validator, checkedAt: int, signedAt: int)
    ensures var (after, result) := Signed(sha, d, path, v, checkedAt, signedAt);
      && (result == NoFile <==> At(d, path).None?)
      && (result == NotPending <==> At(d, path).Some? && !IsOpen(d, path))
      && (result == Expired <==> IsOpen(d, path) && checkedAt > At(d, path).value.expiresAt)
      && (result == AlreadySigned <==>
            IsOpen(d, path) && checkedAt <= At(d, path).value.expiresAt && !SignsFor(d, path, v, checkedAt))
      && (result == Finished <==> SignsFor(d, path, v, checkedAt))
      && (result != Finished ==> after == d)
      && (result == Finished ==> OnlyAt(d, after, path) && HasSignedNow(sha, d, after, path, v, signedAt))
  {
    if At(d, path).Some? { KeyReadBack(v.sign(SigningPayload(sha, At(d, path).value))); }
  }

  ghost predicate HasSignedNow(sha: Hash, d: Dirs, after: Dirs, path: Path, v: Validator, signedAt: int)
    requires At(d, path).Some?
  {
    var r := At(d, path).value;
    exists s :: IsEntryOf(sha, r, v, signedAt, s) && At(after, path) == Some(r.(signatures := r.signatures + [s]))
  }

  /** `enrol_promote`: the first check that fails is reported. Ledger and files change only if all pass and
      ledger and key parse; then the request is closed and moved, and no other file changes. */
  lemma {:induction false} PromoteTable(
      w: World, d: Dirs, file: File, path: Path, threshold: int, vs: seq<Validator>,
      auto: ByteString -> Option<ByteString>, now: int)
    requires Orderly(d)
    ensures var (after, ledger, result) := EnrolPromoted(w, d, file, path, threshold, vs, auto, now);
      && (result == NoFile <==> At(d, path).None?)
      && (result == NotPending <==> At(d, path).Some? && !IsOpen(d, path))
      && (result == Expired <==> IsOpen(d, path) && now > At(d, path).value.expiresAt)
      && (result != Finished ==> after == d && ledger == file) && result != AlreadySigned
      && (IsOpen(d, path) && now <= At(d, path).value.expiresAt ==>
            var r := At(d, path).value;
            var n := |ValidSigners(JudgeFor(w, r, vs, auto), r.signatures)|;
            && (n < threshold <==> result.TooFewSignatures?)
            && (n < threshold ==> result == TooFewSignatures(n, threshold))
            && (result == Finished <==> n >= threshold && Ready(file, r, now))
            && (result == Crashed <==> n >= threshold && !Ready(file, r, now)))
      && (result == Finished ==> path.InPending? && after.pending == d.pending - {path.id})
      && (result == Finished ==> after.promoted == d.promoted[path.id := At(d, path).value.(status := Closed)])
  {
    if IsOpen(d, path) {
      FinishesIff(w, d, file, path, threshold, vs, auto, now);
      MovedKeeps(d, path, At(d, path).value);
    }
  }

  // ----- what is signed

  /** The bytes that are hashed and signed: the encoding of the request's DID, id and key, under these names. */
  lemma {:induction false} PayloadByName(sha: Hash, r: Request)
    ensures exists v :: SigningPayload(sha, r) == sha(Encode(v)) && NamesPayload(v, r)
  {
    PayloadNames();
    var vals, v := [Text(r.did), Text(r.id), Text(r.publicKeyHex)], PayloadValue(r);
    Publication.FieldNamed(PAYLOAD, vals, 0, "did", Text(r.did));
    Publication.FieldNamed(PAYLOAD, vals, 1, "id", Text(r.id));
    Publication.FieldNamed(PAYLOAD, vals, 2, "pubkey", Text(r.publicKeyHex));
    assert SigningPayload(sha, r) == sha(Encode(v)) && NamesPayload(v, r);
  }

  ghost predicate NamesPayload(v: Value, r: Request) {
    && Item(v, "did") == Ok(Text(r.did)) && Item(v, "id") == Ok(Text(r.id))
    && Item(v, "pubkey") == Ok(Text(r.publicKeyHex)) && |v.entries| == 3
  }

  // ----- from the request to the bundle

  /** A promoted DID that was new is valid in every bundle that is generated from the ledger until it expires,
      under the key of the request and with the verified signers as issuers. */
  lemma {:induction false} PromotedIsValid(
      w: World, d: Dirs, file: File, path: Path, threshold: int, vs: seq<Validator>,
      auto: ByteString -> Option<ByteString>, now: int,
      g: Bundle.Generation, validators: seq<Validator>, m: Value, later: real) returns (found: Record)
    requires Orderly(d) && EnrolPromoted(w, d, file, path, threshold, vs, auto, now).2 == Finished
    requires var r := At(d, path).value; !HasDid(Ledger(file).value, Text(r.did))
    requires Ledger(EnrolPromoted(w, d, file, path, threshold, vs, auto, now).1) == Ok(g.log)
    requires VerifyComplete.Proper(w, g, validators, m) && later < (g.now + g.grace) as real
    ensures var r := At(d, path).value;
      && Verify.VerifyFile(w, Encode(Bundle.PublishedValue(Bundle.Signed(w.sha, g, validators))), r.did, later) ==
           Verify.Result(Verify.VALID, UInt(g.now + g.grace), Some(found))
      && Base64.FromHex(Characters(r.publicKeyHex)) == Some(found.publicKey)
      && IsIssuedBy(found, ValidSigners(JudgeFor(w, r, vs, auto), r.signatures))
  {
    var r := At(d, path).value;
    var signers := ValidSigners(JudgeFor(w, r, vs, auto), r.signatures);
    FinishedMeans(w, d, file, path, threshold, vs, auto, now);
    var x := g.log[|Ledger(file).value|];
    assert x in g.log;
    found := VerifyComplete.GeneratedIsValid(w, g, validators, m, x, later);
    SameKeyAndIssuers(found, x, signers);
  }

  ghost predicate IsIssuedBy(r: Record, signers: seq<ByteString>) {
    |r.issuedBy| == |signers| && forall i :: 0 <= i < |signers| ==> r.issuedBy[i] == Text(signers[i])
  }

  lemma {:induction false} SameKeyAndIssuers(found: Record, x: Record, signers: seq<ByteString>)
    requires VerifyComplete.SameRecord(found, x) && IsIssuedBy(x, signers)
    ensures found.publicKey == x.publicKey && IsIssuedBy(found, signers)
  {
    var f, e := Bundle.RecordFields(found), Bundle.RecordFields(x);
    assert CborLaws.Same(f[4], e[4]) && CborLaws.Same(f[2], e[2]);
    forall i | 0 <= i < |signers| ensures found.issuedBy[i] == Text(signers[i]) {
      assert CborLaws.Same(f[2].items[i], e[2].items[i]);
    }
  }
}
