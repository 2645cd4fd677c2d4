/** Whole lives of the enrolment directories: what a promotion proves about who signed, and which
    requests may share a credential. */
module EnrolmentRuns {
  import opened Bytes
  import opened Sorting
  import opened Cbor
  import opened CborLaws
  import opened Fields
  import opened Models
  import Bundle
  import opened LedgerSpec
  import opened EnrolmentSpec
  import LedgerRuns

  datatype State = State(dirs: Dirs, ledger: File)

  datatype Step =
    | Create(id: ByteString, did: ByteString, key: ByteString, cred: ByteString, now: int, ttl: int)
    | AddSignature(id: ByteString, sig: ValidatorSig)
    | StorePromote(id: ByteString)
    | Sign(path: Path, v: Validator, checkedAt: int, signedAt: int)
    | Promote(path: Path, threshold: int, vs: seq<Validator>, auto: ByteString -> Option<ByteString>, now: int)
    | LedgerChange(file: File)

  function Apply(w: World, s: State, step: Step): State {
    match step
    case Create(id, did, key, cred, now, ttl) => s.(dirs := Created(s.dirs, NewRequest(id, did, key, cred, now, ttl)).0)
    case AddSignature(id, sig) => s.(dirs := SignatureAdded(s.dirs, id, sig).0)
    case StorePromote(id) => s.(dirs := StorePromoted(s.dirs, id).0)
    case Sign(path, v, checkedAt, signedAt) => s.(dirs := Signed(w.sha, s.dirs, path, v, checkedAt, signedAt).0)
    case Promote(path, threshold, vs, auto, now) =>
      var (dirs, file, _) := EnrolPromoted(w, s.dirs, s.ledger, path, threshold, vs, auto, now);
      State(dirs, file)
    case LedgerChange(file) => s.(ledger := file)
  }

  /** A new request has a new id; the two clock readings of `enrol_sign` are at
      most `lag` seconds apart. */
  ghost predicate Allowed(d: Dirs, step: Step, lag: nat) {
    match step
    case Create(id, _, _, _, _, _) => id !in d.pending && id !in d.promoted
    case Sign(_, _, checkedAt, signedAt) => checkedAt <= signedAt <= checkedAt + lag
    case _ => true
  }

  function Run(w: World, s: State, steps: seq<Step>): State
    decreases |steps|
  {
    if steps == [] then s else Run(w, Apply(w, s, steps[0]), steps[1..])
  }

  ghost predicate AllowedRun(w: World, s: State, steps: seq<Step>, lag: nat)
    decreases |steps|
  {
    steps == [] || (Allowed(s.dirs, steps[0], lag) && AllowedRun(w, Apply(w, s, steps[0]), steps[1..], lag))
  }

  const EMPTY := State(Dirs(map[], map[]), Absent)

  // ----- what every step keeps

  ghost predicate SameRequest(a: Request, b: Request) {
    a.id == b.id && a.did == b.did && a.publicKeyHex == b.publicKeyHex && a.credentialId == b.credentialId &&
    a.expiresAt == b.expiresAt
  }

  /** Files are named by id, what is in the promoted directory is closed, and two copies of a
      request are copies. */
  ghost predicate Orderly(d: Dirs) {
    && (forall id :: id in d.pending ==> d.pending[id].id == id)
    && (forall id :: id in d.promoted ==> d.promoted[id].id == id && d.promoted[id].status == Closed)
    && (forall id :: id in d.pending && id in d.promoted ==> SameRequest(d.pending[id], d.promoted[id]))
  }

  ghost predicate DistinctCredentials(d: Dirs) {
    forall i, j :: Found(d, i).Some? && Found(d, j).Some? && i != j ==>
      Found(d, i).value.credentialId != Found(d, j).value.credentialId
  }

  ghost predicate DistinctSigners(r: Request) {
    forall i, j :: 0 <= i < j < |r.signatures| ==> r.signatures[i].name != r.signatures[j].name
  }

  ghost predicate InTime(r: Request, lag: nat) {
    forall i :: 0 <= i < |r.signatures| ==> r.signatures[i].signedAt <= r.expiresAt + lag
  }

  ghost predicate Proper(r: Request, lag: nat) { DistinctSigners(r) && InTime(r, lag) }

  /** Every copy of the request has distinct signers, none of them late. */
  ghost predicate Clean(d: Dirs, id: ByteString, lag: nat) {
    (id in d.pending ==> Proper(d.pending[id], lag)) && (id in d.promoted ==> Proper(d.promoted[id], lag))
  }

  lemma {:induction false} CredentialsCover(d: Dirs, id: ByteString)
    requires Found(d, id).Some?
    ensures Found(d, id).value.credentialId in CredentialIds(d)
  {
  }

  /** Replacing copies of one request by copies of it disturbs nothing. */
  ghost predicate SameRequests(d: Dirs, d': Dirs) {
    forall id :: Found(d, id).Some? == Found(d', id).Some? &&
      (Found(d, id).Some? ==> SameRequest(Found(d, id).value, Found(d', id).value))
  }

  lemma {:induction false} SameRequestsDistinct(d: Dirs, d': Dirs)
    requires DistinctCredentials(d) && SameRequests(d, d')
    ensures DistinctCredentials(d')
  {
    forall i, j | Found(d', i).Some? && Found(d', j).Some? && i != j
      ensures Found(d', i).value.credentialId != Found(d', j).value.credentialId
    {
      assert SameRequest(Found(d, i).value, Found(d', i).value) && SameRequest(Found(d, j).value, Found(d', j).value);
    }
  }

  lemma {:induction false} CreateKeeps(d: Dirs, r: Request)
    requires Orderly(d) && DistinctCredentials(d) && r.id !in d.pending && r.id !in d.promoted
    ensures Orderly(Created(d, r).0) && DistinctCredentials(Created(d, r).0)
  {
    if r.credentialId !in CredentialIds(d) {
      var d' := Created(d, r).0;
      forall i | i != r.id ensures Found(d', i) == Found(d, i) {}
      forall i | Found(d, i).Some? ensures Found(d, i).value.credentialId != r.credentialId { CredentialsCover(d, i); }
    }
  }

  lemma {:induction false} MovedKeeps(d: Dirs, path: Path, r: Request)
    requires Orderly(d) && At(d, path) == Some(r) && r.status == Open
    ensures path.InPending?
    ensures var d' := Dirs(d.pending - {path.id}, d.promoted[path.id := r.(status := Closed)]);
      Orderly(d') && SameRequests(d, d')
  {
  }

  lemma {:induction false} SignKeeps(sha: Hash, d: Dirs, path: Path, v: Validator, checkedAt: int, signedAt: int)
    requires Orderly(d)
    ensures var d' := Signed(sha, d, path, v, checkedAt, signedAt).0; Orderly(d') && SameRequests(d, d')
  {
  }

  lemma {:induction false} StepKeeps(w: World, s: State, step: Step, lag: nat)
    requires Orderly(s.dirs) && DistinctCredentials(s.dirs) && Allowed(s.dirs, step, lag)
    ensures Orderly(Apply(w, s, step).dirs) && DistinctCredentials(Apply(w, s, step).dirs)
  {
    var d, d' := s.dirs, Apply(w, s, step).dirs;
    match step {
      case Create(id, did, key, cred, now, ttl) => CreateKeeps(d, NewRequest(id, did, key, cred, now, ttl));
      case AddSignature(id, sig) => assert SameRequests(d, d');
      case StorePromote(id) => assert SameRequests(d, d');
      case Sign(path, v, checkedAt, signedAt) => SignKeeps(w.sha, d, path, v, checkedAt, signedAt);
      case Promote(path, threshold, vs, auto, now) =>
        if d' != d { MovedKeeps(d, path, At(d, path).value); }
      case LedgerChange(_) =>
    }
    if !step.Create? { SameRequestsDistinct(d, d'); }
  }

  /** Distinct request ids never share a credential id. */
  lemma {:induction false} RunKeeps(w: World, s: State, steps: seq<Step>, lag: nat)
    requires Orderly(s.dirs) && DistinctCredentials(s.dirs) && AllowedRun(w, s, steps, lag)
    ensures Orderly(Run(w, s, steps).dirs) && DistinctCredentials(Run(w, s, steps).dirs)
    decreases |steps|
  {
    if steps == [] {
    } else {
      StepKeeps(w, s, steps[0], lag);
      RunKeeps(w, Apply(w, s, steps[0]), steps[1..], lag);
    }
  }

  // ----- requests that are signed only by the command

  lemma {:induction false} SignedIsProper(r: Request, s: ValidatorSig, lag: nat)
    requires Proper(r, lag) && !HasSigned(r.signatures, s.name) && s.signedAt <= r.expiresAt + lag
    ensures Proper(WithSignature(r, s), lag)
  {
  }

  lemma {:induction false} StepKeepsClean(w: World, s: State, step: Step, id: ByteString, lag: nat)
    requires Orderly(s.dirs) && Clean(s.dirs, id, lag) && Allowed(s.dirs, step, lag)
    requires step.AddSignature? ==> step.id != id
    ensures Clean(Apply(w, s, step).dirs, id, lag)
  {
    if step.Sign? { SignKeepsClean(w.sha, s.dirs, step.path, step.v, step.checkedAt, step.signedAt, id, lag); }
  }

  lemma {:induction false} SignKeepsClean(
      sha: Hash, d: Dirs, path: Path, v: Validator, checkedAt: int, signedAt: int, id: ByteString, lag: nat)
    requires Clean(d, id, lag) && checkedAt <= signedAt <= checkedAt + lag
    ensures Clean(Signed(sha, d, path, v, checkedAt, signedAt).0, id, lag)
  {
    if Signed(sha, d, path, v, checkedAt, signedAt).1 == Finished && path.id == id {
      var r := At(d, path).value;
      SignedIsProper(r, ValidatorSig(v.did, Ascii(Base64.Hex(v.sign(SigningPayload(sha, r)))), signedAt), lag);
    }
  }

  ghost predicate NeverAdded(steps: seq<Step>, id: ByteString) {
    forall k :: 0 <= k < |steps| && steps[k].AddSignature? ==> steps[k].id != id
  }

  /** A request that is signed only through `enrol_sign` keeps pairwise distinct signers, none of
      whom signed later than the two clock readings of a command can differ after expiry; with one
      reading a command (`lag == 0`), none signed after it at all. */
  lemma {:induction false} StaysClean(w: World, s: State, steps: seq<Step>, id: ByteString, lag: nat)
    requires Orderly(s.dirs) && DistinctCredentials(s.dirs) && Clean(s.dirs, id, lag)
    requires AllowedRun(w, s, steps, lag) && NeverAdded(steps, id)
    ensures Clean(Run(w, s, steps).dirs, id, lag)
    decreases |steps|
  {
    if steps == [] {
    } else {
      StepKeeps(w, s, steps[0], lag);
      StepKeepsClean(w, s, steps[0], id, lag);
      assert forall k :: 0 <= k < |steps[1..]| ==> steps[1..][k] == steps[k + 1];
      StaysClean(w, Apply(w, s, steps[0]), steps[1..], id, lag);
    }
  }

  // ----- promotion

  /** The signers with a signature that counts, each of them once. */
  ghost function VerifiedSigners(good: ValidatorSig -> bool, sigs: seq<ValidatorSig>): set<ByteString> {
    set i | 0 <= i < |sigs| && good(sigs[i]) :: sigs[i].name
  }

  /** No signer has two signatures that count. */
  ghost predicate EachOnce(good: ValidatorSig -> bool, sigs: seq<ValidatorSig>) {
    forall i, j :: 0 <= i < j < |sigs| && good(sigs[i]) && good(sigs[j]) ==> sigs[i].name != sigs[j].name
  }

  lemma {:induction false} VerifiedNext(good: ValidatorSig -> bool, sigs: seq<ValidatorSig>)
    requires sigs != []
    ensures var n := |sigs| - 1;
      VerifiedSigners(good, sigs) ==
      VerifiedSigners(good, sigs[..n]) + if good(sigs[n]) then {sigs[n].name} else {}
  {
    var n := |sigs| - 1;
    var all, before := VerifiedSigners(good, sigs), VerifiedSigners(good, sigs[..n]);
    forall x | x in before ensures x in all {
      var i :| 0 <= i < n && good(sigs[..n][i]) && sigs[..n][i].name == x;
      assert sigs[i] == sigs[..n][i];
    }
    forall x | x in all ensures x in before || (x == sigs[n].name && good(sigs[n])) {
      var i :| 0 <= i <= n && good(sigs[i]) && sigs[i].name == x;
      if i < n { assert sigs[..n][i] == sigs[i]; }
    }
  }

  lemma {:induction false} OnceNext(good: ValidatorSig -> bool, sigs: seq<ValidatorSig>)
    requires sigs != []
    ensures var n := |sigs| - 1;
      EachOnce(good, sigs) <==>
      EachOnce(good, sigs[..n]) && (good(sigs[n]) ==> sigs[n].name !in VerifiedSigners(good, sigs[..n]))
  {
    var n := |sigs| - 1;
    if EachOnce(good, sigs[..n]) && (good(sigs[n]) ==> sigs[n].name !in VerifiedSigners(good, sigs[..n])) {
      forall i, j | 0 <= i < j < |sigs| && good(sigs[i]) && good(sigs[j]) ensures sigs[i].name != sigs[j].name {
        assert sigs[..n][i] == sigs[i];
        if j < n { assert sigs[..n][j] == sigs[j]; }
      }
    }
    if EachOnce(good, sigs) {
      forall i, j | 0 <= i < j < n && good(sigs[..n][i]) && good(sigs[..n][j])
        ensures sigs[..n][i].name != sigs[..n][j].name
      {
        assert sigs[i].name != sigs[j].name;
      }
      forall x | x in VerifiedSigners(good, sigs[..n]) ensures good(sigs[n]) ==> x != sigs[n].name {
        var i :| 0 <= i < n && good(sigs[..n][i]) && sigs[..n][i].name == x;
        assert sigs[i] == sigs[..n][i];
      }
    }
  }

  lemma {:induction false} SameSigners(good: ValidatorSig -> bool, sigs: seq<ValidatorSig>)
    ensures forall x :: x in ValidSigners(good, sigs) <==> x in VerifiedSigners(good, sigs)
  {
    if sigs == [] {
    } else {
      SameSigners(good, sigs[..|sigs| - 1]);
      VerifiedNext(good, sigs);
    }
  }

  /** The count that `enrol_promote` compares with the threshold is that of the different verified
      signers exactly if no signer has two signatures that count; otherwise it is too high. */
  lemma {:induction false} CountIsRightIff(good: ValidatorSig -> bool, sigs: seq<ValidatorSig>)
    ensures |ValidSigners(good, sigs)| >= |VerifiedSigners(good, sigs)|
    ensures |ValidSigners(good, sigs)| == |VerifiedSigners(good, sigs)| <==> EachOnce(good, sigs)
  {
    if sigs == [] {
    } else {
      CountIsRightIff(good, sigs[..|sigs| - 1]);
      VerifiedNext(good, sigs);
      OnceNext(good, sigs);
    }
  }

  lemma {:induction false} NoneAtFirst(id: ByteString, lag: nat)
    ensures Orderly(EMPTY.dirs) && DistinctCredentials(EMPTY.dirs) && Clean(EMPTY.dirs, id, lag)
  {
  }

  /** What a promotion asks for, the signers aside. */
  ghost predicate Ready(ledger: File, r: Request, now: int) {
    r.status == Open && now <= r.expiresAt && Ledger(ledger).Ok? && Base64.FromHex(Characters(r.publicKeyHex)).Some?
  }

  /** The ledger has grown by one record at its end: active, for the request's DID and with the key that
      its hexadecimal text stands for, without an end of validity, at a block above all others, issued by
      those signers, and with the request's credential id and id in its metadata. */
  ghost predicate Enrols(before: seq<Record>, after: seq<Record>, r: Request, signers: seq<ByteString>) {
    && |after| == |before| + 1 && after[..|before|] == before
    && IsEnrolled(after[|before|], before, r, signers)
  }

  ghost predicate IsEnrolled(x: Record, before: seq<Record>, r: Request, signers: seq<ByteString>) {
    && x.did == Text(r.did) && x.revokedAt == Null && x.validUntil == Null
    && Base64.FromHex(Characters(r.publicKeyHex)) == Some(x.publicKey)
    && x.issuedAt.UInt? && (before == [] ==> x.issuedAt.n == 1000) && (forall y :: y in before ==> Bundle.BlockOf(y) < x.issuedAt.n)
    && |x.issuedBy| == |signers| && (forall i :: 0 <= i < |signers| ==> x.issuedBy[i] == Text(signers[i]))
    && Lookup(x.metadata, Ascii("credential_id")) == Some(Text(r.credentialId))
    && Lookup(x.metadata, Ascii("enrolment_id")) == Some(Text(r.id)) && |x.metadata| == 2
  }

  /** The ledger file holds the ledger with the DID in it: as it was if it held that already. */
  ghost predicate EnrolsIn(before: File, after: File, r: Request, signers: seq<ByteString>) {
    && Ledger(before).Ok? && Ledger(after).Ok?
    && if HasDid(Ledger(before).value, Text(r.did)) then Ledger(after) == Ledger(before)
       else Enrols(Ledger(before).value, Ledger(after).value, r, signers)
  }

  lemma {:induction false} MetadataByName(r: Request)
    ensures Lookup(MetadataOf(r), Ascii("credential_id")) == Some(Text(r.credentialId))
    ensures Lookup(MetadataOf(r), Ascii("enrolment_id")) == Some(Text(r.id))
  {
    var es := MetadataOf(r);
    MetadataNames();
    FieldKeysDistinct(METADATA, [Text(r.credentialId), Text(r.id)]);
    LookupAt(es, 0);
    LookupAt(es, 1);
  }

  lemma {:induction false} MetadataNames() ensures GoodNames(METADATA) {}

  lemma {:induction false} PromotedEnrols(log: seq<Record>, r: Request, key: ByteString, signers: seq<ByteString>)
    requires Base64.FromHex(Characters(r.publicKeyHex)) == Some(key)
    ensures var after := Promoted(log, Text(r.did), key, MapSeq(TextOf, signers), MetadataOf(r));
      if HasDid(log, Text(r.did)) then after == log else Enrols(log, after, r, signers)
  {
    MetadataByName(r);
    LedgerRuns.NextBlockFollows(log);
  }

  lemma {:induction false} EntersIff(file: File, r: Request, signers: seq<ByteString>)
    ensures !Entered(file, r, signers).1 <==> Ledger(file).Ok? && Base64.FromHex(Characters(r.publicKeyHex)).Some?
    ensures !Entered(file, r, signers).1 ==> EnrolsIn(file, Entered(file, r, signers).0, r, signers)
  {
    var texts := MapSeq(TextOf, signers);
    AllJsonIff(texts);
    EntriesJsonIff(MetadataOf(r));
    match (Ledger(file), Base64.FromHex(Characters(r.publicKeyHex)))
    case (Ok(log), Some(key)) =>
      PromotedFileHolds(file, Text(r.did), key, texts, MetadataOf(r));
      PromotedEnrols(log, r, key, signers);
    case _ =>
  }

  /** When `enrol_promote` goes through, for any request in any directories: the signatures that
      count, not the signers, must reach the threshold. */
  lemma {:induction false} FinishesIff(
      w: World, d: Dirs, file: File, path: Path, threshold: int, vs: seq<Validator>,
      auto: ByteString -> Option<ByteString>, now: int)
    requires At(d, path).Some?
    ensures var r := At(d, path).value;
      EnrolPromoted(w, d, file, path, threshold, vs, auto, now).2 == Finished <==>
      Ready(file, r, now) && |ValidSigners(JudgeFor(w, r, vs, auto), r.signatures)| >= threshold
  {
    var r := At(d, path).value;
    EntersIff(file, r, ValidSigners(JudgeFor(w, r, vs, auto), r.signatures));
  }

  /** A quorum of different verified signers is what `enrol_promote` asks of a request that is ready,
      at every threshold, exactly if none of them has two signatures that count. This is so in every
      state, however the signatures got there. */
  lemma {:induction false} QuorumIff(
      w: World, d: Dirs, file: File, path: Path, vs: seq<Validator>, auto: ByteString -> Option<ByteString>, now: int)
    requires At(d, path).Some? && Ready(file, At(d, path).value, now)
    ensures var r := At(d, path).value;
      var good := JudgeFor(w, r, vs, auto);
      EachOnce(good, r.signatures) <==>
      forall threshold: int ::
        EnrolPromoted(w, d, file, path, threshold, vs, auto, now).2 == Finished <==>
        |VerifiedSigners(good, r.signatures)| >= threshold
  {
    var r := At(d, path).value;
    var good := JudgeFor(w, r, vs, auto);
    CountIsRightIff(good, r.signatures);
    forall threshold: int
      ensures EnrolPromoted(w, d, file, path, threshold, vs, auto, now).2 == Finished <==>
        |ValidSigners(good, r.signatures)| >= threshold
    {
      FinishesIff(w, d, file, path, threshold, vs, auto, now);
    }
    if !EachOnce(good, r.signatures) {
      var count: int := |ValidSigners(good, r.signatures)|;
      assert EnrolPromoted(w, d, file, path, count, vs, auto, now).2 == Finished;
    }
  }

  /** Enrolment quorum: after any run in which the request was signed only through `enrol_sign`,
      `enrol_promote` goes through exactly if the file is an open request that has not expired, at
      least `threshold` different signers have a signature that checks under their keys, and the
      ledger and the key parse. */
  lemma {:induction false} PromotesIff(
      w: World, steps: seq<Step>, lag: nat, path: Path, threshold: int, vs: seq<Validator>,
      auto: ByteString -> Option<ByteString>, now: int)
    requires AllowedRun(w, EMPTY, steps, lag) && NeverAdded(steps, path.id)
    requires At(Run(w, EMPTY, steps).dirs, path).Some?
    ensures var s := Run(w, EMPTY, steps);
      var r := At(s.dirs, path).value;
      EnrolPromoted(w, s.dirs, s.ledger, path, threshold, vs, auto, now).2 == Finished <==>
      Ready(s.ledger, r, now) && |VerifiedSigners(JudgeFor(w, r, vs, auto), r.signatures)| >= threshold
  {
    var s := Run(w, EMPTY, steps);
    NoneAtFirst(path.id, lag);
    StaysClean(w, EMPTY, steps, path.id, lag);
    var r := At(s.dirs, path).value;
    FinishesIff(w, s.dirs, s.ledger, path, threshold, vs, auto, now);
    CountIsRightIff(JudgeFor(w, r, vs, auto), r.signatures);
  }

  /** The key under which a signer is checked: that of the last validator given with that DID, or if none
      was given at all, what the automatic lookup finds. */
  ghost predicate HasKey(
      vs: seq<Validator>, auto: ByteString -> Option<ByteString>, signer: ByteString, key: ByteString)
  {
    if vs == [] then auto(signer) == Some(key) else exists i :: IsLastOf(vs, signer, i) && vs[i].publicKey == key
  }

  ghost predicate IsLastOf(vs: seq<Validator>, did: ByteString, i: int) {
    0 <= i < |vs| && vs[i].did == did && forall j :: i < j < |vs| ==> vs[j].did != did
  }

  lemma {:induction false} ExplicitKeyIff(vs: seq<Validator>, did: ByteString, key: ByteString)
    ensures did in ExplicitKeys(vs) && ExplicitKeys(vs)[did] == key <==>
      exists i :: IsLastOf(vs, did, i) && vs[i].publicKey == key
  {
    if vs == [] {
    } else {
      var n := |vs| - 1;
      ExplicitKeyIff(vs[..n], did, key);
      if vs[n].did == did {
        assert IsLastOf(vs, did, n);
      } else {
        forall i ensures IsLastOf(vs, did, i) <==> IsLastOf(vs[..n], did, i) {
          if IsLastOf(vs[..n], did, i) { assert vs[..n][i] == vs[i]; }
        }
      }
    }
  }

  lemma {:induction false} KeyForIff(
      vs: seq<Validator>, auto: ByteString -> Option<ByteString>, signer: ByteString, key: ByteString)
    ensures KeyFor(ExplicitKeys(vs), auto, signer) == Some(key) <==> HasKey(vs, auto, signer, key)
  {
    ExplicitKeyIff(vs, signer, key);
    if vs != [] { KeysGiven(vs); }
  }

  /** The signature is recorded for that signer, is hexadecimal, and checks under the key. */
  ghost predicate IsGoodBy(w: World, r: Request, key: ByteString, s: ValidatorSig, signer: ByteString) {
    && s.name == signer && Base64.FromHex(Characters(s.signatureHex)).Some?
    && w.check(key, SigningPayload(w.sha, r), Base64.FromHex(Characters(s.signatureHex)).value)
  }

  ghost predicate SignsAt(
      w: World, r: Request, vs: seq<Validator>, auto: ByteString -> Option<ByteString>, signer: ByteString, i: int)
  {
    0 <= i < |r.signatures| && exists key :: HasKey(vs, auto, signer, key) && IsGoodBy(w, r, key, r.signatures[i], signer)
  }

  lemma {:induction false} GoodIff(
      w: World, r: Request, vs: seq<Validator>, auto: ByteString -> Option<ByteString>, i: nat)
    requires i < |r.signatures|
    ensures JudgeFor(w, r, vs, auto)(r.signatures[i]) <==> SignsAt(w, r, vs, auto, r.signatures[i].name, i)
  {
    var s := r.signatures[i];
    var found := KeyFor(ExplicitKeys(vs), auto, s.name);
    if found.Some? { KeyForIff(vs, auto, s.name, found.value); }
    if SignsAt(w, r, vs, auto, s.name, i) {
      var key :| HasKey(vs, auto, s.name, key) && IsGoodBy(w, r, key, s, s.name);
      KeyForIff(vs, auto, s.name, key);
    }
  }

  /** The verified signers are those with a signature on the request that checks under their key. */
  lemma {:induction false} VerifiedIff(
      w: World, r: Request, vs: seq<Validator>, auto: ByteString -> Option<ByteString>, x: ByteString)
    ensures x in VerifiedSigners(JudgeFor(w, r, vs, auto), r.signatures) <==> exists i :: SignsAt(w, r, vs, auto, x, i)
  {
    var good := JudgeFor(w, r, vs, auto);
    if x in VerifiedSigners(good, r.signatures) {
      var i :| 0 <= i < |r.signatures| && good(r.signatures[i]) && r.signatures[i].name == x;
      GoodIff(w, r, vs, auto, i);
      assert SignsAt(w, r, vs, auto, x, i);
    }
    if i :| SignsAt(w, r, vs, auto, x, i) {
      assert r.signatures[i].name == x;
      GoodIff(w, r, vs, auto, i);
    }
  }

  /** The names on the signatures that count, in the order of signing. */
  lemma {:induction false} SignersInOrder(good: ValidatorSig -> bool, a: seq<ValidatorSig>, b: seq<ValidatorSig>)
    ensures ValidSigners(good, a + b) == ValidSigners(good, a) + ValidSigners(good, b)
    ensures |a| == 1 ==> ValidSigners(good, a) == if good(a[0]) then [a[0].name] else []
  {
    if |a| == 1 { assert a[..0] == [] && ValidSigners(good, []) == []; }
    if b == [] {
      assert a + b == a;
    } else {
      var n := |b| - 1;
      SignersInOrder(good, a, b[..n]);
      assert (a + b)[..|a + b| - 1] == a + b[..n];
    }
  }

  lemma {:induction false} FinishedMeans(
      w: World, d: Dirs, file: File, path: Path, threshold: int, vs: seq<Validator>,
      auto: ByteString -> Option<ByteString>, now: int)
    requires Orderly(d) && EnrolPromoted(w, d, file, path, threshold, vs, auto, now).2 == Finished
    ensures var (dirs, after, _) := EnrolPromoted(w, d, file, path, threshold, vs, auto, now);
      var r := At(d, path).value;
      var signers := ValidSigners(JudgeFor(w, r, vs, auto), r.signatures);
      && EnrolsIn(file, after, r, signers) && |signers| >= threshold
      && path.id !in dirs.pending && path.id in dirs.promoted && dirs.promoted[path.id] == r.(status := Closed)
  {
    var r := At(d, path).value;
    EntersIff(file, r, ValidSigners(JudgeFor(w, r, vs, auto), r.signatures));
    MovedKeeps(d, path, r);
  }

  /** Who the counted signers are. */
  ghost predicate SignersAre(
      w: World, r: Request, vs: seq<Validator>, auto: ByteString -> Option<ByteString>, signers: seq<ByteString>)
  {
    var verified := VerifiedSigners(JudgeFor(w, r, vs, auto), r.signatures);
    && (forall x :: x in signers <==> x in verified)
    && (EachOnce(JudgeFor(w, r, vs, auto), r.signatures) ==> |signers| == |verified|)
    && (forall x :: x in verified <==> exists i :: SignsAt(w, r, vs, auto, x, i))
  }

  lemma {:induction false} WhoSigned(w: World, r: Request, vs: seq<Validator>, auto: ByteString -> Option<ByteString>)
    ensures SignersAre(w, r, vs, auto, ValidSigners(JudgeFor(w, r, vs, auto), r.signatures))
  {
    var good := JudgeFor(w, r, vs, auto);
    CountIsRightIff(good, r.signatures);
    SameSigners(good, r.signatures);
    forall x ensures x in VerifiedSigners(good, r.signatures) <==> exists i :: SignsAt(w, r, vs, auto, x, i) {
      VerifiedIff(w, r, vs, auto, x);
    }
  }

  /** After a promotion, in any run from the empty directories: a DID that was not in the ledger is now, by
      one record as `Enrols` says, issued by the signers that were counted, and otherwise the ledger is as
      it was. The request is closed in the promoted directory. At least `threshold` signatures were
      counted, and so many different signers have verified unless one had two that count; the verified
      signers are exactly those with a signature that checks under their key. */
  lemma {:induction false} PromotionMeans(
      w: World, steps: seq<Step>, lag: nat, path: Path, threshold: int, vs: seq<Validator>,
      auto: ByteString -> Option<ByteString>, now: int)
    requires AllowedRun(w, EMPTY, steps, lag)
    requires var s := Run(w, EMPTY, steps);
      EnrolPromoted(w, s.dirs, s.ledger, path, threshold, vs, auto, now).2 == Finished
    ensures var s := Run(w, EMPTY, steps);
      var (dirs, file, _) := EnrolPromoted(w, s.dirs, s.ledger, path, threshold, vs, auto, now);
      var r := At(s.dirs, path).value;
      var signers := ValidSigners(JudgeFor(w, r, vs, auto), r.signatures);
      && EnrolsIn(s.ledger, file, r, signers)
      && path.id !in dirs.pending && path.id in dirs.promoted && dirs.promoted[path.id] == r.(status := Closed)
      && |signers| >= threshold && SignersAre(w, r, vs, auto, signers)
  {
    var s := Run(w, EMPTY, steps);
    NoneAtFirst(path.id, lag);
    RunKeeps(w, EMPTY, steps, lag);
    FinishedMeans(w, s.dirs, s.ledger, path, threshold, vs, auto, now);
    WhoSigned(w, At(s.dirs, path).value, vs, auto);
  }

  ghost predicate IsTimely(
      w: World, r: Request, vs: seq<Validator>, auto: ByteString -> Option<ByteString>, signer: ByteString, i: int,
      lag: nat)
  {
    SignsAt(w, r, vs, auto, signer, i) && r.signatures[i].signedAt <= r.expiresAt + lag
  }

  /** And if the request was signed only through `enrol_sign`, there are at least `threshold` of them
      in any case, and each signed in time. */
  lemma {:induction false} PromotionMeansInTime(
      w: World, steps: seq<Step>, lag: nat, path: Path, threshold: int, vs: seq<Validator>,
      auto: ByteString -> Option<ByteString>, now: int)
    requires AllowedRun(w, EMPTY, steps, lag) && NeverAdded(steps, path.id)
    requires var s := Run(w, EMPTY, steps);
      EnrolPromoted(w, s.dirs, s.ledger, path, threshold, vs, auto, now).2 == Finished
    ensures var r := At(Run(w, EMPTY, steps).dirs, path).value;
      var signers := VerifiedSigners(JudgeFor(w, r, vs, auto), r.signatures);
      |signers| >= threshold && forall x :: x in signers ==> exists i :: IsTimely(w, r, vs, auto, x, i, lag)
  {
    var s := Run(w, EMPTY, steps);
    NoneAtFirst(path.id, lag);
    StaysClean(w, EMPTY, steps, path.id, lag);
    PromotesIff(w, steps, lag, path, threshold, vs, auto, now);
    var r := At(s.dirs, path).value;
    forall x | x in VerifiedSigners(JudgeFor(w, r, vs, auto), r.signatures)
      ensures exists i :: IsTimely(w, r, vs, auto, x, i, lag)
    {
      VerifiedIff(w, r, vs, auto, x);
      var i :| SignsAt(w, r, vs, auto, x, i);
      assert IsTimely(w, r, vs, auto, x, i, lag);
    }
  }

  lemma {:induction false} KeysGiven(vs: seq<Validator>)
    requires vs != []
    ensures ExplicitKeys(vs) != map[]
  {
    assert vs[|vs| - 1].did in ExplicitKeys(vs);
  }

  // ----- requests that are signed as they should be

  /** The signatures of the first `n` validators. */
  function SignaturesOf(sha: Hash, r: Request, vs: seq<Validator>, at: seq<int>, n: nat): (sigs: seq<ValidatorSig>)
    requires n <= |vs| == |at|
    ensures |sigs| == n
  {
    if n == 0 then []
    else
      var v := vs[n - 1];
      SignaturesOf(sha, r, vs, at, n - 1) + [ValidatorSig(v.did, Ascii(Base64.Hex(v.sign(SigningPayload(sha, r)))), at[n - 1])]
  }

  /** One validator after the other signs the file. */
  ghost function AllSign(sha: Hash, d: Dirs, path: Path, vs: seq<Validator>, at: seq<int>, n: nat): Dirs
    requires n <= |vs| == |at|
  {
    if n == 0 then d
    else Signed(sha, AllSign(sha, d, path, vs, at, n - 1), path, vs[n - 1], at[n - 1], at[n - 1]).0
  }

  ghost predicate DistinctValidators(vs: seq<Validator>) {
    forall i, j :: 0 <= i < j < |vs| ==> vs[i].did != vs[j].did
  }

  lemma {:induction false} NamesOf(sha: Hash, r: Request, vs: seq<Validator>, at: seq<int>, n: nat)
    requires n <= |vs| == |at|
    ensures forall i :: 0 <= i < n ==> SignaturesOf(sha, r, vs, at, n)[i].name == vs[i].did
  {
    if n == 0 {
    } else {
      NamesOf(sha, r, vs, at, n - 1);
    }
  }

  lemma {:induction false} NotYetSigned(sigs: seq<ValidatorSig>, vs: seq<Validator>, n: nat)
    requires n < |vs| && |sigs| == n && DistinctValidators(vs)
    requires forall i :: 0 <= i < n ==> sigs[i].name == vs[i].did
    ensures !HasSigned(sigs, vs[n].did)
  {
  }

  lemma {:induction false} AllSigned(
      sha: Hash, d: Dirs, path: Path, r: Request, vs: seq<Validator>, at: seq<int>, n: nat)
    requires n <= |vs| == |at| && DistinctValidators(vs)
    requires At(d, path) == Some(r) && r.status == Open && r.signatures == []
    requires forall i :: 0 <= i < |at| ==> at[i] <= r.expiresAt
    ensures At(AllSign(sha, d, path, vs, at, n), path) == Some(r.(signatures := SignaturesOf(sha, r, vs, at, n)))
  {
    if n == 0 {
    } else {
      AllSigned(sha, d, path, r, vs, at, n - 1);
      NamesOf(sha, r, vs, at, n - 1);
      var before := r.(signatures := SignaturesOf(sha, r, vs, at, n - 1));
      NotYetSigned(before.signatures, vs, n - 1);
      SignsOnce(sha, AllSign(sha, d, path, vs, at, n - 1), path, before, vs[n - 1], at[n - 1]);
      assert SigningPayload(sha, before) == SigningPayload(sha, r);
    }
  }

  lemma {:induction false} SignsOnce(sha: Hash, d: Dirs, path: Path, r: Request, v: Validator, at: int)
    requires At(d, path) == Some(r) && r.status == Open && at <= r.expiresAt && !HasSigned(r.signatures, v.did)
    ensures At(Signed(sha, d, path, v, at, at).0, path) ==
      Some(WithSignature(r, ValidatorSig(v.did, Ascii(Base64.Hex(v.sign(SigningPayload(sha, r)))), at)))
  {
  }

  lemma {:induction false} KeyOfValidator(vs: seq<Validator>, i: nat)
    requires i < |vs| && DistinctValidators(vs)
    ensures vs[i].did in ExplicitKeys(vs) && ExplicitKeys(vs)[vs[i].did] == vs[i].publicKey
  {
    var n := |vs| - 1;
    if i < n {
      KeyOfValidator(vs[..n], i);
      assert vs[i].did != vs[n].did;
    }
  }

  lemma {:induction false} AllCount(
      w: World, r: Request, vs: seq<Validator>, at: seq<int>, auto: ByteString -> Option<ByteString>, n: nat)
    requires n <= |vs| == |at| && DistinctValidators(vs)
    requires forall i :: 0 <= i < |vs| ==> SignsPayload(w, r, vs[i])
    ensures ValidSigners(JudgeFor(w, r, vs, auto), SignaturesOf(w.sha, r, vs, at, n)) == MapSeq(Bundle.DidOf, vs[..n])
  {
    if n == 0 {
    } else {
      AllCount(w, r, vs, at, auto, n - 1);
      var sigs := SignaturesOf(w.sha, r, vs, at, n);
      OwnCounts(w, r, vs, auto, n - 1, at[n - 1]);
      assert sigs[..n - 1] == SignaturesOf(w.sha, r, vs, at, n - 1);
      assert sigs[n - 1] == OwnSignature(w.sha, r, vs[n - 1], at[n - 1]);
      assert MapSeq(Bundle.DidOf, vs[..n]) == MapSeq(Bundle.DidOf, vs[..n - 1]) + [vs[n - 1].did];
    }
  }

  lemma {:induction false} OwnCounts(
      w: World, r: Request, vs: seq<Validator>, auto: ByteString -> Option<ByteString>, i: nat, at: int)
    requires i < |vs| && DistinctValidators(vs) && SignsPayload(w, r, vs[i])
    ensures JudgeFor(w, r, vs, auto)(OwnSignature(w.sha, r, vs[i], at))
  {
    KeyOfValidator(vs, i);
    KeyReadBack(vs[i].sign(SigningPayload(w.sha, r)));
  }

  /** What the validator signs for this request checks. */
  ghost predicate SignsPayload(w: World, r: Request, v: Validator) {
    w.check(v.publicKey, SigningPayload(w.sha, r), v.sign(SigningPayload(w.sha, r)))
  }

  /** Enrolment completes: when different validators, whose signatures check, each sign an open
      request before it expires, and no more than all of them are asked for, then promoting it with
      their keys before it expires goes through, and a DID that the ledger does not hold is entered by one
      record, issued by these validators. */
  lemma {:induction false} EnrolmentCompletes(
      w: World, d: Dirs, file: File, path: Path, r: Request, vs: seq<Validator>, at: seq<int>, threshold: int,
      auto: ByteString -> Option<ByteString>, now: int)
    requires |vs| == |at| && DistinctValidators(vs) && threshold <= |vs|
    requires At(d, path) == Some(r) && r.signatures == [] && Ready(file, r, now)
    requires forall i :: 0 <= i < |at| ==> at[i] <= r.expiresAt
    requires forall i :: 0 <= i < |vs| ==> SignsPayload(w, r, vs[i])
    ensures var (dirs, after, result) :=
        EnrolPromoted(w, AllSign(w.sha, d, path, vs, at, |vs|), file, path, threshold, vs, auto, now);
      && result == Finished && path.id in dirs.promoted && dirs.promoted[path.id].status == Closed
      && EnrolsIn(file, after, r, MapSeq(Bundle.DidOf, vs))
  {
    AllSigned(w.sha, d, path, r, vs, at, |vs|);
    AllCount(w, r, vs, at, auto, |vs|);
    var signed := r.(signatures := SignaturesOf(w.sha, r, vs, at, |vs|));
    assert SigningPayload(w.sha, signed) == SigningPayload(w.sha, r) && vs[..|vs|] == vs;
    EntersIff(file, signed, ValidSigners(JudgeFor(w, signed, vs, auto), signed.signatures));
  }

  /** A promotion of a DID that the ledger holds already reports success, closes the request and
      leaves the ledger as it is. */
  lemma {:induction false} RepeatPromotionReportsSuccess(
      w: World, d: Dirs, file: File, path: Path, threshold: int, vs: seq<Validator>,
      auto: ByteString -> Option<ByteString>, now: int)
    requires At(d, path).Some? && Ready(file, At(d, path).value, now)
    requires HasDid(Ledger(file).value, Text(At(d, path).value.did))
    requires var r := At(d, path).value; |ValidSigners(JudgeFor(w, r, vs, auto), r.signatures)| >= threshold
    ensures var (dirs, after, result) := EnrolPromoted(w, d, file, path, threshold, vs, auto, now);
      result == Finished && path.id in dirs.promoted && Ledger(after) == Ledger(file)
  {
    var r := At(d, path).value;
    var signers := ValidSigners(JudgeFor(w, r, vs, auto), r.signatures);
    AllJsonIff(MapSeq(TextOf, signers));
    EntriesJsonIff(MetadataOf(r));
    PromotedFileHolds(file, Text(r.did), Base64.FromHex(Characters(r.publicKeyHex)).value, MapSeq(TextOf, signers),
      MetadataOf(r));
  }

  // ----- where the guarantees end

  function OwnSignature(sha: Hash, r: Request, v: Validator, at: int): ValidatorSig {
    ValidatorSig(v.did, Ascii(Base64.Hex(v.sign(SigningPayload(sha, r)))), at)
  }

  /** The step that creates `r`, which must be open and unsigned. */
  function CreateOf(r: Request): Step {
    Create(r.id, r.did, r.publicKeyHex, r.credentialId, r.submittedAt, r.expiresAt - r.submittedAt)
  }

  lemma {:induction false} CreatesFirst(w: World, r: Request)
    requires r.status == Open && r.signatures == []
    ensures Apply(w, EMPTY, CreateOf(r)) == State(Dirs(map[r.id := r], map[]), Absent)
  {
    assert CredentialIds(EMPTY.dirs) == {};
  }

  /** A new request, and one signature that the service's `add_signature` appends twice. */
  function AddedTwice(sha: Hash, r: Request, v: Validator): seq<Step> {
    var s := OwnSignature(sha, r, v, r.submittedAt);
    [CreateOf(r), AddSignature(r.id, s), AddSignature(r.id, s)]
  }

  /** In that run one validator makes up a quorum of two. */
  lemma {:induction false} OneMakesTwo(
      w: World, r: Request, v: Validator, auto: ByteString -> Option<ByteString>, now: int)
    requires r.status == Open && r.signatures == [] && now <= r.expiresAt
    requires Base64.FromHex(Characters(r.publicKeyHex)).Some?
    requires w.check(v.publicKey, SigningPayload(w.sha, r), v.sign(SigningPayload(w.sha, r)))
    ensures AllowedRun(w, EMPTY, AddedTwice(w.sha, r, v), 0)
    ensures var s := Run(w, EMPTY, AddedTwice(w.sha, r, v));
      var path := InPending(r.id);
      && At(s.dirs, path).Some?
      && EnrolPromoted(w, s.dirs, s.ledger, path, 2, [v], auto, now).2 == Finished
      && VerifiedSigners(JudgeFor(w, r, [v], auto), At(s.dirs, path).value.signatures) == {v.did}
  {
    var sig := OwnSignature(w.sha, r, v, r.submittedAt);
    var twice := r.(signatures := [sig, sig]);
    AddedTwiceRun(w, r, v);
    TwiceCounts(w, r, v, auto);
    assert SigningPayload(w.sha, twice) == SigningPayload(w.sha, r);
    FinishesIff(w, Dirs(map[r.id := twice], map[]), Absent, InPending(r.id), 2, [v], auto, now);
  }

  lemma {:induction false} AddedTwiceRun(w: World, r: Request, v: Validator)
    requires r.status == Open && r.signatures == []
    ensures AllowedRun(w, EMPTY, AddedTwice(w.sha, r, v), 0)
    ensures var sig := OwnSignature(w.sha, r, v, r.submittedAt);
      Run(w, EMPTY, AddedTwice(w.sha, r, v)) == State(Dirs(map[r.id := r.(signatures := [sig, sig])], map[]), Absent)
  {
    var sig := OwnSignature(w.sha, r, v, r.submittedAt);
    var steps := AddedTwice(w.sha, r, v);
    var once, twice := r.(signatures := [sig]), r.(signatures := [sig, sig]);
    var s1 := State(Dirs(map[r.id := r], map[]), Absent);
    var s2 := State(Dirs(map[r.id := once], map[]), Absent);
    var s3 := State(Dirs(map[r.id := twice], map[]), Absent);
    CreatesFirst(w, r);
    assert WithSignature(r, sig) == once && WithSignature(once, sig) == twice;
    assert Apply(w, s1, steps[1]) == s2 && Apply(w, s2, steps[2]) == s3;
    assert steps[1..][1..] == [steps[2]] && [steps[2]][1..] == [];
    assert AllowedRun(w, s3, [], 0) && AllowedRun(w, s2, [steps[2]], 0) && AllowedRun(w, s1, steps[1..], 0);
    assert Run(w, s2, [steps[2]]) == s3 && Run(w, s1, steps[1..]) == s3;
  }

  lemma {:induction false} TwiceCounts(w: World, r: Request, v: Validator, auto: ByteString -> Option<ByteString>)
    requires w.check(v.publicKey, SigningPayload(w.sha, r), v.sign(SigningPayload(w.sha, r)))
    ensures var sig := OwnSignature(w.sha, r, v, r.submittedAt);
      var good := JudgeFor(w, r, [v], auto);
      |ValidSigners(good, [sig, sig])| == 2 && VerifiedSigners(good, [sig, sig]) == {v.did}
  {
    var sig := OwnSignature(w.sha, r, v, r.submittedAt);
    var good := JudgeFor(w, r, [v], auto);
    KeyOfValidator([v], 0);
    KeyReadBack(v.sign(SigningPayload(w.sha, r)));
    assert good(sig);
    var one, two := [sig], [sig, sig];
    assert two[..1] == one && one[..0] == [];
    VerifiedNext(good, two);
    VerifiedNext(good, one);
    assert VerifiedSigners(good, []) == {};
    assert |ValidSigners(good, one)| == 1;
  }

  // ----- signatures dated after the expiry

  ghost predicate Late(r: Request) {
    exists i :: 0 <= i < |r.signatures| && r.signatures[i].signedAt > r.expiresAt
  }

  /** The file of the request, in either directory, has such a signature. */
  ghost predicate LateIn(d: Dirs, id: ByteString) {
    (id in d.pending && Late(d.pending[id])) || (id in d.promoted && Late(d.promoted[id]))
  }

  ghost predicate OneFile(d: Dirs, id: ByteString) { id !in d.pending || id !in d.promoted }

  /** The step is an `enrol_sign` of the request that goes through, between whose two readings of the clock
      the request expires. */
  ghost predicate Straddles(sha: Hash, d: Dirs, step: Step, id: ByteString) {
    && step.Sign? && step.path.id == id
    && Signed(sha, d, step.path, step.v, step.checkedAt, step.signedAt).1 == Finished
    && step.checkedAt <= At(d, step.path).value.expiresAt < step.signedAt
  }

  ghost predicate StraddledIn(w: World, s: State, steps: seq<Step>, id: ByteString)
    decreases |steps|
  {
    steps != [] && (Straddles(w.sha, s.dirs, steps[0], id) || StraddledIn(w, Apply(w, s, steps[0]), steps[1..], id))
  }

  lemma {:induction false} LateNext(r: Request, sig: ValidatorSig)
    ensures Late(WithSignature(r, sig)) <==> Late(r) || sig.signedAt > r.expiresAt
  {
    var r' := WithSignature(r, sig);
    assert r'.signatures[|r.signatures|] == sig;
    if Late(r) {
      var i :| 0 <= i < |r.signatures| && r.signatures[i].signedAt > r.expiresAt;
      assert r'.signatures[i] == r.signatures[i];
    }
  }

  lemma {:induction false} SignIsLateIff(
      sha: Hash, d: Dirs, path: Path, v: Validator, checkedAt: int, signedAt: int, id: ByteString)
    requires Orderly(d) && OneFile(d, id)
    ensures var d' := Signed(sha, d, path, v, checkedAt, signedAt).0;
      OneFile(d', id) &&
      (LateIn(d', id) <==> LateIn(d, id) || Straddles(sha, d, Sign(path, v, checkedAt, signedAt), id))
  {
    var (d', result) := Signed(sha, d, path, v, checkedAt, signedAt);
    if result == Finished { LateNext(At(d, path).value, OwnSignature(sha, At(d, path).value, v, signedAt)); }
  }

  lemma {:induction false} StepIsLateIff(w: World, s: State, step: Step, id: ByteString, lag: nat)
    requires Orderly(s.dirs) && OneFile(s.dirs, id) && Allowed(s.dirs, step, lag)
    requires step.AddSignature? ==> step.id != id
    ensures OneFile(Apply(w, s, step).dirs, id)
    ensures LateIn(Apply(w, s, step).dirs, id) <==> LateIn(s.dirs, id) || Straddles(w.sha, s.dirs, step, id)
  {
    if step.Sign? { SignIsLateIff(w.sha, s.dirs, step.path, step.v, step.checkedAt, step.signedAt, id); }
  }

  lemma {:induction false} LateRun(w: World, s: State, steps: seq<Step>, id: ByteString, lag: nat)
    requires Orderly(s.dirs) && DistinctCredentials(s.dirs) && OneFile(s.dirs, id)
    requires AllowedRun(w, s, steps, lag) && NeverAdded(steps, id)
    ensures LateIn(Run(w, s, steps).dirs, id) <==> LateIn(s.dirs, id) || StraddledIn(w, s, steps, id)
    decreases |steps|
  {
    if steps == [] {
    } else {
      StepKeeps(w, s, steps[0], lag);
      StepIsLateIff(w, s, steps[0], id, lag);
      assert forall k :: 0 <= k < |steps[1..]| ==> steps[1..][k] == steps[k + 1];
      LateRun(w, Apply(w, s, steps[0]), steps[1..], id, lag);
    }
  }

  /** After any run in which a request was signed only through `enrol_sign`, one of its signatures is dated
      after it expires exactly if in one of those commands that went through the expiry lay between the
      two readings of the clock. */
  lemma {:induction false} SignsLateIff(w: World, steps: seq<Step>, id: ByteString, lag: nat)
    requires AllowedRun(w, EMPTY, steps, lag) && NeverAdded(steps, id)
    ensures LateIn(Run(w, EMPTY, steps).dirs, id) <==> StraddledIn(w, EMPTY, steps, id)
  {
    NoneAtFirst(id, lag);
    LateRun(w, EMPTY, steps, id, lag);
  }

  /** It happens: the first reading in the last second, the second one a second later. */
  lemma {:induction false} SignedLate(w: World, r: Request, v: Validator)
    requires r.status == Open && r.signatures == []
    ensures var steps := [CreateOf(r), Sign(InPending(r.id), v, r.expiresAt, r.expiresAt + 1)];
      var late := r.(signatures := [OwnSignature(w.sha, r, v, r.expiresAt + 1)]);
      AllowedRun(w, EMPTY, steps, 1) && Run(w, EMPTY, steps) == State(Dirs(map[r.id := late], map[]), Absent)
  {
    var steps := [CreateOf(r), Sign(InPending(r.id), v, r.expiresAt, r.expiresAt + 1)];
    var late := r.(signatures := [OwnSignature(w.sha, r, v, r.expiresAt + 1)]);
    var s1 := State(Dirs(map[r.id := r], map[]), Absent);
    var s2 := State(Dirs(map[r.id := late], map[]), Absent);
    CreatesFirst(w, r);
    assert WithSignature(r, OwnSignature(w.sha, r, v, r.expiresAt + 1)) == late;
    assert Apply(w, s1, steps[1]) == s2;
    assert steps[1..] == [steps[1]] && [steps[1]][1..] == [];
    assert AllowedRun(w, s2, [], 1) && AllowedRun(w, s1, [steps[1]], 1) && Run(w, s1, [steps[1]]) == s2;
  }

  // ----- the payload

  lemma {:induction false} PayloadNames() ensures GoodNames(PAYLOAD) {}

  /** The payload binds id, DID and key: two requests that differ in one of them have different
      payloads, or here are two strings with the same hash. */
  lemma {:induction false} PayloadBinds(sha: Hash, a: Request, b: Request)
    requires Valid(PayloadValue(a)) && Valid(PayloadValue(b))
    requires SigningPayload(sha, a) == SigningPayload(sha, b)
    ensures (a.id == b.id && a.did == b.did && a.publicKeyHex == b.publicKeyHex) ||
      CollisionIn(sha, {Encode(PayloadValue(a)), Encode(PayloadValue(b))})
  {
    if Encode(PayloadValue(a)) == Encode(PayloadValue(b)) {
      EncodeIffSame(PayloadValue(a), PayloadValue(b));
      PayloadNames();
      var x, y := [Text(a.did), Text(a.id), Text(a.publicKeyHex)], [Text(b.did), Text(b.id), Text(b.publicKeyHex)];
      SameMapIff(PAYLOAD, x, y);
      assert Same(x[0], y[0]) && Same(x[1], y[1]) && Same(x[2], y[2]);
    }
  }
}
