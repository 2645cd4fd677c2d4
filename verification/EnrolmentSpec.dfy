/** Enrolment requests: one file a request, pending or promoted, and what the service and the
    validators' commands do to them (bff/enrolment.py, cli/enrol_sign.py). */
module EnrolmentSpec {
  import opened Bytes
  import opened Cbor
  import opened Fields
  import opened Models
  import opened Base64
  import opened LedgerSpec

  datatype Status = Open | Closed

  datatype ValidatorSig = ValidatorSig(name: ByteString, signatureHex: ByteString, signedAt: int)

  datatype Request = Request(
    id: ByteString, did: ByteString, publicKeyHex: ByteString, credentialId: ByteString,
    submittedAt: int, expiresAt: int, status: Status, signatures: seq<ValidatorSig>)

  /** The two directories, by file name. */
  datatype Dirs = Dirs(pending: map<ByteString, Request>, promoted: map<ByteString, Request>)

  /** Which file a command is given. */
  datatype Path = InPending(id: ByteString) | InPromoted(id: ByteString)

  // ----- the service's store

  /** `_all_credential_ids` */
  function CredentialIds(d: Dirs): set<ByteString> { IdsIn(d.pending) + IdsIn(d.promoted) }

  function IdsIn(files: map<ByteString, Request>): set<ByteString> {
    set id | id in files :: files[id].credentialId
  }

  /** `get`: the pending file first. */
  function Found(d: Dirs, id: ByteString): Option<Request> {
    if id in d.pending then Some(d.pending[id])
    else if id in d.promoted then Some(d.promoted[id])
    else None
  }

  function NewRequest(id: ByteString, did: ByteString, key: ByteString, cred: ByteString, now: int, ttl: int): Request {
    Request(id, did, key, cred, now, now + ttl, Open, [])
  }

  /** `create`; None is a DuplicateCredentialError. */
  function Created(d: Dirs, r: Request): (Dirs, Option<Request>) {
    if r.credentialId in CredentialIds(d) then (d, None) else (d.(pending := d.pending[r.id := r]), Some(r))
  }

  function WithSignature(r: Request, s: ValidatorSig): Request { r.(signatures := r.signatures + [s]) }

  /** `add_signature` writes to the pending directory, though the request be a promoted one. None is
      a KeyError. */
  function SignatureAdded(d: Dirs, id: ByteString, s: ValidatorSig): (Dirs, Option<Request>) {
    match Found(d, id)
    case None => (d, None)
    case Some(r) =>
      var r' := WithSignature(r, s);
      (d.(pending := d.pending[r'.id := r']), Some(r'))
  }

  /** `promote` */
  function StorePromoted(d: Dirs, id: ByteString): (Dirs, Option<Request>) {
    match Found(d, id)
    case None => (d, None)
    case Some(r) =>
      var r' := r.(status := Closed);
      (Dirs(d.pending - {id}, d.promoted[id := r']), Some(r'))
  }

  // ----- the validators' commands

  datatype Result =
    | Finished
    | NoFile
    | NotPending
    | Expired
    | AlreadySigned
    | TooFewSignatures(valid: nat, required: int)
    | Crashed

  function At(d: Dirs, path: Path): Option<Request> {
    match path
    case InPending(id) => if id in d.pending then Some(d.pending[id]) else None
    case InPromoted(id) => if id in d.promoted then Some(d.promoted[id]) else None
  }

  function Write(d: Dirs, path: Path, r: Request): Dirs {
    match path
    case InPending(id) => d.(pending := d.pending[id := r])
    case InPromoted(id) => d.(promoted := d.promoted[id := r])
  }

  const PAYLOAD: seq<string> := ["did", "id", "pubkey"]

  function PayloadValue(r: Request): Value { MapOf(PAYLOAD, [Text(r.did), Text(r.id), Text(r.publicKeyHex)]) }

  /** `_signing_payload`: a digest, so 32 bytes. */
  function SigningPayload(sha: Hash, r: Request): Digest { sha(Encode(PayloadValue(r))) }

  predicate HasSigned(sigs: seq<ValidatorSig>, name: ByteString) {
    exists i :: 0 <= i < |sigs| && sigs[i].name == name
  }

  /** Why a command refuses the file before it looks at signatures. */
  function Refusal(d: Dirs, path: Path, now: int): Option<Result> {
    match At(d, path)
    case None => Some(NoFile)
    case Some(r) =>
      if r.status != Open then Some(NotPending) else if now > r.expiresAt then Some(Expired) else None
  }

  /** `enrol_sign`: the clock is read once for the check and once more for the record. */
  function Signed(sha: Hash, d: Dirs, path: Path, v: Validator, checkedAt: int, signedAt: int): (Dirs, Result) {
    match Refusal(d, path, checkedAt)
    case Some(why) => (d, why)
    case None =>
      var r := At(d, path).value;
      if HasSigned(r.signatures, v.did) then (d, AlreadySigned)
      else
        var sig := v.sign(SigningPayload(sha, r));
        (Write(d, path, WithSignature(r, ValidatorSig(v.did, Ascii(Hex(sig)), signedAt))), Finished)
  }

  /** The keys given on the command line; of two for one DID the later counts. */
  function ExplicitKeys(vs: seq<Validator>): map<ByteString, ByteString> {
    if vs == [] then map[] else ExplicitKeys(vs[..|vs| - 1])[vs[|vs| - 1].did := vs[|vs| - 1].publicKey]
  }

  /** The key for a signer: one of those given, or the one that the automatic lookup finds. */
  function KeyFor(
      keys: map<ByteString, ByteString>, auto: ByteString -> Option<ByteString>, name: ByteString): Option<ByteString> {
    if keys == map[] then auto(name) else if name in keys then Some(keys[name]) else None
  }

  /** The signature is by a known key and checks. */
  predicate Holds(w: World, payload: ByteString, key: Option<ByteString>, s: ValidatorSig) {
    match (key, FromHex(Characters(s.signatureHex)))
    case (Some(k), Some(sig)) => w.check(k, payload, sig)
    case _ => false
  }

  /** Which recorded signatures count: those by a known key that check. */
  function Judge(
      w: World, payload: ByteString, keys: map<ByteString, ByteString>, auto: ByteString -> Option<ByteString>)
      : ValidatorSig -> bool
  {
    (s: ValidatorSig) => Holds(w, payload, KeyFor(keys, auto, s.name), s)
  }

  /** `valid_sigs`: the names on the signatures that count, in the order of signing. */
  function ValidSigners(good: ValidatorSig -> bool, sigs: seq<ValidatorSig>): seq<ByteString> {
    if sigs == [] then []
    else
      var last := sigs[|sigs| - 1];
      ValidSigners(good, sigs[..|sigs| - 1]) + (if good(last) then [last.name] else [])
  }

  const METADATA: seq<string> := ["credential_id", "enrolment_id"]

  function MetadataOf(r: Request): seq<Entry> { FieldEntries(METADATA, [Text(r.credentialId), Text(r.id)]) }

  function TextOf(bs: ByteString): Value { Text(bs) }

  /** The ledger file once the signatures suffice, and whether the key did not parse or the ledger
      could not be loaded or saved. */
  function Entered(file: File, r: Request, signers: seq<ByteString>): (File, bool) {
    match FromHex(Characters(r.publicKeyHex))
    case None => (file, true)
    case Some(key) => PromotedFile(file, Text(r.did), key, Sorting.MapSeq(TextOf, signers), MetadataOf(r))
  }

  /** The end of `enrol_promote`: nothing is written when the ledger raises. */
  function MovedToLedger(d: Dirs, file: File, path: Path, r: Request, signers: seq<ByteString>): (Dirs, File, Result) {
    var (after, raised) := Entered(file, r, signers);
    if raised then (d, file, Crashed) else (Moved(d, path, r.(status := Closed)), after, Finished)
  }

  /** The file rewritten, then moved. */
  function Moved(d: Dirs, path: Path, r: Request): Dirs {
    Dirs(if path.InPending? then d.pending - {path.id} else d.pending, d.promoted[path.id := r])
  }

  function JudgeFor(
      w: World, r: Request, vs: seq<Validator>, auto: ByteString -> Option<ByteString>): ValidatorSig -> bool
  {
    Judge(w, SigningPayload(w.sha, r), ExplicitKeys(vs), auto)
  }

  /** `enrol_promote` */
  function EnrolPromoted(
      w: World, d: Dirs, file: File, path: Path, threshold: int, vs: seq<Validator>,
      auto: ByteString -> Option<ByteString>, now: int): (Dirs, File, Result) {
    match Refusal(d, path, now)
    case Some(why) => (d, file, why)
    case None =>
      var r := At(d, path).value;
      var signers := ValidSigners(JudgeFor(w, r, vs, auto), r.signatures);
      if |signers| < threshold then (d, file, TooFewSignatures(|signers|, threshold))
      else MovedToLedger(d, file, path, r, signers)
  }
}
