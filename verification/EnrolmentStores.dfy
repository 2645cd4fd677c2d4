/** The enrolment store and the commands `enrol-sign` and `enrol-promote` as they are written:
    files that are rewritten, moved and unlinked. */
module EnrolmentStores {
  import opened Bytes
  import opened Cbor
  import opened Models
  import opened Base64
  import opened LedgerSpec
  import opened IdentityLogs
  import opened EnrolmentSpec

  /** The loop over one directory. */
  method CollectIds(known: set<ByteString>, files: map<ByteString, Request>) returns (ids: set<ByteString>)
    ensures ids == known + IdsIn(files)
  {
    ids := known;
    var todo := files.Keys;
    while todo != {}
      invariant todo <= files.Keys
      invariant ids == known + IdsOf(files, files.Keys - todo)
      decreases |todo|
    {
      var id :| id in todo;
      assert files.Keys - (todo - {id}) == (files.Keys - todo) + {id};
      ids := ids + {files[id].credentialId};
      todo := todo - {id};
    }
    assert files.Keys - todo == files.Keys;
  }

  ghost function IdsOf(files: map<ByteString, Request>, names: set<ByteString>): set<ByteString>
    requires names <= files.Keys
  {
    set id | id in names :: files[id].credentialId
  }

  class EnrolmentStore {
    var pending: map<ByteString, Request>
    var promoted: map<ByteString, Request>

    ghost function View(): Dirs
      reads this
    {
      Dirs(pending, promoted)
    }

    constructor ()
      ensures View() == Dirs(map[], map[])
    {
      pending, promoted := map[], map[];
    }

    /** Goes through both directories. */
    method AllCredentialIds() returns (ids: set<ByteString>)
      ensures ids == CredentialIds(View())
    {
      ids := CollectIds({}, pending);
      ids := CollectIds(ids, promoted);
    }

    /** `id` is what `uuid4` drew. */
    method Create(id: ByteString, did: ByteString, key: ByteString, cred: ByteString, now: int, ttl: int)
      returns (request: Option<Request>)
      modifies this
      ensures (View(), request) == Created(old(View()), NewRequest(id, did, key, cred, now, ttl))
    {
      var ids := AllCredentialIds();
      if cred in ids { return None; }
      var r := Request(id, did, key, cred, now, now + ttl, Open, []);
      pending := pending[r.id := r];
      return Some(r);
    }

    method Get(id: ByteString) returns (request: Option<Request>)
      ensures request == Found(View(), id)
    {
      if id !in pending {
        if id in promoted { return Some(promoted[id]); }
        return None;
      }
      return Some(pending[id]);
    }

    method AddSignature(id: ByteString, name: ByteString, signatureHex: ByteString, now: int)
      returns (request: Option<Request>)
      modifies this
      ensures (View(), request) == SignatureAdded(old(View()), id, ValidatorSig(name, signatureHex, now))
    {
      request := Get(id);
      if request.None? { return None; }
      var r := request.value;
      r := r.(signatures := r.signatures + [ValidatorSig(name, signatureHex, now)]);
      pending := pending[r.id := r];
      return Some(r);
    }

    method Promote(id: ByteString) returns (request: Option<Request>)
      modifies this
      ensures (View(), request) == StorePromoted(old(View()), id)
    {
      request := Get(id);
      if request.None? { return None; }
      var r := request.value.(status := Closed);
      promoted := promoted[id := r];
      pending := pending - {id};
      return Some(r);
    }

    method Read(path: Path) returns (request: Option<Request>)
      ensures request == At(View(), path)
    {
      match path
      case InPending(id) => return if id in pending then Some(pending[id]) else None;
      case InPromoted(id) => return if id in promoted then Some(promoted[id]) else None;
    }

    method Rewrite(path: Path, r: Request)
      modifies this
      ensures View() == Write(old(View()), path, r)
    {
      match path
      case InPending(id) => pending := pending[id := r];
      case InPromoted(id) => promoted := promoted[id := r];
    }

    /** `shutil.move` into the promoted directory */
    method MoveToPromoted(path: Path)
      requires At(View(), path).Some?
      modifies this
      ensures View() == Moved(old(View()), path, At(old(View()), path).value)
    {
      match path
      case InPending(id) =>
        promoted := promoted[id := pending[id]];
        pending := pending - {id};
      case InPromoted(id) =>
        assert promoted == promoted[id := promoted[id]];
    }
  }

  /** `enrol_sign` */
  method EnrolSign(store: EnrolmentStore, sha: Hash, path: Path, v: Validator, checkedAt: int, signedAt: int)
    returns (result: Result)
    modifies store
    ensures (store.View(), result) == Signed(sha, old(store.View()), path, v, checkedAt, signedAt)
  {
    var request := store.Read(path);
    if request.None? { return NoFile; }
    var r := request.value;
    if r.status != Open { return NotPending; }
    if checkedAt > r.expiresAt { return Expired; }
    if HasSigned(r.signatures, v.did) { return AlreadySigned; }
    var sig := v.sign(SigningPayload(sha, r));
    r := r.(signatures := r.signatures + [ValidatorSig(v.did, Ascii(Hex(sig)), signedAt)]);
    store.Rewrite(path, r);
    return Finished;
  }

  method GatherKeys(vs: seq<Validator>) returns (keys: map<ByteString, ByteString>)
    ensures keys == ExplicitKeys(vs)
  {
    keys := map[];
    for i := 0 to |vs|
      invariant keys == ExplicitKeys(vs[..i])
    {
      assert vs[..i + 1][..i] == vs[..i];
      keys := keys[vs[i].did := vs[i].publicKey];
    }
    assert vs[..|vs|] == vs;
  }

  /** The loop over the recorded signatures. */
  method CheckSignatures(
      w: World, payload: ByteString, keys: map<ByteString, ByteString>, auto: ByteString -> Option<ByteString>,
      sigs: seq<ValidatorSig>)
    returns (valid: seq<ByteString>)
    ensures valid == ValidSigners(Judge(w, payload, keys, auto), sigs)
  {
    valid := [];
    for i := 0 to |sigs|
      invariant valid == ValidSigners(Judge(w, payload, keys, auto), sigs[..i])
    {
      assert sigs[..i + 1][..i] == sigs[..i];
      var s := sigs[i];
      var key: Option<ByteString>;
      if keys != map[] {
        key := if s.name in keys then Some(keys[s.name]) else None;
      } else {
        key := auto(s.name);
      }
      if key.None? { continue; }
      var sig := FromHex(Characters(s.signatureHex));
      if sig.None? { continue; }
      if w.check(key.value, payload, sig.value) { valid := valid + [s.name]; }
    }
    assert sigs[..|sigs|] == sigs;
  }

  /** `enrol_promote`; the ledger file is passed in and out. */
  method EnrolPromote(
      store: EnrolmentStore, w: World, file: File, path: Path, threshold: int, vs: seq<Validator>,
      auto: ByteString -> Option<ByteString>, now: int)
    returns (after: File, result: Result)
    modifies store
    ensures (store.View(), after, result) == EnrolPromoted(w, old(store.View()), file, path, threshold, vs, auto, now)
  {
    var request := store.Read(path);
    if request.None? { return file, NoFile; }
    var r := request.value;
    if r.status != Open { return file, NotPending; }
    if now > r.expiresAt { return file, Expired; }
    var keys := GatherKeys(vs);
    var valid := CheckSignatures(w, SigningPayload(w.sha, r), keys, auto, r.signatures);
    if |valid| < threshold { return file, TooFewSignatures(|valid|, threshold); }
    after, result := FinishPromotion(store, file, path, r, valid);
  }

  method FinishPromotion(store: EnrolmentStore, file: File, path: Path, r: Request, signers: seq<ByteString>)
    returns (after: File, result: Result)
    requires At(store.View(), path) == Some(r)
    modifies store
    ensures (store.View(), after, result) == MovedToLedger(old(store.View()), file, path, r, signers)
  {
    var raised;
    after, raised := AddToLedger(file, r, signers);
    if raised { return file, Crashed; }
    store.Rewrite(path, r.(status := Closed));
    store.MoveToPromoted(path);
    WriteThenMove(old(store.View()), path, r.(status := Closed));
    return after, Finished;
  }

  lemma {:induction false} WriteThenMove(d: Dirs, path: Path, r: Request)
    ensures var d' := Write(d, path, r);
      At(d', path) == Some(r) && Moved(d', path, r) == Moved(d, path, r)
  {
  }

  method AddToLedger(file: File, r: Request, signers: seq<ByteString>) returns (after: File, raised: bool)
    ensures (after, raised) == Entered(file, r, signers)
  {
    var key := FromHex(Characters(r.publicKeyHex));
    if key.None? { return file, true; }
    after, raised := PromoteInLedger(file, Text(r.did), key.value, Sorting.MapSeq(TextOf, signers), MetadataOf(r));
  }
}
