/** What is in a published bundle, told by the names under which readers find it. */
module Publication {
  import opened Bytes
  import opened Sorting
  import opened Cbor
  import opened Fields
  import opened Models
  import opened PyValues
  import opened Bundle
  import opened LedgerSpec
  import opened LedgerRuns
  import Merkle
  import MerkleLaws

  /** `v` has the record's fields under their names. */
  ghost predicate NamesRecord(v: Value, r: Record) {
    && Item(v, "did") == Ok(r.did) && Item(v, "pubkey") == Ok(Bin(r.publicKey))
    && Item(v, "issued_at") == Ok(r.issuedAt) && Item(v, "issued_by") == Ok(Array(r.issuedBy))
    && Item(v, "valid_until") == Ok(r.validUntil) && Item(v, "revoked_at") == Ok(r.revokedAt)
    && Item(v, "meta") == Ok(Map(r.metadata))
  }

  lemma {:induction false} FieldNamed(names: seq<string>, vals: seq<Value>, i: nat, name: string, v: Value)
    requires GoodNames(names) && |names| == |vals| && i < |names| && names[i] == name && vals[i] == v
    ensures Item(MapOf(names, vals), name) == Ok(v)
  {
    SavedField(names, vals, i);
  }

  /** A leaf of the tree is the encoding of a map that names the record's fields, and has no others. */
  lemma {:induction false} LeafByName(r: Record)
    ensures exists v :: SerialiseRecord(r) == Encode(v) && NamesRecord(v, r) && |v.entries| == 7
  {
    RecordNames();
    var vals, v := RecordFields(r), RecordValue(r);
    FieldNamed(RECORD, vals, 0, "did", r.did);
    FieldNamed(RECORD, vals, 1, "issued_at", r.issuedAt);
    FieldNamed(RECORD, vals, 2, "issued_by", Array(r.issuedBy));
    FieldNamed(RECORD, vals, 3, "meta", Map(r.metadata));
    FieldNamed(RECORD, vals, 4, "pubkey", Bin(r.publicKey));
    FieldNamed(RECORD, vals, 5, "revoked_at", r.revokedAt);
    FieldNamed(RECORD, vals, 6, "valid_until", r.validUntil);
    assert SerialiseRecord(r) == Encode(v) && NamesRecord(v, r);
  }

  lemma {:induction false} RecordByName(e: IdentityEntry)
    ensures NamesRecord(IdentityValue(e), e.record) && Item(IdentityValue(e), "proof") == Ok(ProofValue(e.proof))
  {
    IdentityNames();
    var vals, r := IdentityFields(e), e.record;
    FieldNamed(IDENTITY, vals, 0, "did", r.did);
    FieldNamed(IDENTITY, vals, 1, "issued_at", r.issuedAt);
    FieldNamed(IDENTITY, vals, 2, "issued_by", Array(r.issuedBy));
    FieldNamed(IDENTITY, vals, 3, "meta", Map(r.metadata));
    FieldNamed(IDENTITY, vals, 4, "proof", ProofValue(e.proof));
    FieldNamed(IDENTITY, vals, 5, "pubkey", Bin(r.publicKey));
    FieldNamed(IDENTITY, vals, 6, "revoked_at", r.revokedAt);
    FieldNamed(IDENTITY, vals, 7, "valid_until", r.validUntil);
  }

  /** Sibling `s` as a reader finds it: its hash, and the side on which it stands. */
  ghost predicate NamesStep(v: Value, s: Merkle.Step) {
    Item(v, "h") == Ok(Bin(s.h)) && Item(v, "s") == Ok(Text(Ascii(if s.left then "left" else "right")))
  }

  ghost predicate NamesProof(v: Value, leaf: ByteString, root: ByteString, steps: seq<Merkle.Step>) {
    && Item(v, "leaf") == Ok(Bin(leaf)) && Item(v, "root") == Ok(Bin(root))
    && Item(v, "siblings").Ok? && Item(v, "siblings").value.Array?
    && |Item(v, "siblings").value.items| == |steps|
    && forall i :: 0 <= i < |steps| ==> NamesStep(Item(v, "siblings").value.items[i], steps[i])
  }

  lemma {:induction false} ProofByName(leaf: ByteString, root: ByteString, steps: seq<Merkle.Step>)
    ensures NamesProof(ProofValue(MerkleProof(leaf, FromSteps(steps), root)), leaf, root, steps)
  {
    ProofNames();
    var p := MerkleProof(leaf, FromSteps(steps), root);
    var vals := ProofFields(p);
    FieldNamed(PROOF, vals, 0, "leaf", Bin(leaf));
    FieldNamed(PROOF, vals, 1, "root", Bin(root));
    FieldNamed(PROOF, vals, 2, "siblings", Array(MapSeq(SiblingValue, p.siblings)));
    forall i | 0 <= i < |steps| ensures NamesStep(SiblingValue(p.siblings[i]), steps[i]) {
      SiblingByName(p.siblings[i]);
    }
  }

  lemma {:induction false} SiblingByName(s: Sibling)
    ensures Item(SiblingValue(s), "h") == Ok(Bin(s.h)) && Item(SiblingValue(s), "s") == Ok(s.side)
  {
    SiblingNames();
    FieldNamed(SIBLING, SiblingFields(s), 0, "h", Bin(s.h));
    FieldNamed(SIBLING, SiblingFields(s), 1, "s", s.side);
  }

  /** The i-th identity: the i-th active record by DID, the hash of its leaf, and a path of siblings that
      leads from there to the root of the snapshot. */
  ghost predicate NamesIdentity(sha: Hash, v: Value, r: Record, root: ByteString) {
    && NamesRecord(v, r) && Item(v, "proof").Ok?
    && exists steps :: NamesProof(Item(v, "proof").value, sha([0] + SerialiseRecord(r)), root, steps) &&
         Merkle.Climb(sha, sha([0] + SerialiseRecord(r)), steps) == root
  }

  lemma {:induction false} IdentityByName(sha: Hash, records: seq<Record>, i: nat)
    requires i < |records|
    ensures NamesIdentity(sha, IdentityValue(EntryAt(sha, records, i)), records[i], Merkle.Root(sha, LeafData(records)))
  {
    var leaves := LeafData(records);
    var steps, leaf, root := Merkle.Proof(sha, leaves, i), Merkle.LeafHash(sha, leaves[i]), Merkle.Root(sha, leaves);
    RecordByName(EntryAt(sha, records, i));
    ProofByName(leaf, root, steps);
    MerkleLaws.ProofComplete(sha, leaves, i);
  }

  ghost predicate NamesSignature(v: Value, signer: Validator, message: ByteString) {
    && Item(v, "val_did") == Ok(Text(signer.did)) && Item(v, "val_pk") == Ok(Bin(signer.publicKey))
    && Item(v, "sig") == Ok(Bin(signer.sign(message)))
  }

  lemma {:induction false} SignatureByName(signer: Validator, message: ByteString)
    ensures NamesSignature(SignatureValue(SignatureBy(signer, message)), signer, message)
  {
    SignatureNames();
    var vals := SignatureFields(SignatureBy(signer, message));
    FieldNamed(SIGNATURE, vals, 0, "sig", Bin(signer.sign(message)));
    FieldNamed(SIGNATURE, vals, 1, "val_did", Text(signer.did));
    FieldNamed(SIGNATURE, vals, 2, "val_pk", Bin(signer.publicKey));
  }

  /** The block of a snapshot: 1000 for an empty ledger, otherwise one after the last. */
  ghost predicate IsNextBlock(v: Value, log: seq<Record>) {
    && v.UInt? && (log == [] ==> v.n == 1000) && (forall r :: r in log ==> BlockOf(r) < v.n)
    && (log != [] ==> exists r :: r in log && BlockOf(r) + 1 == v.n)
  }

  /** The header of the document `v` of a generation with these validators. */
  ghost predicate NamesHeader(v: Value, g: Generation, vs: seq<Validator>, root: ByteString) {
    && Item(v, "fmt_ver") == Ok(UInt(1)) && Item(v, "issued_at") == Ok(UInt(g.now))
    && g.now + g.grace >= 0 && Item(v, "expires_at") == Ok(UInt(g.now + g.grace))
    && Item(v, "threshold") == Ok(UInt(g.threshold)) && Item(v, "snap_root") == Ok(Bin(root))
    && Item(v, "snap_block").Ok? && IsNextBlock(Item(v, "snap_block").value, g.log)
    && Item(v, "val_set").Ok? && Item(v, "val_set").value.Array? && |Item(v, "val_set").value.items| == |vs|
    && forall i :: 0 <= i < |vs| ==> Item(v, "val_set").value.items[i] == Text(vs[i].did)
  }

  lemma {:induction false} HeaderByName(b: TrustBundle, signatures: seq<Value>)
    ensures var v := BundleValue(b, signatures);
      && Item(v, "expires_at") == Ok(b.expiresAt) && Item(v, "fmt_ver") == Ok(b.formatVersion)
      && Item(v, "issued_at") == Ok(b.issuedAt) && Item(v, "snap_block") == Ok(b.snapshotBlock)
      && Item(v, "snap_root") == Ok(Bin(b.snapshotRoot)) && Item(v, "threshold") == Ok(b.threshold)
      && Item(v, "val_set") == Ok(Array(b.validatorSet))
      && Item(v, "identities") == Ok(Array(MapSeq(IdentityValue, b.identities)))
      && Item(v, "signatures") == Ok(Array(signatures))
  {
    BundleNames();
    var vals := BundleFields(b, signatures);
    FieldNamed(BUNDLE, vals, 0, "expires_at", b.expiresAt);
    FieldNamed(BUNDLE, vals, 1, "fmt_ver", b.formatVersion);
    FieldNamed(BUNDLE, vals, 2, "identities", Array(MapSeq(IdentityValue, b.identities)));
    FieldNamed(BUNDLE, vals, 3, "issued_at", b.issuedAt);
    FieldNamed(BUNDLE, vals, 4, "signatures", Array(signatures));
    FieldNamed(BUNDLE, vals, 5, "snap_block", b.snapshotBlock);
    FieldNamed(BUNDLE, vals, 6, "snap_root", Bin(b.snapshotRoot));
    FieldNamed(BUNDLE, vals, 7, "threshold", b.threshold);
    FieldNamed(BUNDLE, vals, 8, "val_set", Array(b.validatorSet));
  }

  lemma {:induction false} BlockFollows(log: seq<Record>)
    ensures IsNextBlock(UInt(NextBlock(log)), log)
  {
    NextBlockFollows(log);
  }

  lemma {:induction false} UnsignedByName(sha: Hash, g: Generation, vs: seq<Validator>, signatures: seq<Value>)
    requires g.now + g.grace >= 0 && g.validators == MapSeq(DidOf, vs)
    ensures NamesHeader(BundleValue(Unsigned(sha, g), signatures), g, vs, Unsigned(sha, g).snapshotRoot)
  {
    HeaderByName(Unsigned(sha, g), signatures);
    BlockFollows(g.log);
  }

  ghost predicate NamesIdentities(sha: Hash, v: Value, active: seq<Record>, root: ByteString) {
    && Item(v, "identities").Ok? && Item(v, "identities").value.Array?
    && |Item(v, "identities").value.items| == |active|
    && forall i :: 0 <= i < |active| ==> NamesIdentity(sha, Item(v, "identities").value.items[i], active[i], root)
  }

  ghost predicate NamesSignatures(v: Value, vs: seq<Validator>, message: ByteString) {
    && Item(v, "signatures").Ok? && Item(v, "signatures").value.Array?
    && |Item(v, "signatures").value.items| == |vs|
    && forall i :: 0 <= i < |vs| ==> NamesSignature(Item(v, "signatures").value.items[i], vs[i], message)
  }

  lemma {:induction false} IdentitiesByName(sha: Hash, g: Generation, signatures: seq<Value>)
    requires g.now + g.grace >= 0
    ensures NamesIdentities(sha, BundleValue(Unsigned(sha, g), signatures), SortedActive(g.log),
      Unsigned(sha, g).snapshotRoot)
  {
    var u, active := Unsigned(sha, g), SortedActive(g.log);
    HeaderByName(u, signatures);
    forall i | 0 <= i < |active| ensures NamesIdentity(sha, IdentityValue(u.identities[i]), active[i], u.snapshotRoot) {
      IdentityByName(sha, active, i);
    }
  }

  lemma {:induction false} SignaturesByName(b: TrustBundle, vs: seq<Validator>, message: ByteString)
    requires b.signatures == SignaturesBy(vs, message)
    ensures NamesSignatures(PublishedValue(b), vs, message)
  {
    HeaderByName(b, MapSeq(SignatureValue, b.signatures));
    forall i | 0 <= i < |vs| ensures NamesSignature(SignatureValue(b.signatures[i]), vs[i], message) {
      SignatureByName(vs[i], message);
    }
  }

  /** What a generation publishes, field by field, and what it has signed: the same document with an empty
      list of signatures. */
  lemma {:induction false} PublishedByName(sha: Hash, g: Generation, vs: seq<Validator>)
    returns (message: Value, root: ByteString)
    requires g.now + g.grace >= 0 && g.validators == MapSeq(DidOf, vs)
    ensures var v, active := PublishedValue(Signed(sha, g, vs)), SortedActive(g.log);
      && NamesHeader(v, g, vs, root) && NamesIdentities(sha, v, active, root)
      && NamesHeader(message, g, vs, root) && NamesIdentities(sha, message, active, root)
      && Item(message, "signatures") == Ok(Array([])) && NamesSignatures(v, vs, Encode(message))
      && (active == [] ==> root == sha([]))
  {
    var u, b := Unsigned(sha, g), Signed(sha, g, vs);
    message, root := SigningValue(u), u.snapshotRoot;
    var sigs := MapSeq(SignatureValue, b.signatures);
    assert PublishedValue(b) == BundleValue(u, sigs);
    UnsignedByName(sha, g, vs, sigs);
    UnsignedByName(sha, g, vs, []);
    IdentitiesByName(sha, g, sigs);
    IdentitiesByName(sha, g, []);
    HeaderByName(u, []);
    SignaturesByName(b, vs, Encode(message));
  }
}
