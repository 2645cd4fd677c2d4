/** Writing, reading and generating trust bundles (src/decpki/bundle.py). */
module Bundle {
  import opened Bytes
  import opened Sorting
  import opened Cbor
  import opened Fields
  import opened Models
  import opened PyValues
  import Merkle

  // ----- the documents, as CBOR values

  const RECORD: seq<string> := ["did", "issued_at", "issued_by", "meta", "pubkey", "revoked_at", "valid_until"]
  const PROOF: seq<string> := ["leaf", "root", "siblings"]
  const SIBLING: seq<string> := ["h", "s"]
  const IDENTITY: seq<string> :=
    ["did", "issued_at", "issued_by", "meta", "proof", "pubkey", "revoked_at", "valid_until"]
  const SIGNATURE: seq<string> := ["sig", "val_did", "val_pk"]
  const BUNDLE: seq<string> :=
    ["expires_at", "fmt_ver", "identities", "issued_at", "signatures", "snap_block", "snap_root", "threshold", "val_set"]

  lemma {:induction false} RecordNames() ensures GoodNames(RECORD) {}

  lemma {:induction false} ProofNames() ensures GoodNames(PROOF) {}

  lemma {:induction false} SiblingNames() ensures GoodNames(SIBLING) {}

  lemma {:induction false} IdentityNames()
    ensures GoodNames(IDENTITY)
  {
    assert IDENTITY[1][7] != IDENTITY[2][7];
  }

  lemma {:induction false} SignatureNames() ensures GoodNames(SIGNATURE) {}

  lemma {:induction false} BundleNames()
    ensures GoodNames(BUNDLE)
  {
    assert BUNDLE[0][0] != BUNDLE[2][0] && BUNDLE[3][0] != BUNDLE[7][0] && BUNDLE[1][0] != BUNDLE[8][0];
  }

  function RecordFields(r: Record): (vals: seq<Value>)
    ensures |vals| == |RECORD|
  {
    [r.did, r.issuedAt, Array(r.issuedBy), Map(r.metadata), Bin(r.publicKey), r.revokedAt, r.validUntil]
  }

  function RecordValue(r: Record): Value { MapOf(RECORD, RecordFields(r)) }

  /** `serialise_record`: a leaf of the Merkle tree. */
  function SerialiseRecord(r: Record): ByteString { Encode(RecordValue(r)) }

  function SiblingFields(s: Sibling): (vals: seq<Value>)
    ensures |vals| == |SIBLING|
  {
    [Bin(s.h), s.side]
  }

  function SiblingValue(s: Sibling): Value { MapOf(SIBLING, SiblingFields(s)) }

  function ProofFields(p: MerkleProof): (vals: seq<Value>)
    ensures |vals| == |PROOF|
  {
    [Bin(p.leafHash), Bin(p.root), Array(MapSeq(SiblingValue, p.siblings))]
  }

  /** `_proof_to_cbor` */
  function ProofValue(p: MerkleProof): Value { MapOf(PROOF, ProofFields(p)) }

  function IdentityFields(e: IdentityEntry): (vals: seq<Value>)
    ensures |vals| == |IDENTITY|
  {
    var r := e.record;
    [r.did, r.issuedAt, Array(r.issuedBy), Map(r.metadata), ProofValue(e.proof), Bin(r.publicKey),
     r.revokedAt, r.validUntil]
  }

  function IdentityValue(e: IdentityEntry): Value { MapOf(IDENTITY, IdentityFields(e)) }

  function SignatureFields(s: Signature): (vals: seq<Value>)
    ensures |vals| == |SIGNATURE|
  {
    [Bin(s.signature), s.validatorDid, Bin(s.publicKey)]
  }

  function SignatureValue(s: Signature): Value { MapOf(SIGNATURE, SignatureFields(s)) }

  function BundleFields(b: TrustBundle, signatures: seq<Value>): (vals: seq<Value>)
    ensures |vals| == |BUNDLE|
  {
    [b.expiresAt, b.formatVersion, Array(MapSeq(IdentityValue, b.identities)), b.issuedAt, Array(signatures),
     b.snapshotBlock, Bin(b.snapshotRoot), b.threshold, Array(b.validatorSet)]
  }

  function BundleValue(b: TrustBundle, signatures: seq<Value>): Value {
    MapOf(BUNDLE, BundleFields(b, signatures))
  }

  /** What validators sign: the document without its signatures. */
  function SigningValue(b: TrustBundle): Value { BundleValue(b, []) }

  function SigningBytes(b: TrustBundle): ByteString { Encode(SigningValue(b)) }

  /** What is published. */
  function PublishedValue(b: TrustBundle): Value { BundleValue(b, MapSeq(SignatureValue, b.signatures)) }

  /** `serialise_bundle_for_signing` */
  method SerialiseForSigning(b: TrustBundle) returns (bytes: ByteString)
    ensures bytes == SigningBytes(b)
  {
    var identities := IdentitiesToCbor(b.identities);
    bytes := Encode(MapOf(BUNDLE,
      [b.expiresAt, b.formatVersion, Array(identities), b.issuedAt, Array([]), b.snapshotBlock,
       Bin(b.snapshotRoot), b.threshold, Array(b.validatorSet)]));
  }

  method IdentitiesToCbor(entries: seq<IdentityEntry>) returns (vals: seq<Value>)
    ensures vals == MapSeq(IdentityValue, entries)
  {
    vals := [];
    for i := 0 to |entries|
      invariant |vals| == i && forall k :: 0 <= k < i ==> vals[k] == IdentityValue(entries[k])
    {
      vals := vals + [IdentityValue(entries[i])];
    }
  }

  // ----- reading

  /** `_record_from_cbor` */
  function RecordFrom(d: Value): Py<Record> {
    var did :- Item(d, "did");
    var key :- Item(d, "pubkey");
    var publicKey :- PyBytes(key);
    var issuedAt :- Item(d, "issued_at");
    var issuers :- Item(d, "issued_by");
    var issuedBy :- PyList(issuers);
    var metadata :- PyDict(Get(d.entries, "meta", Map([])));
    Ok(Record(did, publicKey, issuedAt, issuedBy,
      Get(d.entries, "valid_until", Null), Get(d.entries, "revoked_at", Null), metadata))
  }

  function SiblingFrom(s: Value): Py<Sibling> {
    var h :- Item(s, "h");
    var bytes :- PyBytes(h);
    var side :- Item(s, "s");
    Ok(Sibling(bytes, side))
  }

  function SiblingsFrom(items: seq<Value>): (r: Py<seq<Sibling>>)
    ensures r.Ok? ==> |r.value| == |items|
  {
    if items == [] then Ok([])
    else
      var first :- SiblingFrom(items[0]);
      var rest :- SiblingsFrom(items[1..]);
      Ok([first] + rest)
  }

  /** `_proof_from_cbor` */
  function ProofFrom(d: Value): Py<MerkleProof> {
    var l :- Item(d, "leaf");
    var leaf :- PyBytes(l);
    var s :- Item(d, "siblings");
    var items :- PyList(s);
    var siblings :- SiblingsFrom(items);
    var r :- Item(d, "root");
    var root :- PyBytes(r);
    Ok(MerkleProof(leaf, siblings, root))
  }

  function EntryFrom(d: Value): Py<IdentityEntry> {
    var record :- RecordFrom(d);
    var p :- Item(d, "proof");
    var proof :- ProofFrom(p);
    Ok(IdentityEntry(record, proof))
  }

  function EntriesFrom(items: seq<Value>): (r: Py<seq<IdentityEntry>>)
    ensures r.Ok? ==> |r.value| == |items|
  {
    if items == [] then Ok([])
    else
      var first :- EntryFrom(items[0]);
      var rest :- EntriesFrom(items[1..]);
      Ok([first] + rest)
  }

  function SignatureFrom(d: Value): Py<Signature> {
    var did :- Item(d, "val_did");
    var k :- Item(d, "val_pk");
    var key :- PyBytes(k);
    var s :- Item(d, "sig");
    var sig :- PyBytes(s);
    Ok(Signature(did, key, sig))
  }

  function SignaturesFrom(items: seq<Value>): (r: Py<seq<Signature>>)
    ensures r.Ok? ==> |r.value| == |items|
  {
    if items == [] then Ok([])
    else
      var first :- SignatureFrom(items[0]);
      var rest :- SignaturesFrom(items[1..]);
      Ok([first] + rest)
  }

  /** The scalar fields, read last. */
  function HeaderFrom(m: Value, identities: seq<IdentityEntry>, signatures: seq<Signature>): Py<TrustBundle> {
    var version :- Item(m, "fmt_ver");
    var block :- Item(m, "snap_block");
    var r :- Item(m, "snap_root");
    var root :- PyBytes(r);
    var issuedAt :- Item(m, "issued_at");
    var expiresAt :- Item(m, "expires_at");
    var threshold :- Item(m, "threshold");
    var v :- Item(m, "val_set");
    var validators :- PyList(v);
    Ok(TrustBundle(version, block, root, issuedAt, expiresAt, threshold, validators, identities, signatures))
  }

  /** What `deserialise_bundle` makes of a parsed document. `Caught` is a BundleDecodeError. */
  function BundleFrom(m: Value): Py<TrustBundle> {
    if !m.Map? then Uncaught
    else if !EqualsOne(Get(m.entries, "fmt_ver", Null)) then Caught
    else
      var ids :- PyList(Get(m.entries, "identities", Array([])));
      var identities :- EntriesFrom(ids);
      var sigs :- PyList(Get(m.entries, "signatures", Array([])));
      var signatures :- SignaturesFrom(sigs);
      HeaderFrom(m, identities, signatures)
  }

  function Read(w: World, raw: ByteString): Py<TrustBundle> {
    match w.loads(raw)
    case None => Caught
    case Some(m) => BundleFrom(m)
  }

  /** `deserialise_bundle` */
  method Deserialise(w: World, raw: ByteString) returns (r: Py<TrustBundle>)
    ensures r == Read(w, raw)
  {
    var parsed := w.loads(raw);
    if parsed.None? { return Caught; }
    var m := parsed.value;
    if !m.Map? { return Uncaught; }
    if !EqualsOne(Get(m.entries, "fmt_ver", Null)) { return Caught; }
    var ids := PyList(Get(m.entries, "identities", Array([])));
    if ids.IsFailure() { return ids.PropagateFailure(); }
    var identities := ReadIdentities(ids.value);
    if identities.IsFailure() { return identities.PropagateFailure(); }
    var sigs := PyList(Get(m.entries, "signatures", Array([])));
    if sigs.IsFailure() { return sigs.PropagateFailure(); }
    var signatures := ReadSignatures(sigs.value);
    if signatures.IsFailure() { return signatures.PropagateFailure(); }
    r := HeaderFrom(m, identities.value, signatures.value);
  }

  method ReadIdentities(items: seq<Value>) returns (r: Py<seq<IdentityEntry>>)
    ensures r == EntriesFrom(items)
  {
    var identities := [];
    assert items[0..] == items;
    PrependNothing(EntriesFrom(items));
    for i := 0 to |items|
      invariant EntriesFrom(items) == Prepend(identities, EntriesFrom(items[i..]))
    {
      var entry := EntryFrom(items[i]);
      EntriesFromStep(items, i, identities);
      if entry.IsFailure() { return entry.PropagateFailure(); }
      identities := identities + [entry.value];
    }
    r := Ok(identities);
    assert identities + [] == identities;
  }

  method ReadSignatures(items: seq<Value>) returns (r: Py<seq<Signature>>)
    ensures r == SignaturesFrom(items)
  {
    var signatures := [];
    assert items[0..] == items;
    PrependNothing(SignaturesFrom(items));
    for i := 0 to |items|
      invariant SignaturesFrom(items) == Prepend(signatures, SignaturesFrom(items[i..]))
    {
      var sig := SignatureFrom(items[i]);
      SignaturesFromStep(items, i, signatures);
      if sig.IsFailure() { return sig.PropagateFailure(); }
      signatures := signatures + [sig.value];
    }
    r := Ok(signatures);
    assert signatures + [] == signatures;
  }

  lemma {:induction false} PrependNothing<T>(rest: Py<seq<T>>)
    ensures Prepend([], rest) == rest
  {
    if rest.Ok? { assert [] + rest.value == rest.value; }
  }

  ghost function Prepend<T>(done: seq<T>, rest: Py<seq<T>>): Py<seq<T>> {
    if rest.Ok? then Ok(done + rest.value) else rest
  }

  lemma {:induction false} EntriesFromStep(items: seq<Value>, i: nat, done: seq<IdentityEntry>)
    requires i < |items|
    ensures Prepend(done, EntriesFrom(items[i..])) ==
      if EntryFrom(items[i]).Ok? then Prepend(done + [EntryFrom(items[i]).value], EntriesFrom(items[i + 1..]))
      else EntryFrom(items[i]).PropagateFailure()
  {
    assert items[i..][0] == items[i] && items[i..][1..] == items[i + 1..];
    var e, rest := EntryFrom(items[i]), EntriesFrom(items[i + 1..]);
    if e.Ok? && rest.Ok? { Merkle.Append(done, e.value, rest.value); }
  }

  lemma {:induction false} SignaturesFromStep(items: seq<Value>, i: nat, done: seq<Signature>)
    requires i < |items|
    ensures Prepend(done, SignaturesFrom(items[i..])) ==
      if SignatureFrom(items[i]).Ok? then Prepend(done + [SignatureFrom(items[i]).value], SignaturesFrom(items[i + 1..]))
      else SignatureFrom(items[i]).PropagateFailure()
  {
    assert items[i..][0] == items[i] && items[i..][1..] == items[i + 1..];
    var e, rest := SignatureFrom(items[i]), SignaturesFrom(items[i + 1..]);
    if e.Ok? && rest.Ok? { Merkle.Append(done, e.value, rest.value); }
  }

  // ----- generating

  function DidKey(r: Record): ByteString {
    match r.did case Text(bs) => bs case _ => []
  }

  /** `log.active_records()` */
  function ActiveRecords(log: seq<Record>): (r: seq<Record>)
    ensures forall x :: x in r <==> x in log && x.IsActive()
  {
    if log == [] then []
    else (if log[0].IsActive() then [log[0]] else []) + ActiveRecords(log[1..])
  }

  function BlockOf(r: Record): nat {
    match r.issuedAt case UInt(n) => n case _ => 0
  }

  function MaxBlock(log: seq<Record>): nat
    requires log != []
  {
    if |log| == 1 then BlockOf(log[0])
    else
      var rest := MaxBlock(log[1..]);
      if BlockOf(log[0]) > rest then BlockOf(log[0]) else rest
  }

  /** `log.next_block` */
  function NextBlock(log: seq<Record>): nat {
    if log == [] then 1000 else MaxBlock(log) + 1
  }

  /** The arguments of one call of `generate_bundle`, with the second at which it ran. */
  datatype Generation = Generation(
    log: seq<Record>,
    validators: seq<ByteString>,
    threshold: nat,
    grace: int,
    now: nat)

  function SortedActive(log: seq<Record>): seq<Record> {
    Sort(ActiveRecords(log), DidKey, LexLe)
  }

  function LeafData(records: seq<Record>): (r: seq<ByteString>)
    ensures |r| == |records|
  {
    MapSeq(SerialiseRecord, records)
  }

  function EntryAt(sha: Hash, records: seq<Record>, i: nat): IdentityEntry
    requires i < |records|
  {
    var leaves := LeafData(records);
    IdentityEntry(records[i], MerkleProof(
      Merkle.LeafHash(sha, leaves[i]), FromSteps(Merkle.Proof(sha, leaves, i)), Merkle.Root(sha, leaves)))
  }

  function Entries(sha: Hash, records: seq<Record>): (r: seq<IdentityEntry>)
    ensures |r| == |records|
  {
    seq(|records|, i requires 0 <= i < |records| => EntryAt(sha, records, i))
  }

  function TextOf(bs: ByteString): Value { Text(bs) }

  /** The bundle of a generation before it is signed. */
  function Unsigned(sha: Hash, g: Generation): TrustBundle
    requires g.now + g.grace >= 0
  {
    var active := SortedActive(g.log);
    TrustBundle(
      UInt(1), UInt(NextBlock(g.log)), Merkle.Root(sha, LeafData(active)), UInt(g.now), UInt(g.now + g.grace),
      UInt(g.threshold), MapSeq(TextOf, g.validators),
      Entries(sha, active), [])
  }

  function SignatureBy(v: Validator, message: ByteString): Signature {
    Signature(Text(v.did), v.publicKey, v.sign(message))
  }

  function SignaturesBy(vs: seq<Validator>, message: ByteString): (r: seq<Signature>)
    ensures |r| == |vs|
  {
    seq(|vs|, i requires 0 <= i < |vs| => SignatureBy(vs[i], message))
  }

  function DidOf(v: Validator): ByteString { v.did }

  /** The signed bundle that `generate_bundle` publishes. */
  function Signed(sha: Hash, g: Generation, vs: seq<Validator>): TrustBundle
    requires g.now + g.grace >= 0
  {
    var b := Unsigned(sha, g);
    b.(signatures := SignaturesBy(vs, SigningBytes(b)))
  }

  datatype Generated = Published(bytes: ByteString) | QuorumError(required: nat, provided: nat)

  method BuildEntries(sha: Hash, active: seq<Record>, leafData: seq<ByteString>, tree: seq<Merkle.Layer>,
                      root: Digest)
    returns (entries: seq<IdentityEntry>)
    requires leafData == LeafData(active) && tree == Merkle.Layers(sha, leafData) && root == Merkle.Root(sha, leafData)
    ensures entries == Entries(sha, active)
  {
    entries := [];
    for i := 0 to |active|
      invariant |entries| == i && forall k :: 0 <= k < i ==> entries[k] == EntryAt(sha, active, k)
    {
      var entry := BuildEntry(sha, active, leafData, tree, root, i);
      entries := entries + [entry];
    }
  }

  method BuildEntry(sha: Hash, active: seq<Record>, leafData: seq<ByteString>, tree: seq<Merkle.Layer>,
                    root: Digest, i: nat)
    returns (entry: IdentityEntry)
    requires leafData == LeafData(active) && tree == Merkle.Layers(sha, leafData) && root == Merkle.Root(sha, leafData)
    requires i < |active|
    ensures entry == EntryAt(sha, active, i)
  {
    var steps := Merkle.GetProof(tree, i, sha, leafData);
    var proof := MerkleProof(Merkle.LeafHash(sha, leafData[i]), FromSteps(steps), root);
    entry := IdentityEntry(active[i], proof);
  }

  method ValidatorDids(validators: seq<Validator>) returns (dids: seq<Value>)
    ensures dids == MapSeq(TextOf, MapSeq(DidOf, validators))
  {
    dids := [];
    for i := 0 to |validators|
      invariant |dids| == i && forall k :: 0 <= k < i ==> dids[k] == Text(validators[k].did)
    {
      dids := dids + [Text(validators[i].did)];
    }
  }

  method SignAll(validators: seq<Validator>, message: ByteString) returns (sigs: seq<Signature>)
    ensures sigs == SignaturesBy(validators, message)
  {
    sigs := [];
    for i := 0 to |validators|
      invariant |sigs| == i && forall k :: 0 <= k < i ==> sigs[k] == SignatureBy(validators[k], message)
    {
      sigs := sigs + [SignatureBy(validators[i], message)];
    }
  }

  method SignaturesToCbor(sigs: seq<Signature>) returns (vals: seq<Value>)
    ensures vals == MapSeq(SignatureValue, sigs)
  {
    vals := [];
    for i := 0 to |sigs|
      invariant |vals| == i && forall k :: 0 <= k < i ==> vals[k] == SignatureValue(sigs[k])
    {
      vals := vals + [SignatureValue(sigs[i])];
    }
  }

  method BuildSnapshot(sha: Hash, active: seq<Record>) returns (root: Digest, identities: seq<IdentityEntry>)
    ensures root == Merkle.Root(sha, LeafData(active)) && identities == Entries(sha, active)
  {
    var leafData := LeafData(active);
    var tree := Merkle.BuildTree(sha, leafData);
    root := Merkle.GetRoot(tree, sha, leafData);
    identities := BuildEntries(sha, active, leafData, tree, root);
  }

  method BuildUnsigned(sha: Hash, validators: seq<Validator>, g: Generation) returns (bundle: TrustBundle)
    requires g.now + g.grace >= 0 && g.validators == MapSeq(DidOf, validators)
    ensures bundle == Unsigned(sha, g)
  {
    var active := SortedActive(g.log);
    var root, identities := BuildSnapshot(sha, active);
    var dids := ValidatorDids(validators);
    bundle := TrustBundle(UInt(1), UInt(NextBlock(g.log)), root, UInt(g.now), UInt(g.now + g.grace),
      UInt(g.threshold), dids, identities, []);
    SameParts(bundle, Unsigned(sha, g));
  }

  lemma {:induction false} SameParts(b: TrustBundle, c: TrustBundle)
    requires b.formatVersion == c.formatVersion && b.snapshotBlock == c.snapshotBlock
    requires b.snapshotRoot == c.snapshotRoot && b.issuedAt == c.issuedAt && b.expiresAt == c.expiresAt
    requires b.threshold == c.threshold && b.validatorSet == c.validatorSet
    requires b.identities == c.identities && b.signatures == c.signatures
    ensures b == c
  {
  }

  /** `generate_bundle`; `g.now` is `int(time.time())`. */
  method GenerateBundle(sha: Hash, validators: seq<Validator>, g: Generation) returns (r: Generated)
    requires g.now + g.grace >= 0 && g.validators == MapSeq(DidOf, validators)
    ensures r == if |validators| < g.threshold then QuorumError(g.threshold, |validators|)
      else Published(Encode(PublishedValue(Signed(sha, g, validators))))
  {
    if |validators| < g.threshold { return QuorumError(g.threshold, |validators|); }
    var bundle := BuildUnsigned(sha, validators, g);
    var signingBytes := SerialiseForSigning(bundle);
    var sigs := SignAll(validators, signingBytes);
    bundle := bundle.(signatures := sigs);
    var bytes := Publish(bundle);
    r := Published(bytes);
  }

  /** The document once more, with its signatures. */
  method Publish(b: TrustBundle) returns (bytes: ByteString)
    ensures bytes == Encode(PublishedValue(b))
  {
    var identities := IdentitiesToCbor(b.identities);
    var sigs := SignaturesToCbor(b.signatures);
    bytes := Encode(MapOf(BUNDLE,
      [b.expiresAt, b.formatVersion, Array(identities), b.issuedAt, Array(sigs), b.snapshotBlock,
       Bin(b.snapshotRoot), b.threshold, Array(b.validatorSet)]));
  }
}
