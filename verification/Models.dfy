/** Records, proofs, signatures and bundles (src/decpki/models.py). A bundle read from a file is
    untyped: a field the source does not convert keeps whatever CBOR value it had. */
module Models {
  import opened Bytes
  import opened Cbor
  import Merkle

  datatype Record = Record(
    did: Value,
    publicKey: ByteString,
    issuedAt: Value,
    issuedBy: seq<Value>,
    validUntil: Value,
    revokedAt: Value,
    metadata: seq<Entry>)
  {
    predicate IsActive() { revokedAt == Null }
  }

  /** `side` is "left"; anything else counts as right. */
  datatype Sibling = Sibling(h: ByteString, side: Value)

  datatype MerkleProof = MerkleProof(leafHash: ByteString, siblings: seq<Sibling>, root: ByteString)

  datatype IdentityEntry = IdentityEntry(record: Record, proof: MerkleProof)

  datatype Signature = Signature(validatorDid: Value, publicKey: ByteString, signature: ByteString)

  datatype TrustBundle = TrustBundle(
    formatVersion: Value,
    snapshotBlock: Value,
    snapshotRoot: ByteString,
    issuedAt: Value,
    expiresAt: Value,
    threshold: Value,
    validatorSet: seq<Value>,
    identities: seq<IdentityEntry>,
    signatures: seq<Signature>)

  /** A validator's DID, public key and signing function. */
  datatype Validator = Validator(did: ByteString, publicKey: ByteString, sign: ByteString -> ByteString)

  /** The functions of the world around the program: SHA-256, the signature check on (public key,
      message, signature), and the CBOR parser, which may fail. */
  datatype World = World(
    sha: Hash,
    check: (ByteString, ByteString, ByteString) -> bool,
    loads: ByteString -> Option<Value>)

  function ToSteps(siblings: seq<Sibling>): (r: seq<Merkle.Step>)
    ensures |r| == |siblings|
  {
    seq(|siblings|, i requires 0 <= i < |siblings| =>
      Merkle.Step(siblings[i].h, siblings[i].side == Text(Ascii("left"))))
  }

  function FromSteps(steps: seq<Merkle.Step>): (r: seq<Sibling>)
    ensures |r| == |steps|
  {
    seq(|steps|, i requires 0 <= i < |steps| =>
      Sibling(steps[i].h, Text(Ascii(if steps[i].left then "left" else "right"))))
  }

  lemma {:induction false} StepsRoundTrip(steps: seq<Merkle.Step>)
    ensures ToSteps(FromSteps(steps)) == steps
  {
    assert |Ascii("left")| != |Ascii("right")|;
  }
}
