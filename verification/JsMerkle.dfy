/** The browser's Merkle checks (browser/src/crypto.js): buffers filled in place, hashes compared
    byte by byte. Both accept exactly what the Python check accepts. */
module JsMerkle {
  import opened Bytes
  import opened Merkle

  /** `combined.set(bytes, offset)` */
  method Fill(combined: array<Byte>, bytes: ByteString, offset: nat)
    requires offset + |bytes| <= combined.Length
    modifies combined
    ensures combined[..] == old(combined[..offset]) + bytes + old(combined[offset + |bytes|..])
  {
    var i := 0;
    while i < |bytes|
      invariant 0 <= i <= |bytes|
      invariant combined[..offset] == old(combined[..offset])
      invariant combined[offset..offset + i] == bytes[..i]
      invariant combined[offset + |bytes|..] == old(combined[offset + |bytes|..])
    {
      combined[offset + i] := bytes[i];
      assert combined[offset..offset + i + 1] == combined[offset..offset + i] + [bytes[i]];
      i := i + 1;
    }
    assert combined[..] == combined[..offset] + combined[offset..offset + |bytes|] + combined[offset + |bytes|..];
  }

  /** `hashLeaf` */
  method HashLeaf(sha: Hash, leaf: ByteString) returns (d: Digest)
    ensures d == LeafHash(sha, leaf)
  {
    var combined := new Byte[1 + |leaf|](_ => 0);
    Fill(combined, [0x00], 0);
    Fill(combined, leaf, 1);
    assert combined[..] == LeafInput(leaf);
    d := sha(combined[..]);
  }

  /** `hashNode` */
  method HashNode(sha: Hash, left: ByteString, right: ByteString) returns (d: Digest)
    ensures d == NodeHash(sha, left, right)
  {
    var combined := new Byte[1 + |left| + |right|](_ => 0);
    combined[0] := 0x01;
    Fill(combined, left, 1);
    Fill(combined, right, 1 + |left|);
    assert combined[..] == NodeInput(left, right);
    d := sha(combined[..]);
  }

  method SameBytes(a: ByteString, b: ByteString) returns (same: bool)
    ensures same == (a == b)
  {
    if |a| != |b| { return false; }
    var i := 0;
    while i < |a|
      invariant 0 <= i <= |a| && a[..i] == b[..i]
    {
      if a[i] != b[i] { return false; }
      i := i + 1;
    }
    assert a == a[..i] && b == b[..i];
    same := true;
  }

  /** `verifyMerkleProofFromHash` */
  method VerifyFromHash(sha: Hash, leafHash: ByteString, siblings: seq<Step>, root: ByteString) returns (ok: bool)
    ensures ok == (Climb(sha, leafHash, siblings) == root)
  {
    var current := leafHash;
    var i := 0;
    while i < |siblings|
      invariant 0 <= i <= |siblings|
      invariant Climb(sha, leafHash, siblings) == Climb(sha, current, siblings[i..])
    {
      var step := siblings[i];
      assert siblings[i..][1..] == siblings[i + 1..];
      if step.left {
        current := HashNode(sha, step.h, current);
      } else {
        current := HashNode(sha, current, step.h);
      }
      i := i + 1;
    }
    ok := SameBytes(current, root);
  }

  /** `verifyMerkleProof` accepts what Python's `verify_proof` accepts, and what the hash-only check
      accepts when it is given the hash of the leaf. */
  method VerifyMerkleProof(sha: Hash, leaf: ByteString, siblings: seq<Step>, root: ByteString) returns (ok: bool)
    ensures ok == Accepts(sha, leaf, siblings, root)
    ensures ok == (Climb(sha, LeafHash(sha, leaf), siblings) == root)
  {
    var current: ByteString := HashLeaf(sha, leaf);
    var i := 0;
    while i < |siblings|
      invariant 0 <= i <= |siblings|
      invariant Climb(sha, LeafHash(sha, leaf), siblings) == Climb(sha, current, siblings[i..])
    {
      var step := siblings[i];
      assert siblings[i..][1..] == siblings[i + 1..];
      if step.left {
        current := HashNode(sha, step.h, current);
      } else {
        current := HashNode(sha, current, step.h);
      }
      i := i + 1;
    }
    ok := SameBytes(current, root);
  }
}
