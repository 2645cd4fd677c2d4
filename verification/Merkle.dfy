/** The Merkle tree of src/decpki/merkle.py: leaf and node prefixes as in section 2.1 of RFC 6962,
    the last node of an odd layer paired with itself. `sha` stands for SHA-256 throughout. */
module Merkle {
  import opened Bytes

  type Layer = seq<Digest>

  function LeafInput(data: ByteString): ByteString { [0] + data }

  function NodeInput(left: ByteString, right: ByteString): ByteString { [1] + left + right }

  function LeafHash(sha: Hash, data: ByteString): Digest { sha(LeafInput(data)) }

  function NodeHash(sha: Hash, left: ByteString, right: ByteString): Digest { sha(NodeInput(left, right)) }

  // ----- layers

  function LeafLayer(sha: Hash, leaves: seq<ByteString>): (r: Layer)
    ensures |r| == |leaves|
  {
    if leaves == [] then [] else [LeafHash(sha, leaves[0])] + LeafLayer(sha, leaves[1..])
  }

  lemma {:induction false} LeafLayerAt(sha: Hash, leaves: seq<ByteString>, i: nat)
    requires i < |leaves|
    ensures LeafLayer(sha, leaves)[i] == LeafHash(sha, leaves[i])
  {
    if i == 0 {
    } else {
      LeafLayerAt(sha, leaves[1..], i - 1);
    }
  }

  /** An odd layer with its last node repeated. */
  function Padded<T>(layer: seq<T>): (r: seq<T>)
    ensures |r| % 2 == 0 && |layer| <= |r| <= |layer| + 1
  {
    if |layer| % 2 == 1 then layer + [layer[|layer| - 1]] else layer
  }

  /** Neighbours joined two by two. */
  function PairUp<T(!new), U(!new)>(join: (T, T) -> U, s: seq<T>): (r: seq<U>)
    ensures 2 * |r| <= |s| <= 2 * |r| + 1
  {
    if |s| < 2 then [] else [join(s[0], s[1])] + PairUp(join, s[2..])
  }

  lemma {:induction false} PairAt<T(!new), U(!new)>(join: (T, T) -> U, s: seq<T>, i: nat)
    requires i < |PairUp(join, s)|
    ensures 2 * i + 1 < |s| && PairUp(join, s)[i] == join(s[2 * i], s[2 * i + 1])
  {
    if i == 0 {
    } else {
      PairAt(join, s[2..], i - 1);
    }
  }

  function Joiner(sha: Hash): (Digest, Digest) -> Digest { (l, r) => NodeHash(sha, l, r) }

  /** The layer above. */
  function Up(sha: Hash, layer: Layer): (r: Layer)
    ensures |layer| <= 2 * |r| <= |layer| + 1
  {
    PairUp(Joiner(sha), Padded(layer))
  }

  lemma {:induction false} UpAt(sha: Hash, layer: Layer, i: nat)
    requires i < |Up(sha, layer)|
    ensures 2 * i + 1 < |Padded(layer)|
    ensures Up(sha, layer)[i] == NodeHash(sha, Padded(layer)[2 * i], Padded(layer)[2 * i + 1])
  {
    PairAt(Joiner(sha), Padded(layer), i);
  }

  /** `layer` and all layers above it. */
  function LayersFrom(sha: Hash, layer: Layer): (r: seq<Layer>)
    requires layer != []
    ensures r != [] && r[0] == layer && |r[|r| - 1]| == 1
    decreases |layer|
  {
    if |layer| == 1 then [layer] else [layer] + LayersFrom(sha, Up(sha, layer))
  }

  function Layers(sha: Hash, leaves: seq<ByteString>): (r: seq<Layer>)
    ensures r != [] && |r[|r| - 1]| == 1
  {
    if leaves == [] then [[sha([])]] else LayersFrom(sha, LeafLayer(sha, leaves))
  }

  function Root(sha: Hash, leaves: seq<ByteString>): Digest {
    var t := Layers(sha, leaves);
    t[|t| - 1][0]
  }

  /** `below`, then `layer` and all layers above it: what the loop of `build_tree` ends with when
      it has got as far as `layer`. */
  ghost function Continue(sha: Hash, below: seq<Layer>, layer: Layer): seq<Layer>
    requires layer != []
    decreases |layer|
  {
    if |layer| == 1 then below + [layer] else Continue(sha, below + [layer], Up(sha, layer))
  }

  lemma {:induction false} ContinueIsLayers(sha: Hash, below: seq<Layer>, layer: Layer)
    requires layer != []
    ensures Continue(sha, below, layer) == below + LayersFrom(sha, layer)
    decreases |layer|
  {
    if |layer| == 1 {
    } else {
      ContinueIsLayers(sha, below + [layer], Up(sha, layer));
      Append(below, layer, LayersFrom(sha, Up(sha, layer)));
    }
  }

  /** `build_tree`: its loop ends because every layer above a layer of two or more is smaller. */
  method BuildTree(sha: Hash, leaves: seq<ByteString>) returns (tree: seq<Layer>)
    ensures tree == Layers(sha, leaves)
  {
    if |leaves| == 0 { return [[sha([])]]; }
    var layer := LeafLayer(sha, leaves);
    tree := [layer];
    ghost var below: seq<Layer> := [];
    ContinueIsLayers(sha, below, layer);
    while |layer| > 1
      invariant layer != [] && tree == below + [layer]
      invariant Continue(sha, below, layer) == Layers(sha, leaves)
      decreases |layer|
    {
      below := tree;
      layer := LayerAbove(sha, layer);
      tree := tree + [layer];
    }
  }

  method LayerAbove(sha: Hash, layer: Layer) returns (above: Layer)
    ensures above == Up(sha, layer)
  {
    var padded := layer;
    if |layer| % 2 == 1 {
      padded := layer + [layer[|layer| - 1]];
    }
    above := [];
    var i := 0;
    while i < |padded|
      invariant i == 2 * |above| && |above| <= |Up(sha, layer)|
      invariant above == Up(sha, layer)[..|above|]
    {
      UpAt(sha, layer, |above|);
      above := above + [NodeHash(sha, padded[i], padded[i + 1])];
      i := i + 2;
    }
  }

  /** `get_root` */
  method GetRoot(tree: seq<Layer>, ghost sha: Hash, ghost leaves: seq<ByteString>) returns (root: Digest)
    requires tree == Layers(sha, leaves)
    ensures root == Root(sha, leaves)
  {
    root := tree[|tree| - 1][0];
  }

  // ----- proofs

  /** One proof step: a sibling hash of any length, and whether it stands on the left. */
  datatype Step = Step(h: ByteString, left: bool)

  function StepAt(layer: Layer, index: nat): Step
    requires index < |layer|
  {
    var p := Padded(layer);
    if index % 2 == 0 then Step(p[index + 1], false) else Step(p[index - 1], true)
  }

  /** The steps from node `index` of the lowest layer up to the root. */
  function ProofFrom(sha: Hash, layer: Layer, index: nat): (r: seq<Step>)
    requires index < |layer|
    decreases |layer|
  {
    if |layer| == 1 then [] else [StepAt(layer, index)] + ProofFrom(sha, Up(sha, layer), index / 2)
  }

  function Proof(sha: Hash, leaves: seq<ByteString>, index: nat): seq<Step>
    requires index < |leaves|
  {
    ProofFrom(sha, LeafLayer(sha, leaves), index)
  }

  /** One round of `get_proof`'s loop. The padded layer always holds the right sibling, so the
      source's fallback to the node itself makes no difference. */
  method FindSibling(layer: Layer, index: nat) returns (step: Step)
    requires index < |layer|
    ensures step == StepAt(layer, index)
  {
    var padded := layer;
    if |layer| % 2 == 1 {
      padded := layer + [layer[|layer| - 1]];
    }
    if index % 2 == 0 {
      var sibling := if index + 1 < |padded| then padded[index + 1] else padded[index];
      step := Step(sibling, false);
    } else {
      step := Step(padded[index - 1], true);
    }
  }

  /** The steps found so far, then those from node `index` of `layer` up. */
  ghost function ContinueProof(sha: Hash, done: seq<Step>, layer: Layer, index: nat): seq<Step>
    requires index < |layer|
    decreases |layer|
  {
    if |layer| == 1 then done
    else ContinueProof(sha, done + [StepAt(layer, index)], Up(sha, layer), index / 2)
  }

  lemma {:induction false} ContinueIsProof(sha: Hash, done: seq<Step>, layer: Layer, index: nat)
    requires index < |layer|
    ensures ContinueProof(sha, done, layer, index) == done + ProofFrom(sha, layer, index)
    decreases |layer|
  {
    if |layer| == 1 {
    } else {
      ContinueIsProof(sha, done + [StepAt(layer, index)], Up(sha, layer), index / 2);
      Append(done, StepAt(layer, index), ProofFrom(sha, Up(sha, layer), index / 2));
    }
  }

  /** `get_proof` */
  method GetProof(tree: seq<Layer>, index: nat, ghost sha: Hash, ghost leaves: seq<ByteString>)
    returns (proof: seq<Step>)
    requires leaves != [] && tree == Layers(sha, leaves) && index < |leaves|
    ensures proof == Proof(sha, leaves, index)
  {
    proof := [];
    var k := 0;
    var at: nat := index;
    assert tree[0..] == tree;
    ContinueIsProof(sha, [], tree[0], index);
    while k < |tree| - 1
      invariant 0 <= k < |tree| && at < |tree[k]|
      invariant tree[k..] == LayersFrom(sha, tree[k])
      invariant ContinueProof(sha, proof, tree[k], at) == Proof(sha, leaves, index)
    {
      NextLayer(sha, tree, k);
      var step := FindSibling(tree[k], at);
      proof := proof + [step];
      at := at / 2;
      k := k + 1;
    }
  }

  lemma {:induction false} NextLayer(sha: Hash, tree: seq<Layer>, k: nat)
    requires k < |tree| - 1 && tree[k] != [] && tree[k..] == LayersFrom(sha, tree[k])
    ensures |tree[k]| > 1 && tree[k + 1] == Up(sha, tree[k]) && tree[k + 1..] == LayersFrom(sha, tree[k + 1])
  {
    assert tree[k + 1..] == tree[k..][1..];
    assert tree[k + 1] == tree[k..][1];
  }

  lemma {:induction false} Append<T>(a: seq<T>, x: T, b: seq<T>)
    ensures a + ([x] + b) == a + [x] + b
  {
  }

  /** What the loop of the proof check computes from a starting hash. */
  function Climb(sha: Hash, current: ByteString, proof: seq<Step>): ByteString
    decreases |proof|
  {
    if proof == [] then current
    else
      var s := proof[0];
      Climb(sha, if s.left then NodeHash(sha, s.h, current) else NodeHash(sha, current, s.h), proof[1..])
  }

  predicate Accepts(sha: Hash, leaf: ByteString, proof: seq<Step>, root: ByteString) {
    Climb(sha, LeafHash(sha, leaf), proof) == root
  }

  /** `verify_proof` */
  method VerifyProof(sha: Hash, leaf: ByteString, proof: seq<Step>, root: ByteString) returns (ok: bool)
    ensures ok == Accepts(sha, leaf, proof, root)
  {
    var current: ByteString := LeafHash(sha, leaf);
    var i := 0;
    while i < |proof|
      invariant 0 <= i <= |proof|
      invariant Climb(sha, LeafHash(sha, leaf), proof) == Climb(sha, current, proof[i..])
    {
      var step := proof[i];
      assert proof[i..][1..] == proof[i + 1..];
      if step.left {
        current := NodeHash(sha, step.h, current);
      } else {
        current := NodeHash(sha, current, step.h);
      }
      i := i + 1;
    }
    ok := current == root;
  }
}
