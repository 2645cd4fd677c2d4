/** The laws of the Merkle tree: shape, completeness of proofs, soundness of membership proofs of
    any length with siblings of any size, and binding of the root to the list of leaves. Soundness
    is up to a collision among the strings that the computations at hand hash. */
module MerkleLaws {
  import opened Bytes
  import opened Merkle

  // ----- shape

  function Pow2(k: nat): (r: nat)
    ensures r >= 1
  {
    if k == 0 then 1 else 2 * Pow2(k - 1)
  }

  /** n halved k times, rounding up. */
  function HalveUp(n: nat, k: nat): nat {
    if k == 0 then n else HalveUp((n + 1) / 2, k - 1)
  }

  lemma {:induction false} HalveUpIsCeiling(n: nat, k: nat)
    requires n > 0
    ensures (HalveUp(n, k) - 1) * Pow2(k) < n <= HalveUp(n, k) * Pow2(k)
  {
    if k == 0 {
    } else {
      HalveUpIsCeiling((n + 1) / 2, k - 1);
      DoubleFactor(HalveUp(n, k), Pow2(k - 1));
      DoubleFactor(HalveUp(n, k) - 1, Pow2(k - 1));
    }
  }

  lemma {:induction false} DoubleFactor(s: int, p: int)
    ensures s * (2 * p) == 2 * (s * p)
  {
  }

  lemma {:induction false} LayerSize(sha: Hash, layer: Layer, k: nat)
    requires layer != [] && k < |LayersFrom(sha, layer)|
    ensures |LayersFrom(sha, layer)[k]| == HalveUp(|layer|, k)
    decreases k
  {
    if k > 0 {
      LayerSize(sha, Up(sha, layer), k - 1);
      NextLayerAt(sha, layer, k);
    }
  }

  lemma {:induction false} NextLayerAt(sha: Hash, layer: Layer, k: nat)
    requires layer != [] && 0 < k < |LayersFrom(sha, layer)|
    ensures |layer| > 1 && |LayersFrom(sha, layer)| == 1 + |LayersFrom(sha, Up(sha, layer))|
    ensures LayersFrom(sha, layer)[k] == LayersFrom(sha, Up(sha, layer))[k - 1]
  {
  }

  /** `build_tree`: layer k of the tree of n leaves has s == ceil(n / 2^k) nodes. */
  lemma {:induction false} LayerSizes(sha: Hash, leaves: seq<ByteString>, k: nat)
    requires leaves != [] && k < |Layers(sha, leaves)|
    ensures var s := |Layers(sha, leaves)[k]|; (s - 1) * Pow2(k) < |leaves| <= s * Pow2(k)
  {
    LayerSize(sha, LeafLayer(sha, leaves), k);
    HalveUpIsCeiling(|leaves|, k);
  }

  lemma {:induction false} OneStepALayer(sha: Hash, layer: Layer, index: nat)
    requires index < |layer|
    ensures |ProofFrom(sha, layer, index)| == |LayersFrom(sha, layer)| - 1
    decreases |layer|
  {
    if |layer| == 1 {
    } else {
      OneStepALayer(sha, Up(sha, layer), index / 2);
    }
  }

  /** `get_proof`: a proof is as long as the least h with 2^h >= n. */
  lemma {:induction false} ProofLength(sha: Hash, leaves: seq<ByteString>, index: nat)
    requires index < |leaves|
    ensures var h := |Proof(sha, leaves, index)|;
      |leaves| <= Pow2(h) && forall g :: 0 <= g < h ==> Pow2(g) < |leaves|
  {
    var layer := LeafLayer(sha, leaves);
    OneStepALayer(sha, layer, index);
    LayersSuffice(sha, layer);
    forall g | 0 <= g < |LayersFrom(sha, layer)| - 1 ensures Pow2(g) < |leaves| { LayersAreNeeded(sha, layer, g); }
  }

  lemma {:induction false} LayersSuffice(sha: Hash, layer: Layer)
    requires layer != []
    ensures |layer| <= Pow2(|LayersFrom(sha, layer)| - 1)
    decreases |layer|
  {
    if |layer| == 1 {
    } else {
      LayersSuffice(sha, Up(sha, layer));
    }
  }

  lemma {:induction false} DoublesPast(g: nat, above: nat, n: nat)
    requires g > 0 && Pow2(g - 1) < above && 2 * above <= n + 1
    ensures Pow2(g) < n
  {
  }

  lemma {:induction false} LayersAreNeeded(sha: Hash, layer: Layer, g: nat)
    requires layer != [] && g < |LayersFrom(sha, layer)| - 1
    ensures Pow2(g) < |layer|
    decreases |layer|
  {
    NextLayerAt(sha, layer, g + 1);
    if g == 0 {
    } else {
      LayersAreNeeded(sha, Up(sha, layer), g - 1);
      DoublesPast(g, |Up(sha, layer)|, |layer|);
    }
  }

  // ----- completeness

  lemma {:induction false} ClimbReachesTop(sha: Hash, layer: Layer, index: nat)
    requires index < |layer|
    ensures var ls := LayersFrom(sha, layer);
      Climb(sha, layer[index], ProofFrom(sha, layer, index)) == ls[|ls| - 1][0]
    decreases |layer|
  {
    if |layer| == 1 {
    } else {
      ClimbReachesTop(sha, Up(sha, layer), index / 2);
      OneStep(sha, layer, index);
      LayersFromTop(sha, layer);
      assert ProofFrom(sha, layer, index)[1..] == ProofFrom(sha, Up(sha, layer), index / 2);
    }
  }

  lemma {:induction false} OneStep(sha: Hash, layer: Layer, index: nat)
    requires index < |layer|
    ensures var s := StepAt(layer, index);
      Up(sha, layer)[index / 2] ==
      if s.left then NodeHash(sha, s.h, layer[index]) else NodeHash(sha, layer[index], s.h)
  {
    UpAt(sha, layer, index / 2);
  }

  lemma {:induction false} LayersFromTop(sha: Hash, layer: Layer)
    requires |layer| > 1
    ensures var ls, above := LayersFrom(sha, layer), LayersFrom(sha, Up(sha, layer));
      ls[|ls| - 1] == above[|above| - 1]
  {
  }

  /** Every leaf's proof is accepted. */
  lemma {:induction false} ProofComplete(sha: Hash, leaves: seq<ByteString>, index: nat)
    requires index < |leaves|
    ensures Accepts(sha, leaves[index], Proof(sha, leaves, index), Root(sha, leaves))
  {
    LeafLayerAt(sha, leaves, index);
    ClimbReachesTop(sha, LeafLayer(sha, leaves), index);
  }

  // ----- the tree behind the hashes

  datatype Tree = Leaf(data: ByteString) | Node(left: Tree, right: Tree)

  function TreeInput(sha: Hash, t: Tree): ByteString {
    match t
    case Leaf(data) => LeafInput(data)
    case Node(l, r) => NodeInput(TreeHash(sha, l), TreeHash(sha, r))
  }

  function TreeHash(sha: Hash, t: Tree): Digest
    decreases t, 1
  {
    match t
    case Leaf(data) => LeafHash(sha, data)
    case Node(l, r) => NodeHash(sha, TreeHash(sha, l), TreeHash(sha, r))
  }

  /** Every string hashed on the way to the hash of `t`. */
  function Inputs(sha: Hash, t: Tree): set<ByteString> {
    match t
    case Leaf(_) => {TreeInput(sha, t)}
    case Node(l, r) => {TreeInput(sha, t)} + Inputs(sha, l) + Inputs(sha, r)
  }

  const NODE := (l: Tree, r: Tree) => Node(l, r)

  function TreesUp(ts: seq<Tree>): (r: seq<Tree>)
    ensures |ts| <= 2 * |r| <= |ts| + 1
  {
    PairUp(NODE, Padded(ts))
  }

  function Top(ts: seq<Tree>): Tree
    requires ts != []
    decreases |ts|
  {
    if |ts| == 1 then ts[0] else Top(TreesUp(ts))
  }

  function LeafTrees(leaves: seq<ByteString>): (r: seq<Tree>)
    ensures |r| == |leaves|
  {
    seq(|leaves|, i requires 0 <= i < |leaves| => Leaf(leaves[i]))
  }

  function TreeOf(leaves: seq<ByteString>): Tree
    requires leaves != []
  {
    Top(LeafTrees(leaves))
  }

  /** Every string that `build_tree(leaves)` hashes. */
  function BuildInputs(sha: Hash, leaves: seq<ByteString>): set<ByteString> {
    if leaves == [] then {[]} else Inputs(sha, TreeOf(leaves))
  }

  function Hashes(sha: Hash, ts: seq<Tree>): (r: Layer)
    ensures |r| == |ts|
  {
    seq(|ts|, i requires 0 <= i < |ts| => TreeHash(sha, ts[i]))
  }

  lemma {:induction false} HashesPair(sha: Hash, p: seq<Tree>)
    ensures Hashes(sha, PairUp(NODE, p)) == PairUp(Joiner(sha), Hashes(sha, p))
  {
    if |p| < 2 {
    } else {
      HashesPair(sha, p[2..]);
      assert Hashes(sha, p)[2..] == Hashes(sha, p[2..]);
    }
  }

  lemma {:induction false} HashesUp(sha: Hash, ts: seq<Tree>)
    ensures Hashes(sha, TreesUp(ts)) == Up(sha, Hashes(sha, ts))
  {
    HashesPair(sha, Padded(ts));
    assert Hashes(sha, Padded(ts)) == Padded(Hashes(sha, ts));
  }

  lemma {:induction false} TopHash(sha: Hash, ts: seq<Tree>)
    requires ts != []
    ensures var ls := LayersFrom(sha, Hashes(sha, ts)); TreeHash(sha, Top(ts)) == ls[|ls| - 1][0]
    decreases |ts|
  {
    if |ts| == 1 {
    } else {
      HashesUp(sha, ts);
      TopHash(sha, TreesUp(ts));
    }
  }

  lemma {:induction false} LeafHashes(sha: Hash, leaves: seq<ByteString>)
    ensures Hashes(sha, LeafTrees(leaves)) == LeafLayer(sha, leaves)
  {
    forall i | 0 <= i < |leaves| ensures LeafLayer(sha, leaves)[i] == TreeHash(sha, LeafTrees(leaves)[i]) {
      LeafLayerAt(sha, leaves, i);
    }
  }

  lemma {:induction false} RootIsTreeHash(sha: Hash, leaves: seq<ByteString>)
    requires leaves != []
    ensures Root(sha, leaves) == TreeHash(sha, TreeOf(leaves))
  {
    LeafHashes(sha, leaves);
    TopHash(sha, LeafTrees(leaves));
  }

  lemma {:induction false} InputOf(sha: Hash, t: Tree)
    ensures TreeInput(sha, t) in Inputs(sha, t) && sha(TreeInput(sha, t)) == TreeHash(sha, t)
    ensures TreeInput(sha, t) != []
  {
  }

  lemma {:induction false} TagOf(sha: Hash, t: Tree)
    ensures TreeInput(sha, t) != [] && TreeInput(sha, t)[0] == if t.Leaf? then 0 else 1
  {
  }

  /** Two digests side by side are read back in one way only. */
  lemma {:induction false} NodeInputInjective(a: ByteString, b: ByteString, c: ByteString, d: ByteString)
    requires NodeInput(a, b) == NodeInput(c, d) && (|a| == |c| || |b| == |d|)
    ensures a == c && b == d
  {
    assert |NodeInput(a, b)| == 1 + |a| + |b| && |NodeInput(c, d)| == 1 + |c| + |d|;
    assert a == NodeInput(a, b)[1..1 + |a|] && c == NodeInput(c, d)[1..1 + |c|];
    assert b == NodeInput(a, b)[1 + |a|..] && d == NodeInput(c, d)[1 + |c|..];
  }

  lemma {:induction false} Collide(sha: Hash, x: ByteString, y: ByteString, inputs: set<ByteString>)
    requires x in inputs && y in inputs && x != y && sha(x) == sha(y)
    ensures CollisionIn(sha, inputs)
  {
  }

  // ----- the root binds the list

  /** The root hash of a tree determines the tree. */
  lemma {:induction false} TreeBinding(sha: Hash, t: Tree, u: Tree, inputs: set<ByteString>)
    requires TreeHash(sha, t) == TreeHash(sha, u)
    requires Inputs(sha, t) <= inputs && Inputs(sha, u) <= inputs
    ensures t == u || CollisionIn(sha, inputs)
  {
    InputOf(sha, t);
    InputOf(sha, u);
    TagOf(sha, t);
    TagOf(sha, u);
    if TreeInput(sha, t) != TreeInput(sha, u) {
      Collide(sha, TreeInput(sha, t), TreeInput(sha, u), inputs);
    } else {
      match (t, u)
      case (Leaf(a), Leaf(b)) => assert a == LeafInput(a)[1..] && b == LeafInput(b)[1..];
      case (Node(a, b), Node(c, d)) =>
        NodeInputInjective(TreeHash(sha, a), TreeHash(sha, b), TreeHash(sha, c), TreeHash(sha, d));
        TreeBinding(sha, a, c, inputs);
        TreeBinding(sha, b, d, inputs);
      case _ =>
    }
  }

  /** The leaves of a tree from left to right. */
  function Frontier(t: Tree): seq<ByteString> {
    match t
    case Leaf(data) => [data]
    case Node(l, r) => Frontier(l) + Frontier(r)
  }

  ghost predicate Perfect(t: Tree, h: nat) {
    match t
    case Leaf(_) => h == 0
    case Node(l, r) => h > 0 && Perfect(l, h - 1) && Perfect(r, h - 1)
  }

  lemma {:induction false} FrontierSize(t: Tree, h: nat)
    requires Perfect(t, h)
    ensures |Frontier(t)| == Pow2(h)
  {
    match t
    case Leaf(_) =>
    case Node(l, r) =>
      FrontierSize(l, h - 1);
      FrontierSize(r, h - 1);
  }

  /** A perfect tree is determined by its leaves. */
  lemma {:induction false} FrontierInjective(t: Tree, u: Tree, h: nat)
    requires Perfect(t, h) && Perfect(u, h) && Frontier(t) == Frontier(u)
    ensures t == u
  {
    if h == 0 {
      assert t.data == Frontier(t)[0] && u.data == Frontier(u)[0];
    } else {
      FrontierSize(t.left, h - 1);
      FrontierSize(u.left, h - 1);
      SplitSame(Frontier(t.left), Frontier(t.right), Frontier(u.left), Frontier(u.right));
      FrontierInjective(t.left, u.left, h - 1);
      FrontierInjective(t.right, u.right, h - 1);
    }
  }

  lemma {:induction false} SplitSame<T>(a: seq<T>, b: seq<T>, c: seq<T>, d: seq<T>)
    requires a + b == c + d && |a| == |c|
    ensures a == c && b == d
  {
    assert a == (a + b)[..|a|] && c == (c + d)[..|c|];
    assert b == (a + b)[|a|..] && d == (c + d)[|c|..];
  }

  lemma {:induction false} Pow2Injective(g: nat, h: nat)
    requires Pow2(g) == Pow2(h)
    ensures g == h
  {
    if g == 0 || h == 0 {
    } else {
      Pow2Injective(g - 1, h - 1);
    }
  }

  /** Neighbouring blocks joined, the last of an odd number of blocks with itself. */
  function BlocksUp<T(!new)>(bs: seq<seq<T>>): (r: seq<seq<T>>)
    ensures |bs| <= 2 * |r| <= |bs| + 1
  {
    PairUp(Concat, Padded(bs))
  }

  function Concat<T(!new)>(a: seq<T>, b: seq<T>): seq<T> { a + b }

  /** Joined until one block is left. */
  function Fill<T(!new)>(bs: seq<seq<T>>): seq<T>
    requires bs != []
    decreases |bs|
  {
    if |bs| == 1 then bs[0] else Fill(BlocksUp(bs))
  }

  function Singles<T(!new)>(s: seq<T>): (r: seq<seq<T>>)
    ensures |r| == |s|
  {
    seq(|s|, i requires 0 <= i < |s| => [s[i]])
  }

  /** A list padded level by level to 2^h items: at each level where the number of blocks is odd,
      the last block stands twice. */
  function Filled<T(!new)>(s: seq<T>): seq<T> { if s == [] then [] else Fill(Singles(s)) }

  function Frontiers(ts: seq<Tree>): (r: seq<seq<ByteString>>)
    ensures |r| == |ts|
  {
    seq(|ts|, i requires 0 <= i < |ts| => Frontier(ts[i]))
  }

  lemma {:induction false} FrontiersPair(p: seq<Tree>)
    ensures Frontiers(PairUp(NODE, p)) == PairUp(Concat, Frontiers(p))
  {
    if |p| < 2 {
    } else {
      FrontiersPair(p[2..]);
      assert Frontiers(p)[2..] == Frontiers(p[2..]);
    }
  }

  lemma {:induction false} FrontiersUp(ts: seq<Tree>)
    ensures Frontiers(TreesUp(ts)) == BlocksUp(Frontiers(ts))
  {
    FrontiersPair(Padded(ts));
    assert Frontiers(Padded(ts)) == Padded(Frontiers(ts));
  }

  lemma {:induction false} FrontierOfTop(ts: seq<Tree>)
    requires ts != []
    ensures Frontier(Top(ts)) == Fill(Frontiers(ts))
    decreases |ts|
  {
    if |ts| == 1 {
    } else {
      FrontiersUp(ts);
      FrontierOfTop(TreesUp(ts));
    }
  }

  lemma {:induction false} TopIsPerfect(ts: seq<Tree>, d: nat) returns (h: nat)
    requires ts != [] && forall i :: 0 <= i < |ts| ==> Perfect(ts[i], d)
    ensures Perfect(Top(ts), h)
    decreases |ts|
  {
    if |ts| == 1 {
      h := d;
    } else {
      forall i | 0 <= i < |TreesUp(ts)| ensures Perfect(TreesUp(ts)[i], d + 1) { PairAt(NODE, Padded(ts), i); }
      h := TopIsPerfect(TreesUp(ts), d + 1);
    }
  }

  /** Two lists have one tree exactly if they are padded to one list. */
  lemma {:induction false} SameTreeIff(a: seq<ByteString>, b: seq<ByteString>)
    requires a != [] && b != []
    ensures TreeOf(a) == TreeOf(b) <==> Filled(a) == Filled(b)
  {
    FilledIsFrontier(a);
    FilledIsFrontier(b);
    var g := TopIsPerfect(LeafTrees(a), 0);
    var h := TopIsPerfect(LeafTrees(b), 0);
    if Filled(a) == Filled(b) {
      FrontierSize(TreeOf(a), g);
      FrontierSize(TreeOf(b), h);
      Pow2Injective(g, h);
      FrontierInjective(TreeOf(a), TreeOf(b), g);
    }
  }

  lemma {:induction false} FilledIsFrontier(a: seq<ByteString>)
    requires a != []
    ensures Filled(a) == Frontier(TreeOf(a))
  {
    assert Frontiers(LeafTrees(a)) == Singles(a);
    FrontierOfTop(LeafTrees(a));
  }

  /** The root of a list that is not empty is not that of the empty list. */
  lemma {:induction false} EmptyRootBinding(sha: Hash, a: seq<ByteString>)
    requires a != [] && Root(sha, a) == Root(sha, [])
    ensures CollisionIn(sha, BuildInputs(sha, a) + BuildInputs(sha, []))
  {
    RootIsTreeHash(sha, a);
    InputOf(sha, TreeOf(a));
    Collide(sha, TreeInput(sha, TreeOf(a)), [], BuildInputs(sha, a) + BuildInputs(sha, []));
  }

  /** Lists that are padded to one list share their root, under every hash. */
  lemma {:induction false} SameFilledSameRoot(sha: Hash, a: seq<ByteString>, b: seq<ByteString>)
    requires Filled(a) == Filled(b)
    ensures Root(sha, a) == Root(sha, b)
  {
    FilledStarts(a);
    FilledStarts(b);
    if a != [] && b != [] {
      SameTreeIff(a, b);
      RootIsTreeHash(sha, a);
      RootIsTreeHash(sha, b);
    }
  }

  /** What a root binds, for any two lists of leaves: they share their root exactly if padding makes
      them one list, or two of the strings hashed while building the two trees collide. */
  lemma {:induction false} RootBindsIff(sha: Hash, a: seq<ByteString>, b: seq<ByteString>)
    ensures (Root(sha, a) == Root(sha, b) <==> Filled(a) == Filled(b)) ||
      CollisionIn(sha, BuildInputs(sha, a) + BuildInputs(sha, b))
  {
    if Filled(a) == Filled(b) {
      SameFilledSameRoot(sha, a, b);
    } else if Root(sha, a) != Root(sha, b) {
    } else if a == [] {
      EmptyRootBinding(sha, b);
      assert BuildInputs(sha, a) + BuildInputs(sha, b) == BuildInputs(sha, b) + BuildInputs(sha, []);
    } else if b == [] {
      EmptyRootBinding(sha, a);
    } else {
      RootIsTreeHash(sha, a);
      RootIsTreeHash(sha, b);
      SameTreeIff(a, b);
      TreeBinding(sha, TreeOf(a), TreeOf(b), BuildInputs(sha, a) + BuildInputs(sha, b));
    }
  }

  ghost predicate Distinct<T(!new)>(s: seq<T>) {
    forall i, j :: 0 <= i < j < |s| ==> s[i] != s[j]
  }

  /** `b` is `a`, perhaps followed by more of the items of `a`. */
  ghost predicate Prolongs<T(!new)>(a: seq<T>, b: seq<T>) {
    |a| <= |b| && a == b[..|a|] && forall x :: x in b ==> x in a
  }

  function Flat<T(!new)>(bs: seq<seq<T>>): seq<T> { if bs == [] then [] else bs[0] + Flat(bs[1..]) }

  lemma {:induction false} FlatJoin<T(!new)>(a: seq<seq<T>>, b: seq<seq<T>>)
    ensures Flat(a + b) == Flat(a) + Flat(b)
  {
    if a == [] {
      assert a + b == b;
    } else {
      FlatJoin(a[1..], b);
      assert (a + b)[1..] == a[1..] + b;
    }
  }

  lemma {:induction false} FlatPair<T(!new)>(p: seq<seq<T>>)
    requires |p| % 2 == 0
    ensures Flat(PairUp(Concat, p)) == Flat(p)
    decreases |p|
  {
    if p == [] {
    } else {
      FlatPair(p[2..]);
      assert p[1..][1..] == p[2..];
      assert p[0] + (p[1] + Flat(p[2..])) == (p[0] + p[1]) + Flat(p[2..]);
      assert Flat(p[1..]) == p[1] + Flat(p[2..]);
      assert PairUp(Concat, p)[1..] == PairUp(Concat, p[2..]);
    }
  }

  lemma {:induction false} PaddedProlongs<T(!new)>(bs: seq<seq<T>>)
    ensures Prolongs(Flat(bs), Flat(Padded(bs)))
  {
    if |bs| % 2 == 1 {
      var last := bs[|bs| - 1];
      FlatJoin(bs, [last]);
      FlatJoin(bs[..|bs| - 1], [last]);
      assert bs == bs[..|bs| - 1] + [last];
      assert [last][1..] == [] && Flat([last]) == last;
    }
  }

  lemma {:induction false} FillProlongs<T(!new)>(bs: seq<seq<T>>)
    requires bs != []
    ensures Prolongs(Flat(bs), Fill(bs))
    decreases |bs|
  {
    if |bs| == 1 {
      assert bs[1..] == [];
    } else {
      FillProlongs(BlocksUp(bs));
      FlatPair(Padded(bs));
      PaddedProlongs(bs);
      assert Flat(bs) == Flat(Padded(bs))[..|Flat(bs)|];
    }
  }

  lemma {:induction false} FlatSingles<T(!new)>(s: seq<T>)
    ensures Flat(Singles(s)) == s
  {
    if s == [] {
    } else {
      FlatSingles(s[1..]);
      assert Singles(s)[1..] == Singles(s[1..]);
    }
  }

  /** Padding only repeats. */
  lemma {:induction false} FilledStarts<T(!new)>(s: seq<T>)
    ensures Prolongs(s, Filled(s))
  {
    if s != [] {
      FlatSingles(s);
      FillProlongs(Singles(s));
    }
  }

  /** Lists without repetition are padded to different lists. */
  lemma {:induction false} DistinctFilled<T(!new)>(a: seq<T>, b: seq<T>)
    requires Distinct(a) && Distinct(b) && Filled(a) == Filled(b)
    ensures a == b
  {
    FilledStarts(a);
    FilledStarts(b);
    if |a| < |b| {
      FirstRepeats(a, b);
    } else if |b| < |a| {
      FirstRepeats(b, a);
    }
  }

  lemma {:induction false} FirstRepeats<T(!new)>(a: seq<T>, b: seq<T>)
    requires |a| < |b| && Filled(a) == Filled(b)
    ensures !Distinct(b)
  {
    FilledStarts(a);
    FilledStarts(b);
    var x := Filled(b)[|a|];
    assert x == b[|a|] && x in a;
    var i :| 0 <= i < |a| && a[i] == x;
    assert b[i] == Filled(b)[i] == a[i];
  }

  /** Root binding: two lists without repetition and with the same root are the same list, or two
      of the strings hashed while building the two trees collide. */
  lemma {:induction false} RootBinding(sha: Hash, a: seq<ByteString>, b: seq<ByteString>)
    requires Distinct(a) && Distinct(b) && Root(sha, a) == Root(sha, b)
    ensures a == b || CollisionIn(sha, BuildInputs(sha, a) + BuildInputs(sha, b))
  {
    RootBindsIff(sha, a, b);
    if Filled(a) == Filled(b) { DistinctFilled(a, b); }
  }

  /** Without the hypothesis on repetition the claim fails, under every hash: an odd list and the
      list with its last leaf repeated share their root. */
  lemma {:induction false} RepetitionSharesRoot(sha: Hash, leaves: seq<ByteString>)
    requires |leaves| % 2 == 1 && |leaves| > 1
    ensures Root(sha, leaves + [leaves[|leaves| - 1]]) == Root(sha, leaves)
  {
    var longer := leaves + [leaves[|leaves| - 1]];
    assert Padded(Singles(leaves)) == Singles(longer) == Padded(Singles(longer));
    assert BlocksUp(Singles(leaves)) == BlocksUp(Singles(longer));
    SameFilledSameRoot(sha, leaves, longer);
  }

  /** A repetition alone does no harm: only [x, x] itself is padded to [x, x]. */
  lemma {:induction false} TwoAlikeAreBound<T(!new)>(x: T, b: seq<T>)
    ensures Filled(b) == Filled([x, x]) <==> b == [x, x]
  {
    var two := [x, x];
    var ones := Singles(two);
    assert ones[0] + ones[1] == two;
    assert BlocksUp(ones) == [two];
    assert Filled(two) == Fill(ones) == Fill([two]) == two;
    FilledStarts(b);
    if |b| == 1 {
      assert |Filled(b)| == 1;
    } else if |b| == 2 && Filled(b) == two {
      assert b == two[..2];
    }
  }

  // ----- accepted proofs

  /** Every string hashed by the loop of the proof check. */
  function ClimbInputs(sha: Hash, current: ByteString, proof: seq<Step>): set<ByteString>
    decreases |proof|
  {
    if proof == [] then {}
    else
      var s := proof[0];
      var input := if s.left then NodeInput(s.h, current) else NodeInput(current, s.h);
      {input} + ClimbInputs(sha, sha(input), proof[1..])
  }

  /** The subtrees of `t` that stand `d` levels below its root. */
  function AtDepth(t: Tree, d: nat): set<Tree> {
    if d == 0 then {t}
    else
      match t
      case Leaf(_) => {}
      case Node(l, r) => AtDepth(l, d - 1) + AtDepth(r, d - 1)
  }

  function LastInput(sha: Hash, current: ByteString, proof: seq<Step>): ByteString
    requires proof != []
  {
    var n := |proof| - 1;
    var below := Climb(sha, current, proof[..n]);
    if proof[n].left then NodeInput(proof[n].h, below) else NodeInput(below, proof[n].h)
  }

  function StepInput(s: Step, below: ByteString): ByteString {
    if s.left then NodeInput(s.h, below) else NodeInput(below, s.h)
  }

  /** One more step at the end of a proof is one more hash at the end of the climb. */
  lemma {:induction false} ClimbOn(sha: Hash, current: ByteString, p: seq<Step>, s: Step)
    ensures Climb(sha, current, p + [s]) == sha(StepInput(s, Climb(sha, current, p)))
    ensures ClimbInputs(sha, current, p + [s]) == ClimbInputs(sha, current, p) + {StepInput(s, Climb(sha, current, p))}
    ensures |current| == 32 ==> |Climb(sha, current, p)| == 32
    decreases |p|
  {
    if p == [] {
      assert [] + [s] == [s] && [s][1..] == [];
    } else {
      ClimbOn(sha, sha(StepInput(p[0], current)), p[1..], s);
      assert (p + [s])[1..] == p[1..] + [s];
    }
  }

  lemma {:induction false} LastStep(sha: Hash, current: ByteString, proof: seq<Step>)
    requires proof != []
    ensures var n := |proof| - 1;
      && Climb(sha, current, proof) == sha(LastInput(sha, current, proof))
      && LastInput(sha, current, proof) in ClimbInputs(sha, current, proof)
      && ClimbInputs(sha, current, proof[..n]) <= ClimbInputs(sha, current, proof)
      && LastInput(sha, current, proof) != [] && LastInput(sha, current, proof)[0] == 1
      && (|current| == 32 ==> |Climb(sha, current, proof[..n])| == 32)
  {
    var n := |proof| - 1;
    assert proof == proof[..n] + [proof[n]];
    ClimbOn(sha, current, proof[..n], proof[n]);
  }

  /** A climb from a 32-byte hash that ends in the hash of `t` started in the hash of a subtree
      exactly as far down as the proof is long. */
  lemma {:induction false} ClimbSound(
      sha: Hash, t: Tree, current: ByteString, proof: seq<Step>, inputs: set<ByteString>)
    requires |current| == 32 && Climb(sha, current, proof) == TreeHash(sha, t)
    requires Inputs(sha, t) <= inputs && ClimbInputs(sha, current, proof) <= inputs
    ensures CollisionIn(sha, inputs) || exists u :: u in AtDepth(t, |proof|) && TreeHash(sha, u) == current
    decreases |proof|
  {
    if proof == [] {
      assert t in AtDepth(t, 0);
    } else {
      var n := |proof| - 1;
      LastStep(sha, current, proof);
      InputOf(sha, t);
      var last := LastInput(sha, current, proof);
      if last != TreeInput(sha, t) {
        Collide(sha, last, TreeInput(sha, t), inputs);
      } else {
        assert t.Node?;
        var below := Climb(sha, current, proof[..n]);
        var child := if proof[n].left then t.right else t.left;
        if proof[n].left {
          NodeInputInjective(proof[n].h, below, TreeHash(sha, t.left), TreeHash(sha, t.right));
        } else {
          NodeInputInjective(below, proof[n].h, TreeHash(sha, t.left), TreeHash(sha, t.right));
        }
        ClimbSound(sha, child, current, proof[..n], inputs);
        if !CollisionIn(sha, inputs) {
          var u :| u in AtDepth(child, n) && TreeHash(sha, u) == current;
          assert u in AtDepth(t, n + 1);
        }
      }
    }
  }

  /** Every string that `verify_proof(leaf, proof, ...)` hashes. */
  function VerifyInputs(sha: Hash, leaf: ByteString, proof: seq<Step>): set<ByteString> {
    {LeafInput(leaf)} + ClimbInputs(sha, LeafHash(sha, leaf), proof)
  }

  /** What stands below a node of the next layer stands in a node of this one. */
  lemma {:induction false} InChild(ts: seq<Tree>, i: nat, e: nat, u: Tree) returns (k: nat)
    requires i < |TreesUp(ts)| && u in AtDepth(TreesUp(ts)[i], e + 1)
    ensures k < |ts| && u in AtDepth(ts[k], e)
  {
    var p := Padded(ts);
    PairAt(NODE, p, i);
    var j := if u in AtDepth(p[2 * i], e) then 2 * i else 2 * i + 1;
    k := if j < |ts| then j else |ts| - 1;
    assert p[j] == ts[k];
  }

  lemma {:induction false} LeafOfTop(ts: seq<Tree>, data: ByteString, d: nat) returns (k: nat, e: nat)
    requires ts != [] && Leaf(data) in AtDepth(Top(ts), d)
    ensures k < |ts| && Leaf(data) in AtDepth(ts[k], e)
    decreases |ts|
  {
    if |ts| == 1 {
      k, e := 0, d;
    } else {
      var i, f := LeafOfTop(TreesUp(ts), data, d);
      PairAt(NODE, Padded(ts), i);
      assert f > 0;
      k := InChild(ts, i, f - 1, Leaf(data));
      e := f - 1;
    }
  }

  /** Membership soundness: a proof of any length, with any sides and siblings of any size, that
      is accepted for the root of a list is a proof for a member of the list; nothing is accepted
      for the root of the empty list. Or the strings hashed contain a collision. */
  lemma {:induction false} MembershipSound(sha: Hash, leaves: seq<ByteString>, leaf: ByteString, proof: seq<Step>)
    requires Accepts(sha, leaf, proof, Root(sha, leaves))
    ensures leaf in leaves ||
      CollisionIn(sha, BuildInputs(sha, leaves) + VerifyInputs(sha, leaf, proof))
  {
    if leaves == [] {
      NothingInEmpty(sha, leaf, proof);
    } else {
      MemberOfTree(sha, leaves, leaf, proof);
    }
  }

  lemma {:induction false} NothingInEmpty(sha: Hash, leaf: ByteString, proof: seq<Step>)
    requires Accepts(sha, leaf, proof, Root(sha, []))
    ensures CollisionIn(sha, BuildInputs(sha, []) + VerifyInputs(sha, leaf, proof))
  {
    var inputs := BuildInputs(sha, []) + VerifyInputs(sha, leaf, proof);
    if proof == [] {
      Collide(sha, [], LeafInput(leaf), inputs);
    } else {
      var current := LeafHash(sha, leaf);
      LastStep(sha, current, proof);
      Collide(sha, [], LastInput(sha, current, proof), inputs);
    }
  }

  lemma {:induction false} MemberOfTree(sha: Hash, leaves: seq<ByteString>, leaf: ByteString, proof: seq<Step>)
    requires leaves != [] && Accepts(sha, leaf, proof, Root(sha, leaves))
    ensures leaf in leaves || CollisionIn(sha, BuildInputs(sha, leaves) + VerifyInputs(sha, leaf, proof))
  {
    var inputs := BuildInputs(sha, leaves) + VerifyInputs(sha, leaf, proof);
    RootIsTreeHash(sha, leaves);
    ClimbSound(sha, TreeOf(leaves), LeafHash(sha, leaf), proof, inputs);
    if !CollisionIn(sha, inputs) {
      var u :| u in AtDepth(TreeOf(leaves), |proof|) && TreeHash(sha, u) == LeafHash(sha, leaf);
      InputsBelow(sha, TreeOf(leaves), |proof|, u);
      InputOf(sha, u);
      if TreeInput(sha, u) != LeafInput(leaf) {
        Collide(sha, TreeInput(sha, u), LeafInput(leaf), inputs);
      }
      LeafOfInput(sha, u, leaf);
      var i, e := LeafOfTop(LeafTrees(leaves), leaf, |proof|);
      assert leaves[i] == leaf;
    }
  }

  lemma {:induction false} LeafOfInput(sha: Hash, u: Tree, leaf: ByteString)
    requires TreeInput(sha, u) == LeafInput(leaf)
    ensures u == Leaf(leaf)
  {
    TagOf(sha, u);
    assert LeafInput(leaf)[1..] == leaf && (u.Leaf? ==> LeafInput(u.data)[1..] == u.data);
  }

  lemma {:induction false} InputsBelow(sha: Hash, t: Tree, d: nat, u: Tree)
    requires u in AtDepth(t, d)
    ensures Inputs(sha, u) <= Inputs(sha, t)
  {
    if d == 0 {
    } else {
      InputsBelow(sha, if u in AtDepth(t.left, d - 1) then t.left else t.right, d - 1, u);
    }
  }

  // ----- hash-only proofs

  function TreeHeight(ts: seq<Tree>): nat
    requires ts != []
    decreases |ts|
  {
    if |ts| == 1 then 0 else 1 + TreeHeight(TreesUp(ts))
  }

  lemma {:induction false} HeightOfLayers(sha: Hash, ts: seq<Tree>)
    requires ts != []
    ensures |LayersFrom(sha, Hashes(sha, ts))| == 1 + TreeHeight(ts)
    decreases |ts|
  {
    if |ts| == 1 {
    } else {
      HashesUp(sha, ts);
      HeightOfLayers(sha, TreesUp(ts));
    }
  }

  lemma {:induction false} OneUp(ts: seq<Tree>)
    requires |ts| > 1
    ensures 0 < |TreesUp(ts)| < |ts| && Top(ts) == Top(TreesUp(ts)) && TreeHeight(ts) == 1 + TreeHeight(TreesUp(ts))
  {
  }

  /** What stands at least as deep as the lowest layer stands in one of its trees. */
  lemma {:induction false} BelowLayer(ts: seq<Tree>, h: nat, e: nat, u: Tree) returns (k: nat)
    requires ts != [] && h == TreeHeight(ts) && u in AtDepth(Top(ts), h + e)
    ensures k < |ts| && u in AtDepth(ts[k], e)
    decreases |ts|
  {
    if |ts| == 1 {
      k := 0;
    } else {
      var up := TreesUp(ts);
      OneUp(ts);
      var i := BelowLayer(up, h - 1, e + 1, u);
      k := InChild(ts, i, e, u);
    }
  }

  /** What stands d levels below the top, no deeper than the lowest layer, is hashed in the d-th
      layer from the top. */
  lemma {:induction false} InLayer(sha: Hash, ts: seq<Tree>, layer: Layer, d: nat, u: Tree) returns (k: nat)
    requires ts != [] && u in AtDepth(Top(ts), d) && d <= TreeHeight(ts) && layer == Hashes(sha, ts)
    requires |LayersFrom(sha, layer)| == 1 + TreeHeight(ts)
    ensures var row := LayersFrom(sha, layer)[TreeHeight(ts) - d]; k < |row| && row[k] == TreeHash(sha, u)
    decreases |ts|
  {
    if d == TreeHeight(ts) {
      k := BelowLayer(ts, d, 0, u);
      assert u == ts[k] && layer[k] == TreeHash(sha, u);
    } else {
      var up, above := TreesUp(ts), Up(sha, layer);
      assert |ts| > 1 && Top(ts) == Top(up) && TreeHeight(ts) == 1 + TreeHeight(up);
      HashesUp(sha, ts);
      NextLayerAt(sha, layer, TreeHeight(ts) - d);
      assert |LayersFrom(sha, above)| == 1 + TreeHeight(up);
      k := InLayer(sha, up, above, d, u);
    }
  }

  /** A hash-only proof (`verifyMerkleProofFromHash`) accepted for a 32-byte hash shows that this
      hash stands in the tree exactly as many layers below the root as the proof has steps, in
      the layer of leaf hashes when that is the tree's height. Or there is a collision. */
  lemma {:induction false} HashOnlySound(sha: Hash, leaves: seq<ByteString>, leafHash: ByteString, proof: seq<Step>)
    requires |leafHash| == 32 && Climb(sha, leafHash, proof) == Root(sha, leaves)
    ensures var layers := Layers(sha, leaves);
      || (|proof| < |layers| && leafHash in layers[|layers| - 1 - |proof|])
      || CollisionIn(sha, BuildInputs(sha, leaves) + ClimbInputs(sha, leafHash, proof))
  {
    var inputs := BuildInputs(sha, leaves) + ClimbInputs(sha, leafHash, proof);
    if leaves == [] {
      if proof == [] {
        assert leafHash in Layers(sha, leaves)[0];
      } else {
        LastStep(sha, leafHash, proof);
        Collide(sha, [], LastInput(sha, leafHash, proof), inputs);
      }
    } else {
      var ts := LeafTrees(leaves);
      RootIsTreeHash(sha, leaves);
      ClimbSound(sha, TreeOf(leaves), leafHash, proof, inputs);
      if !CollisionIn(sha, inputs) {
        var u :| u in AtDepth(TreeOf(leaves), |proof|) && TreeHash(sha, u) == leafHash;
        LeafHashes(sha, leaves);
        HeightOfLayers(sha, ts);
        NotBelowLeaves(leaves, |proof|, u);
        var k := InLayer(sha, ts, Hashes(sha, ts), |proof|, u);
      }
    }
  }

  lemma {:induction false} NotBelowLeaves(leaves: seq<ByteString>, d: nat, u: Tree)
    requires leaves != [] && u in AtDepth(TreeOf(leaves), d)
    ensures d <= TreeHeight(LeafTrees(leaves))
  {
    var ts := LeafTrees(leaves);
    if d > TreeHeight(ts) {
      var k := BelowLayer(ts, TreeHeight(ts), d - TreeHeight(ts), u);
    }
  }
}
