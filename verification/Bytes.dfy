/** Byte strings, the two orders the encoders and the ledger sort by, and SHA-256's type. */
module Bytes {

  type Byte = b: int | 0 <= b < 256

  type ByteString = seq<Byte>

  /** What `hashlib.sha256(...).digest()` returns. */
  type Digest = d: ByteString | |d| == 32 witness seq(32, _ => 0)

  /** SHA-256 is a parameter of the model: any function from byte strings to 32 bytes.
      Nothing below assumes that it is injective. */
  type Hash = ByteString -> Digest

  /** Two different strings of `inputs` have the same hash. `inputs` is always the finite set
      of strings that the computations at hand really hash, so a collision in it is one that
      a reader could exhibit. (Without that restriction a collision exists for every hash.) */
  ghost predicate CollisionIn(sha: Hash, inputs: set<ByteString>) {
    exists x, y :: x in inputs && y in inputs && x != y && sha(x) == sha(y)
  }

  /** Names of CBOR map keys are ASCII. */
  function Ascii(s: string): (r: ByteString)
    ensures |r| == |s|
  {
    seq(|s|, i requires 0 <= i < |s| => (s[i] as int) % 256)
  }

  lemma {:induction false} Assoc(a: ByteString, b: ByteString, c: ByteString)
    ensures (a + b) + c == a + (b + c)
  {
  }

  /** Bytewise lexicographic order. On UTF-8 text it is the order of the code points. */
  predicate LexLe(a: ByteString, b: ByteString) {
    if a == [] then true
    else if b == [] then false
    else if a[0] != b[0] then a[0] < b[0]
    else LexLe(a[1..], b[1..])
  }

  /** Shorter strings first, bytewise among strings of one length: the key order of
      section 3.9 of RFC 7049. */
  predicate ShortLexLe(a: ByteString, b: ByteString) {
    |a| < |b| || (|a| == |b| && LexLe(a, b))
  }

  lemma {:induction false} LexTotal(a: ByteString, b: ByteString)
    ensures LexLe(a, b) || LexLe(b, a)
  {
    if a == [] || b == [] {
    } else {
      LexTotal(a[1..], b[1..]);
    }
  }

  lemma {:induction false} LexAntisymmetric(a: ByteString, b: ByteString)
    requires LexLe(a, b) && LexLe(b, a)
    ensures a == b
  {
    if a == [] || b == [] {
    } else {
      LexAntisymmetric(a[1..], b[1..]);
      assert a == [a[0]] + a[1..] && b == [b[0]] + b[1..];
    }
  }

  lemma {:induction false} LexTransitive(a: ByteString, b: ByteString, c: ByteString)
    requires LexLe(a, b) && LexLe(b, c)
    ensures LexLe(a, c)
  {
    if a == [] || b == [] || c == [] {
    } else if a[0] == b[0] == c[0] {
      LexTransitive(a[1..], b[1..], c[1..]);
    }
  }
}
