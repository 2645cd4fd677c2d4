/** JavaScript's bitwise operators on integral numbers: operands are taken modulo 2^32 and
    results are read back as signed 32-bit numbers (`>>>` reads them back as unsigned). */
module JsBits {

  const TWO31 := 0x8000_0000
  const TWO32 := 0x1_0000_0000

  function ToUint32(x: int): (r: nat) { x % TWO32 }

  function ToInt32(x: int): int {
    var u := ToUint32(x);
    if u < TWO31 then u else u - TWO32
  }

  function AndBits(a: nat, b: nat): nat {
    if a == 0 || b == 0 then 0
    else (if a % 2 == 1 && b % 2 == 1 then 1 else 0) + 2 * AndBits(a / 2, b / 2)
  }

  function OrBits(a: nat, b: nat): nat {
    if a == 0 then b
    else if b == 0 then a
    else (if a % 2 == 1 || b % 2 == 1 then 1 else 0) + 2 * OrBits(a / 2, b / 2)
  }

  /** `a & b` */
  function And(a: int, b: int): int { ToInt32(AndBits(ToUint32(a), ToUint32(b))) }

  /** `a | b` */
  function Or(a: int, b: int): int { ToInt32(OrBits(ToUint32(a), ToUint32(b))) }

  /** `a << 5`, the only left shift in the encoder */
  function Shl5(a: int): int { ToInt32(ToInt32(a) * 32) }

  /** `a >> k`, which rounds down; `pow` is 2^k */
  function Shr(a: int, pow: int): int
    requires pow > 0
  {
    ToInt32(a) / pow
  }

  /** `a >>> 0` */
  function Ushr0(a: int): nat { ToUint32(a) }

  lemma {:induction false} RemainderIsUnique(a: nat, p: nat, k: nat, r: nat)
    requires r < p && a == p * k + r
    ensures a % p == r
  {
    var q := a / p;
    assert a == p * q + a % p;
    if k > q { Spread(p, q, k); } else if k < q { Spread(p, k, q); }
  }

  lemma {:induction false} Spread(p: nat, x: nat, y: nat)
    requires x < y
    ensures p * x + p <= p * y
  {
    assert p * y == p * (y - 1) + p;
    if x < y - 1 { Spread(p, x, y - 1); }
  }

  lemma {:induction false} SplitLowBit(a: nat, p: nat)
    requires p > 0 && p % 2 == 0
    ensures a % p == a % 2 + 2 * (a / 2 % (p / 2))
  {
    var half := p / 2;
    var k, r := a / 2 / half, a / 2 % half;
    assert a / 2 == half * k + r;
    assert p * k == 2 * (half * k);
    RemainderIsUnique(a, p, k, 2 * r + a % 2);
  }

  /** Masking with 2^k - 1 is the remainder modulo 2^k. */
  lemma {:induction false} AndMask(a: nat, p: nat)
    requires p in {1, 2, 4, 8, 16, 32, 64, 128, 256}
    ensures AndBits(a, p - 1) == a % p
  {
    if p > 1 && a > 0 {
      AndMask(a / 2, p / 2);
      SplitLowBit(a, p);
      assert (p - 1) / 2 == p / 2 - 1 && (p - 1) % 2 == 1;
    }
  }

  /** `|` of numbers that have no bit in common is their sum. */
  lemma {:induction false} OrDisjoint(a: nat, b: nat, p: nat)
    requires p in {1, 2, 4, 8, 16, 32} && a % p == 0 && b < p
    ensures OrBits(a, b) == a + b
  {
    if p > 1 && a > 0 && b > 0 {
      OrDisjoint(a / 2, b / 2, p / 2);
    }
  }

  /** `(x >> k) & 0xff` picks a byte of the low 32 bits, also where `x >> k` is negative. */
  lemma {:induction false} ByteAt(x: int, pow: int)
    requires pow in {0x100, 0x1_0000, 0x100_0000}
    ensures And(Shr(x, pow), 0xff) == ToUint32(x) / pow % 0x100
  {
    LowByte(Shr(x, pow));
    LowByteOf(Shr(x, pow));
    if pow == 0x100 {
      Shifted8(ToUint32(x));
    } else if pow == 0x1_0000 {
      Shifted16(ToUint32(x));
    } else {
      Shifted24(ToUint32(x));
    }
  }

  /** The low byte is the same before and after reduction to 32 bits. */
  lemma {:induction false} LowByteOf(x: int)
    ensures ToUint32(x) % 0x100 == x % 0x100
  {
    AddMultiple(x % TWO32, x / TWO32 * 0x100_0000);
  }

  lemma {:induction false} AddMultiple(u: int, k: int)
    ensures (0x100 * k + u) % 0x100 == u % 0x100
  {
  }

  lemma {:induction false} Shifted8(u: nat)
    requires u < TWO32
    ensures (u - TWO32) / 0x100 % 0x100 == u / 0x100 % 0x100
  {
    assert (u - TWO32) / 0x100 == u / 0x100 - 0x100_0000;
  }

  lemma {:induction false} Shifted16(u: nat)
    requires u < TWO32
    ensures (u - TWO32) / 0x1_0000 % 0x100 == u / 0x1_0000 % 0x100
  {
    assert (u - TWO32) / 0x1_0000 == u / 0x1_0000 - 0x1_0000;
  }

  lemma {:induction false} Shifted24(u: nat)
    requires u < TWO32
    ensures (u - TWO32) / 0x100_0000 % 0x100 == u / 0x100_0000 % 0x100
  {
    assert (u - TWO32) / 0x100_0000 == u / 0x100_0000 - 0x100;
  }

  /** `x & 0xff` */
  lemma {:induction false} LowByte(x: int)
    ensures And(x, 0xff) == ToUint32(x) % 0x100
  {
    AndMask(ToUint32(x), 0x100);
  }

  /** `major << 5 | low` puts the major type above five further bits. */
  lemma {:induction false} HeadByte(major: nat, low: nat)
    requires major < 8 && low < 32
    ensures Or(Shl5(major), low) == major * 32 + low
  {
    var base := major * 32;
    assert Shl5(major) == base;
    assert ToUint32(base) == base && ToUint32(low) == low;
    OrDisjoint(base, low, 32);
    SmallInt32(base + low);
  }

  lemma {:induction false} SmallInt32(x: nat)
    requires x < 0x100
    ensures ToInt32(x) == x
  {
  }
}
