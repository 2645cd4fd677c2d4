/** Encodings whose bytes are published elsewhere: they tie the specifications of this project to the
    formats that other programs read. */
module WireVectors {
  import opened Bytes
  import opened Cbor
  import opened Sorting
  import opened Merkle
  import Base64

  /** Numbers, from appendix A of RFC 7049. */
  lemma {:induction false} CborNumbers()
    ensures Encode(UInt(0)) == [0x00] && Encode(UInt(10)) == [0x0a] && Encode(UInt(23)) == [0x17]
    ensures Encode(UInt(24)) == [0x18, 0x18] && Encode(UInt(100)) == [0x18, 0x64]
  {
  }

  lemma {:induction false} CborLongNumbers()
    ensures Encode(UInt(1000)) == [0x19, 0x03, 0xe8]
    ensures Encode(UInt(1000000)) == [0x1a, 0x00, 0x0f, 0x42, 0x40]
    ensures Encode(UInt(1000000000000)) == [0x1b, 0x00, 0x00, 0x00, 0xe8, 0xd4, 0xa5, 0x10, 0x00]
    ensures Encode(UInt(18446744073709551615)) == [0x1b, 0xff, 0xff, 0xff, 0xff, 0xff, 0xff, 0xff, 0xff]
  {
  }

  /** Simple values and strings, from the same. */
  lemma {:induction false} CborStrings()
    ensures Encode(Bool(false)) == [0xf4] && Encode(Bool(true)) == [0xf5] && Encode(Null) == [0xf6]
    ensures Encode(Bin([])) == [0x40] && Encode(Bin([1, 2, 3, 4])) == [0x44, 1, 2, 3, 4]
    ensures Encode(Text([])) == [0x60] && Encode(Text([0x61])) == [0x61, 0x61]
    ensures Encode(Text([0x49, 0x45, 0x54, 0x46])) == [0x64, 0x49, 0x45, 0x54, 0x46]
  {
  }

  lemma {:induction false} Items3(a: Value, b: Value, c: Value)
    ensures EncodeItems([a, b, c]) == EncodeRaw(a) + EncodeRaw(b) + EncodeRaw(c)
    ensures CanonItems([a, b, c]) == [Canon(a), Canon(b), Canon(c)]
  {
    assert [a, b, c][1..] == [b, c] && [b, c][1..] == [c] && [c][1..] == [];
    assert EncodeItems([c]) == EncodeRaw(c) + EncodeItems([]);
    assert EncodeItems([b, c]) == EncodeRaw(b) + EncodeItems([c]);
    assert CanonItems([c]) == [Canon(c)] + CanonItems([]);
    assert CanonItems([b, c]) == [Canon(b)] + CanonItems([c]);
  }

  /** Lists and maps. */
  lemma {:induction false} CborContainers()
    ensures Encode(Array([])) == [0x80] && Encode(Map([])) == [0xa0]
    ensures Encode(Array([UInt(1), UInt(2), UInt(3)])) == [0x83, 1, 2, 3]
  {
    Items3(UInt(1), UInt(2), UInt(3));
    CborOnes();
  }

  lemma {:induction false} CborOnes()
    ensures EncodeRaw(UInt(1)) == [1] && EncodeRaw(UInt(2)) == [2] && EncodeRaw(UInt(3)) == [3]
    ensures EncodeText([0x61, 0x61]) == [0x62, 0x61, 0x61] && EncodeText([0x62]) == [0x61, 0x62]
  {
  }

  lemma {:induction false} SortOfTwo(a: Entry, b: Entry)
    requires !ShortLexLe(SortKey(a), SortKey(b))
    ensures SortEntries([a, b]) == [b, a]
  {
    assert [a, b][1..] == [b] && [b][1..] == [];
    assert Sort([b], SortKey, ShortLexLe) == [b];
    assert Insert(a, [b], SortKey, ShortLexLe) == [b] + [a];
  }

  lemma {:induction false} CanonOfTwo(a: Entry, b: Entry)
    requires a.val.UInt? && b.val.UInt?
    ensures CanonEntries([a, b]) == [a, b]
  {
    assert [a, b][1..] == [b] && [b][1..] == [];
    assert CanonEntries([b]) == [b] + [];
    assert CanonEntries([a, b]) == [a] + [b];
  }

  lemma {:induction false} EntriesOfTwo(a: Entry, b: Entry)
    ensures EncodeEntries([b, a]) ==
      EncodeText(b.key) + EncodeRaw(b.val) + (EncodeText(a.key) + EncodeRaw(a.val) + [])
  {
    assert [b, a][1..] == [a] && [a][1..] == [];
    assert EncodeEntries([a]) == EncodeText(a.key) + EncodeRaw(a.val) + EncodeEntries([]);
  }

  lemma {:induction false} MapOfTwo(a: Entry, b: Entry)
    requires a.val.UInt? && b.val.UInt? && !ShortLexLe(SortKey(a), SortKey(b))
    ensures Canon(Map([a, b])) == Map([b, a])
    ensures EncodeRaw(Map([b, a])) ==
      Head(5, 2) + (EncodeText(b.key) + EncodeRaw(b.val) + (EncodeText(a.key) + EncodeRaw(a.val) + []))
  {
    CanonOfTwo(a, b);
    SortOfTwo(a, b);
    EntriesOfTwo(a, b);
  }

  lemma {:induction false} LongerIsGreater(a: ByteString, b: ByteString)
    requires |a| > |b|
    ensures !ShortLexLe(a, b)
  {
  }

  lemma {:induction false} HeadOfTwo()
    ensures Head(5, 2) == [0xa2]
  {
  }

  lemma {:induction false} Joined(h: Byte, k: ByteString, v: Byte, l: ByteString, w: Byte)
    ensures [h] + (k + [v] + (l + [w] + [])) == [h] + k + [v] + l + [w]
  {
  }

  lemma {:induction false} TwoKeys(a: Entry, b: Entry, k: ByteString, l: ByteString, v: Byte, w: Byte)
    requires a.val.UInt? && b.val.UInt? && EncodeText(a.key) == k && EncodeText(b.key) == l && |k| > |l|
    requires EncodeRaw(a.val) == [v] && EncodeRaw(b.val) == [w]
    ensures Encode(Map([a, b])) == [0xa2] + l + [w] + k + [v]
  {
    LongerIsGreater(k, l);
    MapOfTwo(a, b);
    Joined(0xa2, l, w, k, v);
    HeadOfTwo();
  }

  /** A shorter key comes first, whatever it starts with (section 3.9 of RFC 7049). */
  lemma {:induction false} CborKeyOrder()
    ensures Encode(Map([Entry([0x61, 0x61], UInt(1)), Entry([0x62], UInt(2))])) ==
      [0xa2] + [0x61, 0x62] + [2] + [0x62, 0x61, 0x61] + [1]
  {
    CborOnes();
    TwoKeys(Entry([0x61, 0x61], UInt(1)), Entry([0x62], UInt(2)), [0x62, 0x61, 0x61], [0x61, 0x62], 1, 2);
  }

  /** Trees of up to three leaves, with the prefixes of section 2.1 of RFC 6962. */
  lemma {:induction false} SmallTrees(sha: Hash, a: ByteString, b: ByteString, c: ByteString)
    ensures Root(sha, []) == sha([])
    ensures Root(sha, [a]) == sha([0] + a)
    ensures Root(sha, [a, b]) == sha([1] + sha([0] + a) + sha([0] + b))
    ensures Root(sha, [a, b, c]) ==
      sha([1] + sha([1] + sha([0] + a) + sha([0] + b)) + sha([1] + sha([0] + c) + sha([0] + c)))
  {
    var x, y, z := LeafHash(sha, a), LeafHash(sha, b), LeafHash(sha, c);
    LeavesOfThree(sha, a, b, c);
    TopOfTwo(sha, x, y);
    UpOfThree(sha, x, y, z);
    TopOfTwo(sha, NodeHash(sha, x, y), NodeHash(sha, z, z));
    assert LayersFrom(sha, [x, y, z]) == [[x, y, z]] + LayersFrom(sha, [NodeHash(sha, x, y), NodeHash(sha, z, z)]);
  }

  lemma {:induction false} LeavesOfThree(sha: Hash, a: ByteString, b: ByteString, c: ByteString)
    ensures LeafLayer(sha, [a]) == [LeafHash(sha, a)]
    ensures LeafLayer(sha, [a, b]) == [LeafHash(sha, a), LeafHash(sha, b)]
    ensures LeafLayer(sha, [a, b, c]) == [LeafHash(sha, a), LeafHash(sha, b), LeafHash(sha, c)]
  {
    LeafLayerAt(sha, [a], 0);
    LeafLayerAt(sha, [a, b], 0);
    LeafLayerAt(sha, [a, b], 1);
    LeafLayerAt(sha, [a, b, c], 0);
    LeafLayerAt(sha, [a, b, c], 1);
    LeafLayerAt(sha, [a, b, c], 2);
  }

  lemma {:induction false} TopOfTwo(sha: Hash, x: Digest, y: Digest)
    ensures LayersFrom(sha, [x, y]) == [[x, y], [NodeHash(sha, x, y)]]
  {
    UpOfTwo(sha, x, y);
    assert LayersFrom(sha, [NodeHash(sha, x, y)]) == [[NodeHash(sha, x, y)]];
  }

  lemma {:induction false} UpOfTwo(sha: Hash, x: Digest, y: Digest)
    ensures Up(sha, [x, y]) == [NodeHash(sha, x, y)]
  {
    assert Padded([x, y]) == [x, y] && [x, y][2..] == [];
    assert PairUp(Joiner(sha), [x, y]) == [NodeHash(sha, x, y)] + PairUp(Joiner(sha), []);
  }

  lemma {:induction false} UpOfThree(sha: Hash, x: Digest, y: Digest, z: Digest)
    ensures Up(sha, [x, y, z]) == [NodeHash(sha, x, y), NodeHash(sha, z, z)]
  {
    assert Padded([x, y, z]) == [x, y, z, z] && [x, y, z, z][2..] == [z, z] && [z, z][2..] == [];
    assert PairUp(Joiner(sha), [z, z]) == [NodeHash(sha, z, z)] + PairUp(Joiner(sha), []);
    assert PairUp(Joiner(sha), [x, y, z, z]) == [NodeHash(sha, x, y)] + PairUp(Joiner(sha), [z, z]);
  }

  /** All hexadecimal digits. */
  lemma {:induction false} HexDigits()
    ensures Base64.Hex([0x01, 0x23, 0x45, 0x67]) == "01234567"
    ensures Base64.Hex([0x89, 0xab, 0xcd, 0xef]) == "89abcdef"
  {
    HexOfFour(0x01, 0x23, 0x45, 0x67);
    HexOfFour(0x89, 0xab, 0xcd, 0xef);
  }

  /** Capitals and white space are read too, and half a byte is not. */
  lemma {:induction false} HexIsRead()
    ensures Base64.FromHex(" A0 bF") == Some([0xa0, 0xbf]) && Base64.FromHex("abc").None? && Base64.FromHex("0g").None?
  {
    HexPair("bF", 11, 15, []);
    assert " bF"[1..] == "bF" && [0xbf] + [] == [0xbf];
    HexPair("A0 bF", 10, 0, [0xbf]);
    assert " A0 bF"[1..] == "A0 bF" && [0xa0] + [0xbf] == [0xa0, 0xbf];
    assert "abc"[2..] == "c" && Base64.FromHex("c").None?;
    assert "0g"[2..] == "" && Base64.HexValue('g').None?;
  }

  lemma {:induction false} HexPair(s: string, hi: Base64.Nibble, lo: Base64.Nibble, rest: ByteString)
    requires |s| >= 2 && !Base64.IsSpace(s[0]) && Base64.HexValue(s[0]) == Some(hi) && Base64.HexValue(s[1]) == Some(lo)
    requires Base64.FromHex(s[2..]) == Some(rest)
    ensures Base64.FromHex(s) == Some([hi * 16 + lo] + rest)
  {
  }

  lemma {:induction false} HexOfFour(a: Byte, b: Byte, c: Byte, d: Byte)
    ensures Base64.Hex([a, b, c, d]) ==
      [Base64.HexDigit(a / 16), Base64.HexDigit(a % 16), Base64.HexDigit(b / 16), Base64.HexDigit(b % 16)] +
      [Base64.HexDigit(c / 16), Base64.HexDigit(c % 16), Base64.HexDigit(d / 16), Base64.HexDigit(d % 16)]
  {
    assert [a, b, c, d][1..] == [b, c, d] && [b, c, d][1..] == [c, d] && [c, d][1..] == [d] && [d][1..] == [];
    assert Base64.Hex([d]) == [Base64.HexDigit(d / 16), Base64.HexDigit(d % 16)] + Base64.Hex([]);
    assert Base64.Hex([c, d]) == [Base64.HexDigit(c / 16), Base64.HexDigit(c % 16)] + Base64.Hex([d]);
    assert Base64.Hex([b, c, d]) == [Base64.HexDigit(b / 16), Base64.HexDigit(b % 16)] + Base64.Hex([c, d]);
  }

  /** From section 10 of RFC 4648: "foobar", and the padding of "fo" and "f". */
  lemma {:induction false} Base64Letters()
    ensures Base64.B64Encode([0x66, 0x6f, 0x6f, 0x62, 0x61, 0x72]) == "Zm9vYmFy"
    ensures Base64.B64Encode([0x66, 0x6f]) == "Zm8=" && Base64.B64Encode([0x66]) == "Zg=="
    ensures Base64.B64Encode([0xfb, 0xff]) == "+/8="
  {
    var foobar: ByteString := [0x66, 0x6f, 0x6f, 0x62, 0x61, 0x72];
    assert foobar[3..] == [0x62, 0x61, 0x72] && [0x62, 0x61, 0x72][3..] == [];
    assert Base64.Letters([0x62, 0x61, 0x72]) == "YmFy" + Base64.Letters([]);
  }

  /** The URL alphabet of section 5, without padding. */
  lemma {:induction false} UrlLetters()
    ensures Base64.B64Url([0xfb, 0xff]) == "-_8" && Base64.B64UrlDecode("-_8") == Some([0xfb, 0xff])
  {
    Base64Letters();
    var s := "-_8=";
    assert Base64.Replace(Base64.Replace("+/8=", '+', '-'), '/', '_') == s;
    assert s[..3] == "-_8" && Base64.RStrip("-_8", '=') == "-_8";
    Base64.Base64UrlRoundTrip([0xfb, 0xff]);
  }
}
