/** The browser's canonical CBOR encoder (browser/src/cbor-canonical.js): it pushes bytes onto a
    shared array. Proved equal to the specification encoder of module Cbor. */
module JsCbor {
  import opened Bytes
  import opened Sorting
  import opened Cbor
  import opened CborLaws
  import Bits = JsBits

  /** A JavaScript value. Strings stand for their UTF-8 bytes (what `TextEncoder` gives);
      `JOther` is a function, a symbol or a BigInt. */
  datatype JsValue =
    | JUndefined
    | JNull
    | JBool(b: bool)
    | JNumber(r: real)
    | JNaN
    | JInfinity(positive: bool)
    | JString(utf8: ByteString)
    | JUint8Array(bytes: ByteString)
    | JArrayBuffer(bytes: ByteString)
    | JArray(items: seq<JsValue>)
    | JObject(props: seq<Prop>)
    | JOther

  datatype Prop = Prop(name: ByteString, val: JsValue)

  /** `Number.isInteger(r) && r >= 0` */
  predicate IsUnsigned(r: real) { r == r.Floor as real && r >= 0.0 }

  /** The CBOR value that stands for `v`; None if the encoder throws on it or on a part of it. */
  function ToCbor(v: JsValue): Option<Value>
    decreases v, 1
  {
    match v
    case JUndefined => Some(Null)
    case JNull => Some(Null)
    case JBool(b) => Some(Bool(b))
    case JNumber(r) => if IsUnsigned(r) then Some(UInt(r.Floor)) else None
    case JString(s) => Some(Text(s))
    case JUint8Array(bs) => Some(Bin(bs))
    case JArrayBuffer(bs) => Some(Bin(bs))
    case JArray(items) =>
      (match ToCborItems(items) case None => None case Some(vs) => Some(Array(vs)))
    case JObject(props) =>
      (match ToCborProps(props) case None => None case Some(es) => Some(Map(es)))
    case JNaN => None
    case JInfinity(_) => None
    case JOther => None
  }

  function ToCborItems(items: seq<JsValue>): (r: Option<seq<Value>>)
    ensures r.Some? ==> |r.value| == |items|
    decreases items, 0
  {
    if items == [] then Some([])
    else
      match (ToCbor(items[0]), ToCborItems(items[1..]))
      case (Some(v), Some(vs)) => Some([v] + vs)
      case _ => None
  }

  function ToCborProps(props: seq<Prop>): (r: Option<seq<Entry>>)
    ensures r.Some? ==> |r.value| == |props|
    decreases props, 0
  {
    if props == [] then Some([])
    else
      match (ToCbor(props[0].val), ToCborProps(props[1..]))
      case (Some(v), Some(es)) => Some([Entry(props[0].name, v)] + es)
      case _ => None
  }

  /** The array `buf` that the encoder pushes onto. */
  class ByteBuffer {
    var data: seq<int>

    constructor ()
      ensures data == []
    {
      data := [];
    }

    method Push(more: seq<int>)
      modifies this
      ensures data == old(data) + more
    {
      data := data + more;
    }

    method PushAll(bytes: ByteString)
      modifies this
      ensures data == old(data) + bytes
    {
      var i := 0;
      while i < |bytes|
        invariant 0 <= i <= |bytes|
        invariant data == old(data) + bytes[..i]
      {
        Push([bytes[i]]);
        i := i + 1;
      }
    }
  }

  /** `base | low` with `base = major << 5` */
  method FirstByte(base: int, low: nat, ghost major: nat) returns (b: int)
    requires major < 8 && low < 32 && base == Bits.Shl5(major)
    ensures b == major * 32 + low
  {
    Bits.HeadByte(major, low);
    b := Bits.Or(base, low);
  }

  /** `(x >> k) & 0xff`, where `pow` is 2^k */
  method ByteAt(x: int, pow: int) returns (b: int)
    requires pow in {0x100, 0x1_0000, 0x100_0000}
    ensures b == x % TWO32 / pow % 0x100
  {
    Bits.ByteAt(x, pow);
    b := Bits.And(Bits.Shr(x, pow), 0xff);
  }

  /** `x & 0xff` */
  method LowByte(x: int) returns (b: int)
    ensures b == x % TWO32 % 0x100
  {
    Bits.LowByte(x);
    b := Bits.And(x, 0xff);
  }

  /** The four expressions `(x >> 24) & 0xff` to `x & 0xff`. */
  method FourBytes(x: nat) returns (bytes: seq<int>)
    ensures bytes == BigEndian4(x % TWO32)
  {
    var b3 := ByteAt(x, 0x100_0000);
    var b2 := ByteAt(x, 0x1_0000);
    var b1 := ByteAt(x, 0x100);
    var b0 := LowByte(x);
    bytes := [b3, b2, b1, b0];
    Expand4(x % TWO32);
  }

  lemma {:induction false} Expand4(u: nat)
    ensures BigEndian4(u) == [u / 0x100_0000 % 0x100, u / 0x1_0000 % 0x100, u / 0x100 % 0x100, u % 0x100]
  {
    DivideTwice(u);
    LowHalf(u);
  }

  lemma {:induction false} DivideTwice(u: nat)
    ensures u / TWO16 / TWO8 == u / 0x100_0000
  {
  }

  lemma {:induction false} LowHalf(u: nat)
    ensures u % TWO16 / TWO8 % TWO8 == u / 0x100 % 0x100 && u % TWO16 % TWO8 == u % 0x100
  {
    var hi, lo := u / TWO16, u % TWO16;
    assert u == 0x100 * (hi * 0x100 + lo / 0x100) + lo % 0x100;
  }

  /** `writeHead`: shifts and masks on 32-bit numbers, and a high and a low half beyond them. */
  method WriteHead(major: nat, value: nat, buf: ByteBuffer)
    requires major < 8
    modifies buf
    ensures buf.data == old(buf.data) + Head(major, value)
  {
    var base := Bits.Shl5(major);
    if value <= 23 {
      var first := FirstByte(base, value, major);
      buf.Push([first]);
    } else if value <= 0xff {
      var first := FirstByte(base, 24, major);
      buf.Push([first, value]);
    } else if value <= 0xffff {
      var first := FirstByte(base, 25, major);
      var b1 := ByteAt(value, 0x100);
      var b0 := LowByte(value);
      buf.Push([first] + [b1, b0]);
      assert [b1, b0] == BigEndian2(value) by { assert value % TWO32 == value; }
    } else if value <= 0xffff_ffff {
      var first := FirstByte(base, 26, major);
      var bytes := FourBytes(value);
      buf.Push([first] + bytes);
      assert value % TWO32 == value;
    } else {
      var first := FirstByte(base, 27, major);
      buf.Push([first]);
      WriteHalves(value, buf);
      Assoc3(old(buf.data), [first], BigEndian8(value));
    }
  }

  /** The numbers beyond 32 bits: `hi` by division, `lo` by `>>> 0`. */
  method WriteHalves(value: nat, buf: ByteBuffer)
    modifies buf
    ensures buf.data == old(buf.data) + BigEndian8(value)
  {
    var hi := value / 0x1_0000_0000;
    var lo := Bits.Ushr0(value);
    var hiBytes := FourBytes(hi);
    var loBytes := FourBytes(lo);
    buf.Push(hiBytes + loBytes);
    assert lo % TWO32 == lo;
  }

  // ----- objects: entries with encoded keys, sorted by those

  datatype Keyed = Keyed(kBytes: ByteString, val: JsValue)

  /** An encoded key with an encoded value. */
  datatype Piece = Piece(kBytes: ByteString, vBytes: ByteString)

  function KeyBytes(x: Keyed): ByteString { x.kBytes }

  function PieceKey(p: Piece): ByteString { p.kBytes }

  function EncodeKeyed(x: Keyed): Piece {
    Piece(x.kBytes, match ToCbor(x.val) case Some(v) => Encode(v) case None => [])
  }

  function EncodeEntry(e: Entry): Piece { Piece(EncodeText(e.key), EncodeRaw(e.val)) }

  function Flatten(ps: seq<Piece>): ByteString {
    if ps == [] then [] else ps[0].kBytes + ps[0].vBytes + Flatten(ps[1..])
  }

  function KeyedProps(props: seq<Prop>): (r: seq<Keyed>)
    ensures |r| == |props|
  {
    seq(|props|, i requires 0 <= i < |props| => Keyed(EncodeText(props[i].name), props[i].val))
  }

  lemma {:induction false} FlattenEntries(es: seq<Entry>)
    ensures EncodeEntries(es) == Flatten(MapSeq(EncodeEntry, es))
  {
    if es == [] {
    } else {
      FlattenEntries(es[1..]);
    }
  }

  lemma {:induction false} ToCborPropsAt(props: seq<Prop>)
    ensures ToCborProps(props).Some? <==> forall i :: 0 <= i < |props| ==> ToCbor(props[i].val).Some?
    ensures ToCborProps(props).Some? ==> forall i :: 0 <= i < |props| ==>
      ToCborProps(props).value[i] == Entry(props[i].name, ToCbor(props[i].val).value)
  {
    if props == [] {
    } else {
      ToCborPropsAt(props[1..]);
      assert forall i :: 0 < i < |props| ==> props[i] == props[1..][i - 1];
      assert forall i :: 0 <= i < |props[1..]| ==> props[1..][i] == props[i + 1];
    }
  }

  lemma {:induction false} ToCborItemsAt(items: seq<JsValue>)
    ensures ToCborItems(items).Some? <==> forall i :: 0 <= i < |items| ==> ToCbor(items[i]).Some?
    ensures ToCborItems(items).Some? ==> forall i :: 0 <= i < |items| ==>
      ToCborItems(items).value[i] == ToCbor(items[i]).value
  {
    if items == [] {
    } else {
      ToCborItemsAt(items[1..]);
      assert forall i :: 0 < i < |items| ==> items[i] == items[1..][i - 1];
      assert forall i :: 0 <= i < |items[1..]| ==> items[1..][i] == items[i + 1];
    }
  }

  /** Sorting the encoded keys first and encoding the values then gives what the specification
      does: encode the values, sort the entries, write them out. */
  lemma {:induction false} SortedPieces(props: seq<Prop>, es: seq<Entry>)
    requires ToCborProps(props) == Some(es)
    ensures Flatten(MapSeq(EncodeKeyed, Sort(KeyedProps(props), KeyBytes, ShortLexLe))) ==
      EncodeEntries(SortEntries(CanonEntries(es)))
  {
    var keyed, ces := KeyedProps(props), CanonEntries(es);
    SamePieces(props, es);
    SortOfMapped(keyed, EncodeKeyed, KeyBytes, PieceKey, ShortLexLe);
    SortOfMapped(ces, EncodeEntry, SortKey, PieceKey, ShortLexLe);
    FlattenEntries(SortEntries(ces));
  }

  lemma {:induction false} SamePieces(props: seq<Prop>, es: seq<Entry>)
    requires ToCborProps(props) == Some(es)
    ensures MapSeq(EncodeKeyed, KeyedProps(props)) == MapSeq(EncodeEntry, CanonEntries(es))
  {
    ToCborPropsAt(props);
    CanonEntriesAt(es);
    var keyed, ces := KeyedProps(props), CanonEntries(es);
    forall i | 0 <= i < |props| ensures EncodeKeyed(keyed[i]) == EncodeEntry(ces[i]) {
      assert es[i] == Entry(props[i].name, ToCbor(props[i].val).value);
    }
  }

  /** The comparison function handed to `sort`: negative, zero or positive. */
  method CompareKeys(a: ByteString, b: ByteString) returns (c: int)
    ensures c <= 0 <==> ShortLexLe(a, b)
    ensures c == 0 <==> a == b
  {
    if |a| != |b| { return |a| - |b|; }
    var i := 0;
    while i < |a|
      invariant 0 <= i <= |a| && a[..i] == b[..i]
      invariant LexLe(a, b) <==> LexLe(a[i..], b[i..])
    {
      if a[i] != b[i] {
        return (a[i] as int) - (b[i] as int);
      }
      i := i + 1;
    }
    assert a == a[..i] && b == b[..i];
    return 0;
  }

  /** `encoded.sort(...)`. How the engine sorts is its own affair; by `SortOfPermutation` every
      way gives this result when the keys differ, as those of one object do. */
  method SortKeyed(s: seq<Keyed>) returns (r: seq<Keyed>)
    ensures r == Sort(s, KeyBytes, ShortLexLe)
  {
    r := [];
    var i := |s|;
    while i > 0
      invariant 0 <= i <= |s| && r == Sort(s[i..], KeyBytes, ShortLexLe)
    {
      i := i - 1;
      assert s[i..][0] == s[i] && s[i..][1..] == s[i + 1..];
      r := InsertKeyed(s[i], r);
    }
    assert s[0..] == s;
  }

  method InsertKeyed(x: Keyed, s: seq<Keyed>) returns (r: seq<Keyed>)
    ensures r == Insert(x, s, KeyBytes, ShortLexLe)
  {
    var j := 0;
    while j < |s|
      invariant 0 <= j <= |s|
      invariant Insert(x, s, KeyBytes, ShortLexLe) == s[..j] + Insert(x, s[j..], KeyBytes, ShortLexLe)
    {
      InsertStep(x, s, j);
      var c := CompareKeys(x.kBytes, s[j].kBytes);
      if c <= 0 { return s[..j] + ([x] + s[j..]); }
      j := j + 1;
    }
    r := s[..j] + [x];
  }

  lemma {:induction false} InsertStep(x: Keyed, s: seq<Keyed>, j: nat)
    requires j < |s|
    ensures ShortLexLe(x.kBytes, s[j].kBytes) ==>
      Insert(x, s[j..], KeyBytes, ShortLexLe) == [x] + s[j..]
    ensures !ShortLexLe(x.kBytes, s[j].kBytes) ==>
      s[..j] + Insert(x, s[j..], KeyBytes, ShortLexLe) ==
      s[..j + 1] + Insert(x, s[j + 1..], KeyBytes, ShortLexLe)
  {
    assert s[j..][0] == s[j] && s[j..][1..] == s[j + 1..] && s[..j + 1] == s[..j] + [s[j]];
  }

  /** `encodeItem`. Returns false where the source throws; the buffer is then abandoned. */
  method EncodeItem(value: JsValue, buf: ByteBuffer) returns (ok: bool)
    modifies buf
    ensures ok <==> ToCbor(value).Some?
    ensures ok ==> buf.data == old(buf.data) + Encode(ToCbor(value).value)
    decreases value
  {
    match value
    case JUndefined => buf.Push([0xf6]); ok := true;
    case JNull => buf.Push([0xf6]); ok := true;
    case JBool(b) => buf.Push([if b then 0xf5 else 0xf4]); ok := true;
    case JNumber(r) =>
      if IsUnsigned(r) {
        WriteHead(UINT, r.Floor, buf);
        ok := true;
      } else {
        ok := false;
      }
    case JNaN => ok := false;
    case JInfinity(_) => ok := false;
    case JString(s) => EncodeString(TEXT, s, buf); ok := true;
    case JUint8Array(bs) => EncodeString(BIN, bs, buf); ok := true;
    case JArrayBuffer(bs) => EncodeString(BIN, bs, buf); ok := true;
    case JArray(items) => ok := EncodeArray(items, buf);
    case JObject(props) => ok := EncodeObject(props, buf);
    case JOther => ok := false;
  }

  method EncodeString(major: nat, bytes: ByteString, buf: ByteBuffer)
    requires major < 8
    modifies buf
    ensures buf.data == old(buf.data) + (Head(major, |bytes|) + bytes)
  {
    WriteHead(major, |bytes|, buf);
    buf.PushAll(bytes);
    Assoc3(old(buf.data), Head(major, |bytes|), bytes);
  }

  lemma {:induction false} Assoc3(a: seq<int>, b: seq<int>, c: seq<int>)
    ensures (a + b) + c == a + (b + c)
  {
  }

  lemma {:induction false} EncodeItemsSnoc(cs: seq<Value>, i: nat)
    requires i < |cs|
    ensures EncodeItems(cs[..i + 1]) == EncodeItems(cs[..i]) + EncodeRaw(cs[i])
  {
    if i == 0 {
      assert cs[..1][1..] == [] && cs[..0] == [];
      assert EncodeItems(cs[..1]) == EncodeRaw(cs[0]) + EncodeItems([]);
    } else {
      EncodeItemsSnoc(cs[1..], i - 1);
      assert cs[..i + 1][1..] == cs[1..][..i] && cs[..i][1..] == cs[1..][..i - 1];
      Assoc3(EncodeRaw(cs[0]), EncodeItems(cs[..i][1..]), EncodeRaw(cs[i]));
    }
  }

  lemma {:induction false} FlattenSnoc(ps: seq<Piece>, i: nat)
    requires i < |ps|
    ensures Flatten(ps[..i + 1]) == Flatten(ps[..i]) + (ps[i].kBytes + ps[i].vBytes)
  {
    if i == 0 {
      assert ps[..1][1..] == [] && ps[..0] == [];
      assert Flatten(ps[..1]) == ps[0].kBytes + ps[0].vBytes + Flatten([]);
    } else {
      FlattenSnoc(ps[1..], i - 1);
      assert ps[..i + 1][1..] == ps[1..][..i] && ps[..i][1..] == ps[1..][..i - 1];
      Assoc3(ps[0].kBytes + ps[0].vBytes, Flatten(ps[..i][1..]), ps[i].kBytes + ps[i].vBytes);
    }
  }

  lemma {:induction false} ItemsGrow(start: seq<int>, cs: seq<Value>, i: nat)
    requires i < |cs|
    ensures start + EncodeItems(cs[..i]) + EncodeRaw(cs[i]) == start + EncodeItems(cs[..i + 1])
  {
    EncodeItemsSnoc(cs, i);
  }

  method EncodeArray(items: seq<JsValue>, buf: ByteBuffer) returns (ok: bool)
    modifies buf
    ensures ok <==> ToCborItems(items).Some?
    ensures ok ==> buf.data == old(buf.data) + Encode(Array(ToCborItems(items).value))
    decreases items
  {
    WriteHead(ARRAY, |items|, buf);
    ToCborItemsAt(items);
    ghost var start := buf.data;
    ghost var all := ToCborItems(items).Some?;
    ghost var cs := if all then CanonItems(ToCborItems(items).value) else [];
    if all { CanonItemsAt(ToCborItems(items).value); }
    var i := 0;
    while i < |items|
      invariant 0 <= i <= |items|
      invariant forall k :: 0 <= k < i ==> ToCbor(items[k]).Some?
      invariant all ==> buf.data == start + EncodeItems(cs[..i])
    {
      var fine := EncodeItem(items[i], buf);
      if !fine { return false; }
      if all { ItemsGrow(start, cs, i); }
      i := i + 1;
    }
    assert cs[..|items|] == cs;
    Assoc3(old(buf.data), Head(ARRAY, |items|), EncodeItems(cs));
    ok := true;
  }

  method EncodeObject(props: seq<Prop>, buf: ByteBuffer) returns (ok: bool)
    modifies buf
    ensures ok <==> ToCborProps(props).Some?
    ensures ok ==> buf.data == old(buf.data) + Encode(Map(ToCborProps(props).value))
    decreases props, 2
  {
    var encoded := EncodeKeys(props);
    encoded := SortKeyed(encoded);
    SameElements(encoded, KeyedProps(props));
    WriteHead(MAP, |encoded|, buf);
    ok := EncodePairs(props, encoded, buf);
    AllSupported(props, encoded);
    if ok {
      ghost var es := ToCborProps(props).value;
      SortedPieces(props, es);
      Assoc3(old(buf.data), Head(MAP, |props|), Flatten(MapSeq(EncodeKeyed, encoded)));
      assert Encode(Map(es)) == Head(MAP, |props|) + Flatten(MapSeq(EncodeKeyed, encoded));
    }
  }

  /** The loop over the sorted entries. */
  method EncodePairs(ghost props: seq<Prop>, encoded: seq<Keyed>, buf: ByteBuffer) returns (ok: bool)
    requires forall x :: x in encoded ==> x in KeyedProps(props)
    modifies buf
    ensures ok <==> FirstSupported(encoded, |encoded|)
    ensures ok ==> buf.data == old(buf.data) + Flatten(MapSeq(EncodeKeyed, encoded))
    decreases props, 1
  {
    var i := 0;
    while i < |encoded|
      invariant 0 <= i <= |encoded|
      invariant FirstSupported(encoded, i)
      invariant buf.data == old(buf.data) + FirstPieces(encoded, i)
    {
      PiecesGrow(old(buf.data), encoded, i);
      SupportedGrow(encoded, i);
      var fine := EncodePair(props, encoded[i], buf);
      if !fine { return false; }
      i := i + 1;
    }
    AllPieces(encoded);
    ok := true;
  }

  /** The encoder accepts the first entries. */
  ghost predicate FirstSupported(encoded: seq<Keyed>, i: nat)
    requires i <= |encoded|
  {
    forall k :: 0 <= k < i ==> ToCbor(encoded[k].val).Some?
  }

  lemma {:induction false} SupportedGrow(encoded: seq<Keyed>, i: nat)
    requires i < |encoded|
    ensures FirstSupported(encoded, i + 1) <==> FirstSupported(encoded, i) && ToCbor(encoded[i].val).Some?
    ensures FirstSupported(encoded, |encoded|) ==> FirstSupported(encoded, i + 1)
  {
  }

  /** The bytes of the first entries. */
  ghost function FirstPieces(encoded: seq<Keyed>, i: nat): ByteString
    requires i <= |encoded|
  {
    Flatten(MapSeq(EncodeKeyed, encoded)[..i])
  }

  lemma {:induction false} AllPieces(encoded: seq<Keyed>)
    ensures FirstPieces(encoded, |encoded|) == Flatten(MapSeq(EncodeKeyed, encoded))
  {
    assert MapSeq(EncodeKeyed, encoded)[..|encoded|] == MapSeq(EncodeKeyed, encoded);
  }

  lemma {:induction false} PiecesGrow(start: seq<int>, encoded: seq<Keyed>, i: nat)
    requires i < |encoded|
    ensures start + FirstPieces(encoded, i) + EncodeKeyed(encoded[i]).kBytes + EncodeKeyed(encoded[i]).vBytes
      == start + FirstPieces(encoded, i + 1)
  {
    FlattenGrow(start, MapSeq(EncodeKeyed, encoded), i);
  }

  method EncodePair(ghost props: seq<Prop>, x: Keyed, buf: ByteBuffer) returns (ok: bool)
    requires x in KeyedProps(props)
    modifies buf
    ensures ok <==> ToCbor(x.val).Some?
    ensures ok ==> buf.data == old(buf.data) + EncodeKeyed(x).kBytes + EncodeKeyed(x).vBytes
    decreases props, 0
  {
    ghost var p :| 0 <= p < |props| && x == Keyed(EncodeText(props[p].name), props[p].val);
    buf.PushAll(x.kBytes);
    ok := EncodeItem(x.val, buf);
  }

  lemma {:induction false} FlattenGrow(start: seq<int>, ps: seq<Piece>, i: nat)
    requires i < |ps|
    ensures start + Flatten(ps[..i]) + ps[i].kBytes + ps[i].vBytes == start + Flatten(ps[..i + 1])
  {
    FlattenSnoc(ps, i);
  }

  lemma {:induction false} AllSupported(props: seq<Prop>, sorted: seq<Keyed>)
    requires multiset(sorted) == multiset(KeyedProps(props))
    ensures ToCborProps(props).Some? <==> FirstSupported(sorted, |sorted|)
  {
    SameElements(sorted, KeyedProps(props));
    ToCborPropsAt(props);
    var keyed := KeyedProps(props);
    if ToCborProps(props).Some? {
      forall k | 0 <= k < |sorted| ensures ToCbor(sorted[k].val).Some? {
        assert sorted[k] in keyed;
      }
    }
    if forall k :: 0 <= k < |sorted| ==> ToCbor(sorted[k].val).Some? {
      forall i | 0 <= i < |props| ensures ToCbor(props[i].val).Some? {
        assert keyed[i] in sorted;
      }
    }
  }

  /** `entries.map(...)`: every key is encoded on a buffer of its own. */
  method EncodeKeys(props: seq<Prop>) returns (encoded: seq<Keyed>)
    ensures encoded == KeyedProps(props)
  {
    encoded := [];
    var i := 0;
    while i < |props|
      invariant 0 <= i <= |props| && encoded == KeyedProps(props)[..i]
    {
      var kBuf := new ByteBuffer();
      EncodeString(TEXT, props[i].name, kBuf);
      var kBytes := ToUint8Array(kBuf, EncodeText(props[i].name));
      encoded := encoded + [Keyed(kBytes, props[i].val)];
      assert encoded[i] == KeyedProps(props)[i];
      i := i + 1;
    }
  }

  /** `new Uint8Array(buf)` keeps the low eight bits of every element. */
  method ToUint8Array(buf: ByteBuffer, ghost expected: ByteString) returns (bytes: ByteString)
    ensures |bytes| == |buf.data| && forall i :: 0 <= i < |bytes| ==> bytes[i] == buf.data[i] % 0x100
    ensures buf.data == expected ==> bytes == expected
  {
    bytes := seq(|buf.data|, i requires 0 <= i < |buf.data| reads buf => buf.data[i] % 0x100);
    if buf.data == expected {
      forall i | 0 <= i < |bytes| ensures bytes[i] == expected[i] {
        assert buf.data[i] == expected[i];
      }
    }
  }

  /** `encodeCbor`: throws exactly on values with an unsupported part; otherwise the result is
      the canonical encoding of the CBOR value that the argument stands for. */
  method EncodeCbor(value: JsValue) returns (r: Option<ByteString>)
    ensures r == match ToCbor(value) case None => None case Some(v) => Some(Encode(v))
  {
    var buf := new ByteBuffer();
    var ok := EncodeItem(value, buf);
    if !ok { return None; }
    var bytes := ToUint8Array(buf, Encode(ToCbor(value).value));
    r := Some(bytes);
  }
}
