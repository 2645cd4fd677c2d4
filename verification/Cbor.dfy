/** Canonical CBOR (section 3.9 of RFC 7049) over the values a trust bundle is made of.

    The encoder is `cbor2.dumps(..., canonical=True)` seen as a function; the decoder is written
    from the standard and accepts canonical encodings only. The two are inverse to each other,
    and two values have the same encoding exactly when they differ in nothing but the order in
    which map entries were inserted. */
module Cbor {
  import opened Bytes
  import opened Sorting

  /** `entries` keeps a map's insertion order, as Python dictionaries and JavaScript objects do. */
  datatype Value =
    | Null
    | Bool(b: bool)
    | UInt(n: nat)
    | Bin(bytes: ByteString)
    | Text(utf8: ByteString)
    | Array(items: seq<Value>)
    | Map(entries: seq<Entry>)

  datatype Entry = Entry(key: ByteString, val: Value)

  const TWO8 := 0x100
  const TWO16 := 0x1_0000
  const TWO32 := 0x1_0000_0000
  const TWO64 := 0x1_0000_0000_0000_0000

  const UINT: nat := 0
  const BIN: nat := 2
  const TEXT: nat := 3
  const ARRAY: nat := 4
  const MAP: nat := 5
  const SIMPLE: nat := 7

  // ----- heads

  function BigEndian2(n: nat): (r: ByteString)
    ensures |r| == 2
  {
    [n / TWO8 % TWO8, n % TWO8]
  }

  function BigEndian4(n: nat): (r: ByteString)
    ensures |r| == 4
  {
    BigEndian2(n / TWO16) + BigEndian2(n % TWO16)
  }

  function BigEndian8(n: nat): (r: ByteString)
    ensures |r| == 8
  {
    BigEndian4(n / TWO32 % TWO32) + BigEndian4(n % TWO32)
  }

  /** The shortest head for `n`. No head holds 2^64 or more: there the low 64 bits remain. */
  function Head(major: nat, n: nat): (r: ByteString)
    requires major < 8
    ensures 1 <= |r|
  {
    var base := major * 32;
    if n <= 23 then [base + n]
    else if n < TWO8 then [base + 24, n]
    else if n < TWO16 then [base + 25] + BigEndian2(n)
    else if n < TWO32 then [base + 26] + BigEndian4(n)
    else [base + 27] + BigEndian8(n)
  }

  function FromBigEndian(bs: ByteString): nat {
    if bs == [] then 0 else FromBigEndian(bs[..|bs| - 1]) * TWO8 + bs[|bs| - 1]
  }

  datatype Option<+T> = None | Some(value: T)

  datatype HeadRead = HeadRead(major: nat, n: nat, rest: ByteString)

  /** Reads a head; refuses one that is not the shortest for its number. */
  function ReadHead(bs: ByteString): (r: Option<HeadRead>)
    ensures r.Some? ==> |r.value.rest| < |bs| && r.value.major < 8
  {
    if bs == [] then None
    else
      var major, info := bs[0] / 32, bs[0] % 32;
      if info <= 23 then Some(HeadRead(major, info, bs[1..]))
      else if info == 24 then ReadLong(major, bs, 1, 24)
      else if info == 25 then ReadLong(major, bs, 2, TWO8)
      else if info == 26 then ReadLong(major, bs, 4, TWO16)
      else if info == 27 then ReadLong(major, bs, 8, TWO32)
      else None
  }

  function ReadLong(major: nat, bs: ByteString, width: nat, least: nat): (r: Option<HeadRead>)
    ensures r.Some? ==> r.value.major == major
    ensures r.Some? ==> |bs| == 1 + width + |r.value.rest|
  {
    if |bs| < 1 + width then None
    else
      var n := FromBigEndian(bs[1..1 + width]);
      if n < least then None else Some(HeadRead(major, n, bs[1 + width..]))
  }

  lemma {:induction false} FromBigEndianSplit(a: ByteString, b: Byte)
    ensures FromBigEndian(a + [b]) == FromBigEndian(a) * TWO8 + b
  {
    assert (a + [b])[..|a|] == a;
  }

  lemma {:induction false} FromBigEndian2(bs: ByteString)
    requires |bs| == 2
    ensures FromBigEndian(bs) == bs[0] * TWO8 + bs[1]
  {
    assert bs == [bs[0]] + [bs[1]];
    FromBigEndianSplit([], bs[0]);
    FromBigEndianSplit([bs[0]], bs[1]);
  }

  lemma {:induction false} FromBigEndian4(bs: ByteString)
    requires |bs| == 4
    ensures FromBigEndian(bs) == FromBigEndian(bs[..2]) * TWO16 + FromBigEndian(bs[2..])
  {
    FromBigEndian2(bs[2..]);
    FromBigEndianSplit(bs[..2], bs[2]);
    FromBigEndianSplit(bs[..3], bs[3]);
    assert bs[..2] + [bs[2]] == bs[..3] && bs[..3] + [bs[3]] == bs;
  }

  lemma {:induction false} FromBigEndian8(bs: ByteString)
    requires |bs| == 8
    ensures FromBigEndian(bs) == FromBigEndian(bs[..4]) * TWO32 + FromBigEndian(bs[4..])
  {
    var m := bs[4..];
    FromBigEndian4(m);
    FromBigEndian2(m[..2]);
    FromBigEndian2(m[2..]);
    FromBigEndianSplit(bs[..4], bs[4]);
    FromBigEndianSplit(bs[..5], bs[5]);
    FromBigEndianSplit(bs[..6], bs[6]);
    FromBigEndianSplit(bs[..7], bs[7]);
    assert bs[..4] + [bs[4]] == bs[..5] && bs[..5] + [bs[5]] == bs[..6];
    assert bs[..6] + [bs[6]] == bs[..7] && bs[..7] + [bs[7]] == bs;
  }

  lemma {:induction false} RoundTrip2(n: nat)
    ensures n < TWO16 ==> FromBigEndian(BigEndian2(n)) == n
  {
    FromBigEndian2(BigEndian2(n));
  }

  lemma {:induction false} RoundTrip4(n: nat)
    ensures n < TWO32 ==> FromBigEndian(BigEndian4(n)) == n
  {
    if n < TWO32 {
      var r := BigEndian4(n);
      FromBigEndian4(r);
      assert r[..2] == BigEndian2(n / TWO16) && r[2..] == BigEndian2(n % TWO16);
      RoundTrip2(n / TWO16);
      RoundTrip2(n % TWO16);
    }
  }

  lemma {:induction false} RoundTrip8(n: nat)
    ensures n < TWO64 ==> FromBigEndian(BigEndian8(n)) == n
  {
    if n < TWO64 {
      var r := BigEndian8(n);
      FromBigEndian8(r);
      assert r[..4] == BigEndian4(n / TWO32 % TWO32) && r[4..] == BigEndian4(n % TWO32);
      RoundTrip4(n / TWO32 % TWO32);
      RoundTrip4(n % TWO32);
    }
  }

  lemma {:induction false} Rejoin2(bs: ByteString)
    requires |bs| == 2
    ensures FromBigEndian(bs) < TWO16 && BigEndian2(FromBigEndian(bs)) == bs
  {
    FromBigEndian2(bs);
  }

  lemma {:induction false} Rejoin4(bs: ByteString)
    requires |bs| == 4
    ensures FromBigEndian(bs) < TWO32 && BigEndian4(FromBigEndian(bs)) == bs
  {
    FromBigEndian4(bs);
    Rejoin2(bs[..2]);
    Rejoin2(bs[2..]);
    Halves16(FromBigEndian(bs[..2]), FromBigEndian(bs[2..]));
    assert bs == bs[..2] + bs[2..];
  }

  lemma {:induction false} Rejoin8(bs: ByteString)
    requires |bs| == 8
    ensures FromBigEndian(bs) < TWO64 && BigEndian8(FromBigEndian(bs)) == bs
  {
    FromBigEndian8(bs);
    Rejoin4(bs[..4]);
    Rejoin4(bs[4..]);
    Halves32(FromBigEndian(bs[..4]), FromBigEndian(bs[4..]));
    assert bs == bs[..4] + bs[4..];
  }

  lemma {:induction false} Halves16(hi: nat, lo: nat)
    requires hi < TWO16 && lo < TWO16
    ensures var n := hi * TWO16 + lo; n < TWO32 && n / TWO16 == hi && n % TWO16 == lo
  {
  }

  lemma {:induction false} Halves32(hi: nat, lo: nat)
    requires hi < TWO32 && lo < TWO32
    ensures var n := hi * TWO32 + lo; n < TWO64 && n / TWO32 % TWO32 == hi && n % TWO32 == lo
  {
  }

  /** Reading a head gives back what was written, whatever follows it. */
  lemma {:induction false} ReadWrittenHead(major: nat, n: nat, rest: ByteString)
    requires major < 8 && n < TWO64
    ensures ReadHead(Head(major, n) + rest) == Some(HeadRead(major, n, rest))
  {
    var bs := Head(major, n) + rest;
    if n <= 23 {
      assert bs == [major * 32 + n] + rest;
      assert bs[1..] == rest;
    } else if n < TWO8 {
      assert [] + [n] == [n];
      FromBigEndianSplit([], n);
      assert bs == [major * 32 + 24] + [n] + rest;
      ReadWrittenLong(major, bs, 1, 24, [n], rest);
    } else {
      ReadWrittenWideHead(major, n, rest);
    }
  }

  lemma {:induction false} ReadWrittenWideHead(major: nat, n: nat, rest: ByteString)
    requires major < 8 && TWO8 <= n < TWO64
    ensures ReadHead(Head(major, n) + rest) == Some(HeadRead(major, n, rest))
  {
    if n < TWO16 {
      RoundTrip2(n);
      ReadWrittenInfo(major, 25, 2, TWO8, BigEndian2(n), rest);
    } else if n < TWO32 {
      RoundTrip4(n);
      ReadWrittenInfo(major, 26, 4, TWO16, BigEndian4(n), rest);
    } else {
      RoundTrip8(n);
      ReadWrittenInfo(major, 27, 8, TWO32, BigEndian8(n), rest);
    }
  }

  lemma {:induction false} ReadWrittenInfo(
      major: nat, info: nat, width: nat, least: nat, body: ByteString, rest: ByteString)
    requires major < 8 && |body| == width && least <= FromBigEndian(body)
    requires (info, width, least) in {(25, 2, TWO8), (26, 4, TWO16), (27, 8, TWO32)}
    ensures ReadHead([major * 32 + info] + body + rest) == Some(HeadRead(major, FromBigEndian(body), rest))
  {
    ReadWrittenLong(major, [major * 32 + info] + body + rest, width, least, body, rest);
  }

  lemma {:induction false} ReadWrittenLong(
      major: nat, bs: ByteString, width: nat, least: nat, body: ByteString, rest: ByteString)
    requires bs != [] && bs == [bs[0]] + body + rest && |body| == width
    requires least <= FromBigEndian(body)
    ensures ReadLong(major, bs, width, least) == Some(HeadRead(major, FromBigEndian(body), rest))
  {
    assert bs[1..1 + width] == body;
    assert bs[1 + width..] == rest;
  }

  /** Only the shortest head is read. */
  lemma {:induction false} WriteReadHead(bs: ByteString)
    requires ReadHead(bs).Some?
    ensures var h := ReadHead(bs).value; h.n < TWO64 && bs == Head(h.major, h.n) + h.rest
  {
    var h := ReadHead(bs).value;
    var info := bs[0] % 32;
    assert bs == [bs[0]] + bs[1..];
    assert bs[0] == h.major * 32 + info;
    if info > 23 {
      var width := if info == 24 then 1 else if info == 25 then 2 else if info == 26 then 4 else 8;
      var body := bs[1..1 + width];
      assert bs == ([bs[0]] + body) + h.rest;
      WriteLongHead(h.major, info, body);
    }
  }

  lemma {:induction false} WriteLongHead(major: nat, info: nat, body: ByteString)
    requires major < 8 && (info, |body|) in {(24, 1), (25, 2), (26, 4), (27, 8)}
    requires FromBigEndian(body) >=
      if info == 24 then 24 else if info == 25 then TWO8 else if info == 26 then TWO16 else TWO32
    ensures FromBigEndian(body) < TWO64 && Head(major, FromBigEndian(body)) == [major * 32 + info] + body
  {
    if info == 24 {
      assert body == [] + [body[0]];
      FromBigEndianSplit([], body[0]);
    } else if info == 25 {
      Rejoin2(body);
    } else if info == 26 {
      Rejoin4(body);
    } else {
      Rejoin8(body);
    }
  }

  // ----- the encoder

  /** Encodes the entries of maps in the order in which they stand. */
  function EncodeRaw(v: Value): (r: ByteString)
    ensures 1 <= |r|
    decreases v, 1
  {
    match v
    case Null => [0xf6]
    case Bool(b) => [if b then 0xf5 else 0xf4]
    case UInt(n) => Head(UINT, n)
    case Bin(bs) => Head(BIN, |bs|) + bs
    case Text(bs) => EncodeText(bs)
    case Array(items) => Head(ARRAY, |items|) + EncodeItems(items)
    case Map(es) => Head(MAP, |es|) + EncodeEntries(es)
  }

  function EncodeText(bs: ByteString): (r: ByteString)
    ensures 1 + |bs| <= |r|
  {
    Head(TEXT, |bs|) + bs
  }

  function EncodeItems(items: seq<Value>): ByteString
    decreases items, 0
  {
    if items == [] then [] else EncodeRaw(items[0]) + EncodeItems(items[1..])
  }

  function EncodeEntries(es: seq<Entry>): ByteString
    decreases es, 0
  {
    if es == [] then []
    else EncodeText(es[0].key) + EncodeRaw(es[0].val) + EncodeEntries(es[1..])
  }

  /** What a map is sorted by: the encoding of the key. */
  function SortKey(e: Entry): ByteString { EncodeText(e.key) }

  function SortEntries(es: seq<Entry>): (r: seq<Entry>)
    ensures |r| == |es|
  {
    Sort(es, SortKey, ShortLexLe)
  }

  /** `v` with the entries of every map in it, at every depth, in key order. */
  function Canon(v: Value): Value
    decreases v, 1
  {
    match v
    case Array(items) => Array(CanonItems(items))
    case Map(es) => Map(SortEntries(CanonEntries(es)))
    case _ => v
  }

  function CanonItems(items: seq<Value>): (r: seq<Value>)
    ensures |r| == |items|
    decreases items, 0
  {
    if items == [] then [] else [Canon(items[0])] + CanonItems(items[1..])
  }

  function CanonEntries(es: seq<Entry>): (r: seq<Entry>)
    ensures |r| == |es|
    decreases es, 0
  {
    if es == [] then [] else [Entry(es[0].key, Canon(es[0].val))] + CanonEntries(es[1..])
  }

  /** The canonical encoding. */
  function Encode(v: Value): ByteString { EncodeRaw(Canon(v)) }

  // ----- which values have an encoding of their own

  function KeyOf(e: Entry): ByteString { e.key }

  /** Numbers and lengths fit a head and no map has the same key twice. */
  ghost predicate Valid(v: Value)
    decreases v, 1
  {
    match v
    case UInt(n) => n < TWO64
    case Bin(bs) => |bs| < TWO64
    case Text(bs) => |bs| < TWO64
    case Array(items) => |items| < TWO64 && ValidItems(items)
    case Map(es) => |es| < TWO64 && ValidEntries(es) && DistinctBy(es, KeyOf)
    case _ => true
  }

  ghost predicate ValidItems(items: seq<Value>)
    decreases items, 0
  {
    items == [] || (Valid(items[0]) && ValidItems(items[1..]))
  }

  ghost predicate ValidEntries(es: seq<Entry>)
    decreases es, 0
  {
    es == [] || (|es[0].key| < TWO64 && Valid(es[0].val) && ValidEntries(es[1..]))
  }

  /** Keys strictly increasing: shorter encodings first, bytewise among those of one length. */
  predicate StrictlyIncreasing(es: seq<Entry>) {
    forall i :: 0 <= i < |es| - 1 ==>
      ShortLexLe(SortKey(es[i]), SortKey(es[i + 1])) && es[i].key != es[i + 1].key
  }

  /** A valid value whose maps are all in key order. */
  ghost predicate Canonical(v: Value)
    decreases v, 1
  {
    match v
    case UInt(n) => n < TWO64
    case Bin(bs) => |bs| < TWO64
    case Text(bs) => |bs| < TWO64
    case Array(items) => |items| < TWO64 && CanonicalItems(items)
    case Map(es) => |es| < TWO64 && CanonicalEntries(es) && StrictlyIncreasing(es)
    case _ => true
  }

  ghost predicate CanonicalItems(items: seq<Value>)
    decreases items, 0
  {
    items == [] || (Canonical(items[0]) && CanonicalItems(items[1..]))
  }

  ghost predicate CanonicalEntries(es: seq<Entry>)
    decreases es, 0
  {
    es == [] || (|es[0].key| < TWO64 && Canonical(es[0].val) && CanonicalEntries(es[1..]))
  }

  // ----- the decoder

  datatype ItemRead = ItemRead(v: Value, rest: ByteString)
  datatype ItemsRead = ItemsRead(items: seq<Value>, rest: ByteString)
  datatype EntriesRead = EntriesRead(entries: seq<Entry>, rest: ByteString)

  /** Reads one canonical item off the front. */
  function Decode(bs: ByteString): (r: Option<ItemRead>)
    ensures r.Some? ==> |r.value.rest| < |bs|
    decreases |bs|, 0, 0
  {
    match ReadHead(bs)
    case None => None
    case Some(h) => DecodeBody(h)
  }

  /** Reads what follows a head. */
  function DecodeBody(h: HeadRead): (r: Option<ItemRead>)
    ensures r.Some? ==> |r.value.rest| <= |h.rest|
    decreases |h.rest|, 2, 0
  {
    var HeadRead(major, n, rest) := h;
    if major == UINT then Some(ItemRead(UInt(n), rest))
    else if major == BIN then
      if |rest| < n then None else Some(ItemRead(Bin(rest[..n]), rest[n..]))
    else if major == TEXT then
      if |rest| < n then None else Some(ItemRead(Text(rest[..n]), rest[n..]))
    else if major == ARRAY then
      (match DecodeItems(rest, n)
       case None => None
       case Some(ItemsRead(items, rest')) => Some(ItemRead(Array(items), rest')))
    else if major == MAP then
      (match DecodeEntries(rest, n)
       case None => None
       case Some(EntriesRead(es, rest')) =>
         if StrictlyIncreasing(es) then Some(ItemRead(Map(es), rest')) else None)
    else if major == SIMPLE && n == 20 then Some(ItemRead(Bool(false), rest))
    else if major == SIMPLE && n == 21 then Some(ItemRead(Bool(true), rest))
    else if major == SIMPLE && n == 22 then Some(ItemRead(Null, rest))
    else None
  }

  function DecodeItems(bs: ByteString, count: nat): (r: Option<ItemsRead>)
    ensures r.Some? ==> |r.value.rest| <= |bs| && |r.value.items| == count
    decreases |bs|, 1, count
  {
    if count == 0 then Some(ItemsRead([], bs))
    else
      match Decode(bs)
      case None => None
      case Some(ItemRead(v, rest)) =>
        match DecodeItems(rest, count - 1)
        case None => None
        case Some(ItemsRead(items, rest')) => Some(ItemsRead([v] + items, rest'))
  }

  function DecodeEntries(bs: ByteString, count: nat): (r: Option<EntriesRead>)
    ensures r.Some? ==> |r.value.rest| <= |bs| && |r.value.entries| == count
    decreases |bs|, 1, count
  {
    if count == 0 then Some(EntriesRead([], bs))
    else
      match Decode(bs)
      case Some(ItemRead(Text(key), rest)) =>
        (match Decode(rest)
         case None => None
         case Some(ItemRead(v, rest')) =>
           match DecodeEntries(rest', count - 1)
           case None => None
           case Some(EntriesRead(es, rest'')) =>
             Some(EntriesRead([Entry(key, v)] + es, rest'')))
      case _ => None
  }
}
