/** The laws of canonical CBOR: the decoder and the encoder are inverse to each other, no encoding
    is a prefix of another, and encodings agree exactly on values that are the same up to the
    order of map entries at every depth. */
module CborLaws {
  import opened Bytes
  import opened Sorting
  import opened Cbor

  // ----- the key order

  lemma {:induction false} ShortLexOrder()
    ensures TotalOrder(ShortLexLe)
  {
    forall a, b ensures ShortLexLe(a, b) || ShortLexLe(b, a) { LexTotal(a, b); }
    forall a, b | ShortLexLe(a, b) && ShortLexLe(b, a) ensures a == b { LexAntisymmetric(a, b); }
    forall a, b, c | ShortLexLe(a, b) && ShortLexLe(b, c) ensures ShortLexLe(a, c) {
      if |a| == |b| == |c| { LexTransitive(a, b, c); }
    }
  }

  lemma {:induction false} EncodeTextInjective(a: ByteString, b: ByteString)
    requires EncodeText(a) == EncodeText(b)
    ensures a == b
  {
    if |a| == |b| {
      var h := Head(TEXT, |a|);
      assert a == EncodeText(a)[|h|..] && b == EncodeText(b)[|h|..];
    }
  }

  lemma {:induction false} DistinctSortKeys(es: seq<Entry>)
    requires DistinctBy(es, KeyOf)
    ensures DistinctBy(es, SortKey)
  {
    forall i, j | 0 <= i < j < |es| ensures SortKey(es[i]) != SortKey(es[j]) {
      assert KeyOf(es[i]) != KeyOf(es[j]);
      if SortKey(es[i]) == SortKey(es[j]) { EncodeTextInjective(es[i].key, es[j].key); }
    }
  }

  lemma {:induction false} SortedIsIncreasing(es: seq<Entry>)
    requires SortedBy(es, SortKey, ShortLexLe) && DistinctBy(es, KeyOf)
    ensures StrictlyIncreasing(es)
  {
    forall i | 0 <= i < |es| - 1
      ensures ShortLexLe(SortKey(es[i]), SortKey(es[i + 1])) && es[i].key != es[i + 1].key
    {
      assert KeyOf(es[i]) != KeyOf(es[i + 1]);
    }
  }

  lemma {:induction false} IncreasingIsSorted(es: seq<Entry>)
    requires StrictlyIncreasing(es)
    ensures SortedBy(es, SortKey, ShortLexLe) && DistinctBy(es, KeyOf)
  {
    forall i, j | 0 <= i < j < |es|
      ensures ShortLexLe(SortKey(es[i]), SortKey(es[j])) && KeyOf(es[i]) != KeyOf(es[j])
    {
      IncreasingAt(es, i, j);
    }
  }

  lemma {:induction false} IncreasingAt(es: seq<Entry>, i: nat, j: nat)
    requires StrictlyIncreasing(es) && i < j < |es|
    ensures ShortLexLe(SortKey(es[i]), SortKey(es[j])) && es[i].key != es[j].key
    decreases j
  {
    var p := es[j - 1];
    assert ShortLexLe(SortKey(p), SortKey(es[j])) && p.key != es[j].key;
    if i < j - 1 {
      IncreasingAt(es, i, j - 1);
      ShortLexOrder();
      if es[i].key == es[j].key {
        EncodeTextInjective(es[i].key, p.key);
        assert false;
      }
    }
  }

  // ----- sorting at every depth gives a canonical value

  lemma {:induction false} CanonIsCanonical(v: Value)
    requires Valid(v)
    ensures Canonical(Canon(v))
    decreases v, 1
  {
    match v
    case Array(items) => CanonItemsAreCanonical(items);
    case Map(es) =>
      CanonEntriesAreCanonical(es);
      CanonEntriesAt(es);
      var ces := CanonEntries(es);
      CanonKeysDistinct(es);
      ShortLexOrder();
      SortSorts(ces, SortKey, ShortLexLe);
      var r := SortEntries(ces);
      PermutationDistinct(ces, r, KeyOf);
      SortedIsIncreasing(r);
      SameElements(ces, r);
      CanonicalEntriesAt(ces);
      CanonicalFromElements(r);
    case _ =>
  }

  lemma {:induction false} CanonItemsAreCanonical(items: seq<Value>)
    requires ValidItems(items)
    ensures CanonicalItems(CanonItems(items))
    decreases items, 0
  {
    if items == [] {
    } else {
      CanonIsCanonical(items[0]);
      CanonItemsAreCanonical(items[1..]);
    }
  }

  lemma {:induction false} CanonEntriesAreCanonical(es: seq<Entry>)
    requires ValidEntries(es)
    ensures CanonicalEntries(CanonEntries(es))
    decreases es, 0
  {
    if es == [] {
    } else {
      CanonIsCanonical(es[0].val);
      CanonEntriesAreCanonical(es[1..]);
    }
  }

  lemma {:induction false} CanonEntriesAt(es: seq<Entry>)
    ensures forall i :: 0 <= i < |es| ==> CanonEntries(es)[i] == Entry(es[i].key, Canon(es[i].val))
  {
    if es == [] {
    } else {
      CanonEntriesAt(es[1..]);
      forall i | 0 <= i < |es| ensures CanonEntries(es)[i] == Entry(es[i].key, Canon(es[i].val)) {
        if i > 0 { assert es[i] == es[1..][i - 1]; }
      }
    }
  }

  lemma {:induction false} CanonItemsAt(items: seq<Value>)
    ensures forall i :: 0 <= i < |items| ==> CanonItems(items)[i] == Canon(items[i])
  {
    if items == [] {
    } else {
      CanonItemsAt(items[1..]);
      forall i | 0 <= i < |items| ensures CanonItems(items)[i] == Canon(items[i]) {
        if i > 0 { assert items[i] == items[1..][i - 1]; }
      }
    }
  }

  lemma {:induction false} CanonicalEntriesAt(es: seq<Entry>)
    requires CanonicalEntries(es)
    ensures forall e :: e in es ==> |e.key| < TWO64 && Canonical(e.val)
  {
    if es == [] {
    } else {
      CanonicalEntriesAt(es[1..]);
      forall e | e in es ensures |e.key| < TWO64 && Canonical(e.val) {
        if e != es[0] { assert e in es[1..]; }
      }
    }
  }

  lemma {:induction false} CanonicalFromElements(es: seq<Entry>)
    requires forall e :: e in es ==> |e.key| < TWO64 && Canonical(e.val)
    ensures CanonicalEntries(es)
  {
    if es == [] {
    } else {
      assert es[0] in es;
      forall e | e in es[1..] ensures e in es {}
      CanonicalFromElements(es[1..]);
    }
  }

  /** A canonical value is valid, and sorting it changes nothing. */
  lemma {:induction false} CanonOfCanonical(c: Value)
    requires Canonical(c)
    ensures Valid(c) && Canon(c) == c
    decreases c, 1
  {
    match c
    case Array(items) => CanonOfCanonicalItems(items);
    case Map(es) =>
      CanonOfCanonicalEntries(es);
      IncreasingIsSorted(es);
      DistinctSortKeys(es);
      ShortLexOrder();
      SortOfSorted(es, SortKey, ShortLexLe);
    case _ =>
  }

  lemma {:induction false} CanonOfCanonicalItems(items: seq<Value>)
    requires CanonicalItems(items)
    ensures ValidItems(items) && CanonItems(items) == items
    decreases items, 0
  {
    if items == [] {
    } else {
      CanonOfCanonical(items[0]);
      CanonOfCanonicalItems(items[1..]);
    }
  }

  lemma {:induction false} CanonOfCanonicalEntries(es: seq<Entry>)
    requires CanonicalEntries(es)
    ensures ValidEntries(es) && CanonEntries(es) == es
    decreases es, 0
  {
    if es == [] {
    } else {
      CanonOfCanonical(es[0].val);
      CanonOfCanonicalEntries(es[1..]);
    }
  }

  // ----- decoding what was encoded

  lemma {:induction false} DecodeAfterHead(major: nat, n: nat, body: ByteString, bs: ByteString)
    requires major < 8 && n < TWO64 && bs == Head(major, n) + body
    ensures Decode(bs) == DecodeBody(HeadRead(major, n, body))
  {
    ReadWrittenHead(major, n, body);
  }

  lemma {:induction false} DecodeSimple(c: Value, n: nat, rest: ByteString)
    requires (c, n) == (Bool(false), 20) || (c, n) == (Bool(true), 21) || (c, n) == (Null, 22)
    ensures Decode(EncodeRaw(c) + rest) == Some(ItemRead(c, rest))
  {
    assert EncodeRaw(c) == Head(SIMPLE, n);
    DecodeAfterHead(SIMPLE, n, rest, EncodeRaw(c) + rest);
  }

  lemma {:induction false} DecodeString(major: nat, b: ByteString, rest: ByteString)
    requires |b| < TWO64 && (major == BIN || major == TEXT)
    ensures Decode(Head(major, |b|) + b + rest) ==
      Some(ItemRead(if major == BIN then Bin(b) else Text(b), rest))
  {
    assert Head(major, |b|) + b + rest == Head(major, |b|) + (b + rest);
    DecodeAfterHead(major, |b|, b + rest, Head(major, |b|) + b + rest);
    assert (b + rest)[..|b|] == b && (b + rest)[|b|..] == rest;
  }

  lemma {:induction false} DecodeArray(items: seq<Value>, enc: ByteString, rest: ByteString)
    requires |items| < TWO64
    requires DecodeItems(enc + rest, |items|) == Some(ItemsRead(items, rest))
    ensures Decode(Head(ARRAY, |items|) + enc + rest) == Some(ItemRead(Array(items), rest))
  {
    Assoc(Head(ARRAY, |items|), enc, rest);
    DecodeAfterHead(ARRAY, |items|, enc + rest, Head(ARRAY, |items|) + enc + rest);
  }

  lemma {:induction false} DecodeMap(es: seq<Entry>, enc: ByteString, rest: ByteString)
    requires |es| < TWO64 && StrictlyIncreasing(es)
    requires DecodeEntries(enc + rest, |es|) == Some(EntriesRead(es, rest))
    ensures Decode(Head(MAP, |es|) + enc + rest) == Some(ItemRead(Map(es), rest))
  {
    Assoc(Head(MAP, |es|), enc, rest);
    DecodeAfterHead(MAP, |es|, enc + rest, Head(MAP, |es|) + enc + rest);
  }

  lemma {:induction false} DecodeEncoded(c: Value, rest: ByteString)
    requires Canonical(c)
    ensures Decode(EncodeRaw(c) + rest) == Some(ItemRead(c, rest))
    decreases c, 1
  {
    match c
    case Null => DecodeSimple(c, 22, rest);
    case Bool(b) => DecodeSimple(c, if b then 21 else 20, rest);
    case UInt(n) => DecodeAfterHead(UINT, n, rest, EncodeRaw(c) + rest);
    case Bin(b) => DecodeString(BIN, b, rest);
    case Text(b) => DecodeString(TEXT, b, rest);
    case Array(items) =>
      DecodeEncodedItems(items, rest);
      DecodeArray(items, EncodeItems(items), rest);
    case Map(es) =>
      DecodeEncodedEntries(es, rest);
      DecodeMap(es, EncodeEntries(es), rest);
  }

  lemma {:induction false} DecodeEncodedItems(items: seq<Value>, rest: ByteString)
    requires CanonicalItems(items)
    ensures DecodeItems(EncodeItems(items) + rest, |items|) == Some(ItemsRead(items, rest))
    decreases items, 0
  {
    if items == [] {
      assert EncodeItems(items) + rest == rest;
    } else {
      var tail := EncodeItems(items[1..]) + rest;
      assert EncodeItems(items) + rest == EncodeRaw(items[0]) + tail;
      DecodeEncoded(items[0], tail);
      DecodeEncodedItems(items[1..], rest);
      assert items == [items[0]] + items[1..];
    }
  }

  lemma {:induction false} EncodedEntriesSplit(es: seq<Entry>, rest: ByteString)
    requires es != []
    ensures EncodeEntries(es) + rest ==
      EncodeText(es[0].key) + (EncodeRaw(es[0].val) + (EncodeEntries(es[1..]) + rest))
  {
  }

  lemma {:induction false} DecodeEncodedEntries(es: seq<Entry>, rest: ByteString)
    requires CanonicalEntries(es)
    ensures DecodeEntries(EncodeEntries(es) + rest, |es|) == Some(EntriesRead(es, rest))
    decreases es, 0
  {
    if es == [] {
      assert EncodeEntries(es) + rest == rest;
    } else {
      var tail := EncodeEntries(es[1..]) + rest;
      var mid := EncodeRaw(es[0].val) + tail;
      EncodedEntriesSplit(es, rest);
      DecodeString(TEXT, es[0].key, mid);
      DecodeEncoded(es[0].val, tail);
      DecodeEncodedEntries(es[1..], rest);
      assert es == [Entry(es[0].key, es[0].val)] + es[1..];
    }
  }

  // ----- encoding what was decoded

  lemma {:induction false} EncodeDecoded(bs: ByteString)
    requires Decode(bs).Some?
    ensures var r := Decode(bs).value; Canonical(r.v) && bs == EncodeRaw(r.v) + r.rest
    decreases |bs|, 0, 0
  {
    WriteReadHead(bs);
    EncodeDecodedBody(ReadHead(bs).value);
  }

  lemma {:induction false} EncodeDecodedBody(h: HeadRead)
    requires h.n < TWO64 && h.major < 8 && DecodeBody(h).Some?
    ensures var r := DecodeBody(h).value;
      Canonical(r.v) && Head(h.major, h.n) + h.rest == EncodeRaw(r.v) + r.rest
    decreases |h.rest|, 2, 0
  {
    var r := DecodeBody(h).value;
    var head := Head(h.major, h.n);
    if h.major == BIN || h.major == TEXT {
      assert h.rest == h.rest[..h.n] + r.rest;
      assert head + h.rest == head + h.rest[..h.n] + r.rest;
    } else if h.major == ARRAY {
      EncodeDecodedItems(h.rest, h.n);
      assert head + (EncodeItems(r.v.items) + r.rest) == EncodeRaw(r.v) + r.rest;
    } else if h.major == MAP {
      EncodeDecodedEntries(h.rest, h.n);
      assert head + (EncodeEntries(r.v.entries) + r.rest) == EncodeRaw(r.v) + r.rest;
    } else if h.major == SIMPLE {
      assert head == EncodeRaw(r.v);
    }
  }

  lemma {:induction false} EncodeItemsCons(v: Value, items: seq<Value>)
    ensures EncodeItems([v] + items) == EncodeRaw(v) + EncodeItems(items)
    ensures Canonical(v) && CanonicalItems(items) ==> CanonicalItems([v] + items)
  {
    assert ([v] + items)[1..] == items;
  }

  lemma {:induction false} EncodeEntriesCons(key: ByteString, v: Value, es: seq<Entry>)
    ensures EncodeEntries([Entry(key, v)] + es) == EncodeText(key) + EncodeRaw(v) + EncodeEntries(es)
    ensures |key| < TWO64 && Canonical(v) && CanonicalEntries(es) ==> CanonicalEntries([Entry(key, v)] + es)
  {
    assert ([Entry(key, v)] + es)[1..] == es;
  }

  lemma {:induction false} EncodeDecodedItems(bs: ByteString, count: nat)
    requires DecodeItems(bs, count).Some?
    ensures var r := DecodeItems(bs, count).value;
      CanonicalItems(r.items) && bs == EncodeItems(r.items) + r.rest
    decreases |bs|, 1, count
  {
    if count > 0 {
      EncodeDecoded(bs);
      var ItemRead(v, rest) := Decode(bs).value;
      EncodeDecodedItems(rest, count - 1);
      var more := DecodeItems(rest, count - 1).value;
      EncodeItemsCons(v, more.items);
      Assoc(EncodeRaw(v), EncodeItems(more.items), more.rest);
    } else {
      assert [] + bs == bs;
    }
  }

  lemma {:induction false} EncodeDecodedEntries(bs: ByteString, count: nat)
    requires DecodeEntries(bs, count).Some?
    ensures var r := DecodeEntries(bs, count).value;
      CanonicalEntries(r.entries) && bs == EncodeEntries(r.entries) + r.rest
    decreases |bs|, 1, count
  {
    if count > 0 {
      EncodeDecoded(bs);
      var ItemRead(k, afterKey) := Decode(bs).value;
      EncodeDecoded(afterKey);
      var ItemRead(v, rest) := Decode(afterKey).value;
      EncodeDecodedEntries(rest, count - 1);
      var more := DecodeEntries(rest, count - 1).value;
      EncodeEntriesCons(k.utf8, v, more.entries);
      Assoc(EncodeRaw(v), EncodeEntries(more.entries), more.rest);
      Assoc(EncodeText(k.utf8), EncodeRaw(v), EncodeEntries(more.entries));
      Assoc(EncodeText(k.utf8), EncodeRaw(v) + EncodeEntries(more.entries), more.rest);
    } else {
      assert [] + bs == bs;
    }
  }

  // ----- the same value, up to the order of entries

  ghost predicate Same(v: Value, w: Value)
    decreases v, 1
  {
    match (v, w)
    case (Array(a), Array(b)) => |a| == |b| && forall i :: 0 <= i < |a| ==> Same(a[i], b[i])
    case (Map(a), Map(b)) => |a| == |b| && forall i :: 0 <= i < |a| ==> SameIn(a[i], b)
    case _ => v == w
  }

  /** Some entry of `es` has the key of `e` and the same value. */
  ghost predicate SameIn(e: Entry, es: seq<Entry>)
    decreases e, 0
  {
    exists j :: 0 <= j < |es| && es[j].key == e.key && Same(e.val, es[j].val)
  }

  lemma {:induction false} SameIffCanon(v: Value, w: Value)
    requires Valid(v) && Valid(w)
    ensures Same(v, w) <==> Canon(v) == Canon(w)
    decreases v
  {
    match (v, w)
    case (Array(a), Array(b)) =>
      CanonItemsAt(a);
      CanonItemsAt(b);
      ValidItemsAt(a);
      ValidItemsAt(b);
      if |a| == |b| {
        forall i | 0 <= i < |a| ensures Same(a[i], b[i]) <==> Canon(a[i]) == Canon(b[i]) {
          SameIffCanon(a[i], b[i]);
        }
        if CanonItems(a) == CanonItems(b) {
          forall i | 0 <= i < |a| ensures Same(a[i], b[i]) {
            assert CanonItems(a)[i] == CanonItems(b)[i];
          }
        }
      }
    case (Map(a), Map(b)) =>
      ValidEntriesAt(a);
      ValidEntriesAt(b);
      if |a| == |b| {
        forall i, j | 0 <= i < |a| && 0 <= j < |b|
          ensures Same(a[i].val, b[j].val) <==> Canon(a[i].val) == Canon(b[j].val)
        {
          SameIffCanon(a[i].val, b[j].val);
        }
        SameMapIffCanon(a, b);
      } else {
        assert |SortEntries(CanonEntries(a))| != |SortEntries(CanonEntries(b))|;
      }
    case _ =>
  }

  lemma {:induction false} SameMapIffCanon(a: seq<Entry>, b: seq<Entry>)
    requires |a| == |b| && DistinctBy(a, KeyOf) && DistinctBy(b, KeyOf)
    requires forall i, j :: 0 <= i < |a| && 0 <= j < |b| ==>
      (Same(a[i].val, b[j].val) <==> Canon(a[i].val) == Canon(b[j].val))
    ensures (forall i :: 0 <= i < |a| ==> SameIn(a[i], b)) <==>
      SortEntries(CanonEntries(a)) == SortEntries(CanonEntries(b))
  {
    var ca, cb := CanonEntries(a), CanonEntries(b);
    SameInIffCanonIn(a, b);
    if forall x :: x in ca ==> x in cb {
      CanonKeysDistinct(a);
      CanonKeysDistinct(b);
      ContainedIsPermutation(ca, cb);
      DistinctSortKeys(ca);
      ShortLexOrder();
      SortOfPermutation(ca, cb, SortKey, ShortLexLe);
    }
    if SortEntries(ca) == SortEntries(cb) {
      SameElements(ca, SortEntries(ca));
      SameElements(cb, SortEntries(cb));
    }
  }

  lemma {:induction false} SameInIffCanonIn(a: seq<Entry>, b: seq<Entry>)
    requires forall i, j :: 0 <= i < |a| && 0 <= j < |b| ==>
      (Same(a[i].val, b[j].val) <==> Canon(a[i].val) == Canon(b[j].val))
    ensures (forall i :: 0 <= i < |a| ==> SameIn(a[i], b)) <==>
      (forall x :: x in CanonEntries(a) ==> x in CanonEntries(b))
  {
    var ca, cb := CanonEntries(a), CanonEntries(b);
    CanonEntriesAt(a);
    forall i | 0 <= i < |a| ensures SameIn(a[i], b) <==> ca[i] in cb {
      SameInIffMember(a[i], b);
    }
    if forall x :: x in ca ==> x in cb {
      forall i | 0 <= i < |a| ensures SameIn(a[i], b) { assert ca[i] in ca; }
    }
  }

  lemma {:induction false} SameInIffMember(e: Entry, es: seq<Entry>)
    requires forall j :: 0 <= j < |es| ==> (Same(e.val, es[j].val) <==> Canon(e.val) == Canon(es[j].val))
    ensures SameIn(e, es) <==> Entry(e.key, Canon(e.val)) in CanonEntries(es)
  {
    CanonEntriesAt(es);
    var ces := CanonEntries(es);
    var ce := Entry(e.key, Canon(e.val));
    if SameIn(e, es) {
      var j :| 0 <= j < |es| && es[j].key == e.key && Same(e.val, es[j].val);
      assert ces[j] == ce;
    }
    if ce in ces {
      var j :| 0 <= j < |ces| && ces[j] == ce;
      assert ces[j] == Entry(es[j].key, Canon(es[j].val));
      assert Same(e.val, es[j].val);
    }
  }

  lemma {:induction false} CanonKeysDistinct(es: seq<Entry>)
    requires DistinctBy(es, KeyOf)
    ensures DistinctBy(CanonEntries(es), KeyOf)
    ensures var ces := CanonEntries(es); forall i, j :: 0 <= i < j < |ces| ==> ces[i] != ces[j]
  {
    CanonEntriesAt(es);
    var ces := CanonEntries(es);
    forall i, j | 0 <= i < j < |ces| ensures KeyOf(ces[i]) != KeyOf(ces[j]) {
      assert KeyOf(es[i]) != KeyOf(es[j]);
    }
    forall i, j | 0 <= i < j < |ces| ensures ces[i] != ces[j] {
      assert KeyOf(ces[i]) != KeyOf(ces[j]);
    }
  }

  lemma {:induction false} ValidItemsAt(items: seq<Value>)
    requires ValidItems(items)
    ensures forall i :: 0 <= i < |items| ==> Valid(items[i])
  {
    if items == [] {
    } else {
      ValidItemsAt(items[1..]);
      forall i | 0 <= i < |items| ensures Valid(items[i]) {
        if i > 0 { assert items[i] == items[1..][i - 1]; }
      }
    }
  }

  lemma {:induction false} ValidEntriesAt(es: seq<Entry>)
    requires ValidEntries(es)
    ensures forall i :: 0 <= i < |es| ==> |es[i].key| < TWO64 && Valid(es[i].val)
  {
    if es == [] {
    } else {
      ValidEntriesAt(es[1..]);
      forall i | 0 <= i < |es| ensures |es[i].key| < TWO64 && Valid(es[i].val) {
        if i > 0 { assert es[i] == es[1..][i - 1]; }
      }
    }
  }

  // ----- main theorems

  /** Unique decoding: whatever follows an encoding, the decoder stops after it and returns the
      value with its maps in key order. */
  lemma {:induction false} UniqueDecoding(v: Value, rest: ByteString)
    requires Valid(v)
    ensures Decode(Encode(v) + rest) == Some(ItemRead(Canon(v), rest))
    ensures Canonical(Canon(v))
  {
    CanonIsCanonical(v);
    DecodeEncoded(Canon(v), rest);
  }

  /** Canonical form: the strict decoder accepts exactly the strings that begin with an encoding. */
  lemma {:induction false} DecodesExactlyEncodings(bs: ByteString)
    ensures Decode(bs).Some? <==> exists v, rest :: Valid(v) && bs == Encode(v) + rest
  {
    if Decode(bs).Some? {
      EncodeDecoded(bs);
      var ItemRead(v, rest) := Decode(bs).value;
      CanonOfCanonical(v);
      assert Valid(v) && bs == Encode(v) + rest;
    }
    if v, rest :| Valid(v) && bs == Encode(v) + rest { UniqueDecoding(v, rest); }
  }

  /** No encoding is a prefix of another value's, and encodings that agree come from values
      that are the same up to the order of map entries. */
  lemma {:induction false} PrefixFree(v: Value, w: Value, restV: ByteString, restW: ByteString)
    requires Valid(v) && Valid(w) && Encode(v) + restV == Encode(w) + restW
    ensures Same(v, w) && restV == restW
  {
    UniqueDecoding(v, restV);
    UniqueDecoding(w, restW);
    SameIffCanon(v, w);
  }

  /** Two values have one encoding if and only if they differ only in the order in which the
      entries of their maps, at any depth, were inserted. */
  lemma {:induction false} EncodeIffSame(v: Value, w: Value)
    requires Valid(v) && Valid(w)
    ensures Encode(v) == Encode(w) <==> Same(v, w)
  {
    SameIffCanon(v, w);
    if Encode(v) == Encode(w) {
      assert Encode(v) + [] == Encode(w) + [];
      PrefixFree(v, w, [], []);
    }
  }

  /** The encoders write a number so that it is read back if and only if it fits 64 bits. */
  lemma {:induction false} NumberReadBackIff(n: nat)
    ensures Decode(Encode(UInt(n))) == Some(ItemRead(UInt(n), [])) <==> n < TWO64
  {
    if n < TWO64 {
      UniqueDecoding(UInt(n), []);
      assert Encode(UInt(n)) + [] == Encode(UInt(n));
    } else if Decode(Encode(UInt(n))) == Some(ItemRead(UInt(n), [])) {
      EncodeDecoded(Encode(UInt(n)));
    }
  }
}
