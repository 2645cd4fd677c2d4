/** What `decodeBundle` accepts, told by the names of the properties: the same for the page and the service
    worker. */
module JsReading {
  import opened Bytes
  import opened JsCbor
  import opened JsBundle
  import Cbor
  import Sorting

  /** Reading a property of it throws. */
  predicate Nullish(v: JsValue) { v == JUndefined || v == JNull }

  /** `v.name`, where that does not throw. */
  function Field(v: JsValue, name: string): JsValue {
    if v.JObject? then FindProp(v.props, Ascii(name)) else JUndefined
  }

  /** `(v || []).map` exists. */
  predicate Mappable(v: JsValue) {
    v.JArray? || Nullish(v) || v in {JBool(false), JNumber(0.0), JNaN, JString([])}
  }

  function ItemsOf(v: JsValue): seq<JsValue> { if v.JArray? then v.items else [] }

  ghost predicate Objects(items: seq<JsValue>) {
    forall i :: 0 <= i < |items| ==> !Nullish(items[i])
  }

  /** An entry can be read if it and its proof can, and the siblings there are a list of such values, or
      missing. */
  ghost predicate ReadableEntry(e: JsValue) {
    && !Nullish(e) && !Nullish(Field(e, "proof"))
    && Mappable(Field(Field(e, "proof"), "siblings")) && Objects(ItemsOf(Field(Field(e, "proof"), "siblings")))
  }

  ghost predicate Readable(m: JsValue) {
    && Field(m, "fmt_ver") == JNumber(1.0)
    && Mappable(Field(m, "identities")) && Mappable(Field(m, "signatures")) && Objects(ItemsOf(Field(m, "signatures")))
    && AllReadable(ItemsOf(Field(m, "identities")))
  }

  ghost predicate AllReadable(items: seq<JsValue>) {
    forall i :: 0 <= i < |items| ==> ReadableEntry(items[i])
  }

  lemma {:induction false} AllReadableNext(items: seq<JsValue>)
    requires items != []
    ensures AllReadable(items) <==> ReadableEntry(items[0]) && AllReadable(items[1..])
  {
    if AllReadable(items[1..]) && ReadableEntry(items[0]) {
      forall i | 0 <= i < |items| ensures ReadableEntry(items[i]) { if i > 0 { assert items[i] == items[1..][i - 1]; } }
    }
  }

  lemma {:induction false} MemberIsField(v: JsValue, name: string)
    ensures Member(v, name) == if Nullish(v) then Threw else Ok(Field(v, name))
  {
  }

  lemma {:induction false} MapsOver(v: JsValue)
    ensures Elements(Or(v, JArray([]))) == if Mappable(v) then Ok(ItemsOf(v)) else Threw
  {
  }

  lemma {:induction false} SiblingsDecode(items: seq<JsValue>, page: bool)
    ensures DecodeSiblings(items, page).Ok? <==> Objects(items)
  {
    if items == [] {
    } else {
      MemberIsField(items[0], "h");
      MemberIsField(items[0], "s");
      SiblingsDecode(items[1..], page);
      assert items == [items[0]] + items[1..];
    }
  }

  lemma {:induction false} SignaturesDecode(items: seq<JsValue>, page: bool)
    ensures DecodeSignatures(items, page).Ok? <==> Objects(items)
  {
    if items == [] {
    } else {
      MemberIsField(items[0], "val_did");
      MemberIsField(items[0], "val_pk");
      MemberIsField(items[0], "sig");
      SignaturesDecode(items[1..], page);
      assert items == [items[0]] + items[1..];
    }
  }

  lemma {:induction false} ProofDecodes(p: JsValue, page: bool)
    ensures DecodeProof(p, page).Ok? <==>
      !Nullish(p) && Mappable(Field(p, "siblings")) && Objects(ItemsOf(Field(p, "siblings")))
  {
    MemberIsField(p, "leaf");
    MemberIsField(p, "siblings");
    MemberIsField(p, "root");
    MapsOver(Field(p, "siblings"));
    SiblingsDecode(ItemsOf(Field(p, "siblings")), page);
  }

  lemma {:induction false} RecordDecodesIff(e: JsValue, page: bool)
    ensures DecodeRecord(e, page).Ok? <==> !Nullish(e)
  {
    MemberIsField(e, "did");
    MemberIsField(e, "pubkey");
    MemberIsField(e, "issued_at");
    MemberIsField(e, "issued_by");
    MemberIsField(e, "valid_until");
    MemberIsField(e, "revoked_at");
    MemberIsField(e, "meta");
  }

  lemma {:induction false} EntryDecodes(e: JsValue, page: bool)
    ensures DecodeEntry(e, page).Ok? <==> ReadableEntry(e)
  {
    RecordDecodesIff(e, page);
    MemberIsField(e, "proof");
    ProofDecodes(Field(e, "proof"), page);
  }

  lemma {:induction false} EntriesDecode(items: seq<JsValue>, page: bool)
    ensures DecodeEntries(items, page).Ok? <==> AllReadable(items)
  {
    if items == [] {
    } else {
      EntryDecodes(items[0], page);
      EntriesDecode(items[1..], page);
      AllReadableNext(items);
    }
  }

  lemma {:induction false} HeaderDecodes(m: JsValue, ids: seq<JsEntry>, sigs: seq<JsSignature>, page: bool)
    ensures DecodeHeader(m, ids, sigs, page).Ok? <==> !Nullish(m)
  {
    MemberIsField(m, "fmt_ver");
    MemberIsField(m, "snap_block");
    MemberIsField(m, "snap_root");
    MemberIsField(m, "issued_at");
    MemberIsField(m, "expires_at");
    MemberIsField(m, "threshold");
    MemberIsField(m, "val_set");
  }

  /** A document is decoded exactly if it is readable; any other throws, whatever its version. */
  lemma {:induction false} DecodesIff(m: JsValue, page: bool)
    ensures DecodeBundle(m, page).Ok? <==> Readable(m)
  {
    MemberIsField(m, "fmt_ver");
    if Field(m, "fmt_ver") == JNumber(1.0) {
      var ids, sigs := ItemsOf(Field(m, "identities")), ItemsOf(Field(m, "signatures"));
      MemberIsField(m, "identities");
      MemberIsField(m, "signatures");
      MapsOver(Field(m, "identities"));
      MapsOver(Field(m, "signatures"));
      EntriesDecode(ids, page);
      SignaturesDecode(sigs, page);
      if DecodeEntries(ids, page).Ok? && DecodeSignatures(sigs, page).Ok? {
        HeaderDecodes(m, DecodeEntries(ids, page).value, DecodeSignatures(sigs, page).value, page);
      }
    }
  }

  // ----- numbers

  /** The encoder takes whole numbers from zero on, and no others. */
  lemma {:induction false} NumbersEncode(r: real)
    ensures forall n: nat :: r == n as real ==> ToCbor(JNumber(r)) == Cbor.Some(Cbor.UInt(n))
    ensures ToCbor(JNumber(r)).Some? ==> r >= 0.0 && r == r.Floor as real
    ensures ToCbor(JNaN).None? && ToCbor(JInfinity(true)).None? && ToCbor(JInfinity(false)).None? && ToCbor(JOther).None?
  {
  }

  /** When an expiry has come, by what it is: null is taken for zero, and what is undefined never comes. */
  lemma {:induction false} ExpiryTable(f: Platform, b: JsBundle, now: int)
    ensures forall r :: b.expiresAt == JNumber(r) ==> (IsExpired(f, b, now) <==> r <= now as real)
    ensures b.expiresAt == JNull ==> (IsExpired(f, b, now) <==> 0 <= now)
    ensures b.expiresAt in {JUndefined, JNaN, JInfinity(true)} ==> !IsExpired(f, b, now)
    ensures b.expiresAt == JInfinity(false) ==> IsExpired(f, b, now)
    ensures b.expiresAt == JBool(false) ==> (IsExpired(f, b, now) <==> 0 <= now)
    ensures b.expiresAt == JBool(true) ==> (IsExpired(f, b, now) <==> 1 <= now)
  {
  }

  // ----- bytes

  function NumberOf(b: Byte): JsValue { JNumber(b as real) }

  /** A list of bytes, and on the page a buffer, becomes the array of these bytes. */
  lemma {:induction false} BytesFromList(bs: ByteString, page: bool)
    ensures ToUint8(JArray(Sorting.MapSeq(NumberOf, bs)), page) == JUint8Array(bs)
    ensures ToUint8(JUint8Array(bs), page) == JUint8Array(bs) && ToUint8(JArrayBuffer(bs), true) == JUint8Array(bs)
    ensures ToUint8(JArrayBuffer(bs), false) == JArrayBuffer(bs)
  {
    var items := Sorting.MapSeq(NumberOf, bs);
    forall i | 0 <= i < |bs| ensures ToByte(items[i]) == bs[i] { NumberIsByte(bs[i]); }
  }

  lemma {:induction false} NumberIsByte(b: Byte)
    ensures ToByte(NumberOf(b)) == b
  {
    assert (b as real).Floor == b;
  }
}
