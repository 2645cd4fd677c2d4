/** The browser and Python agree on every generated bundle: the browser rebuilds the exact bytes
    that were signed, so it counts every signature; and the service worker's copy of the code
    rebuilds what the page's copy does. */
module JsAgreement {
  import opened Bytes
  import opened Sorting
  import opened Cbor
  import opened CborLaws
  import opened Fields
  import opened Models
  import opened PyValues
  import opened Bundle
  import opened VerifyComplete
  import VerifySound
  import Verify
  import Js = JsBundle
  import opened JsCbor

  // ----- the values that cbor-x makes of CBOR

  /** What `decode` returns for a value whose numbers are all below 2^53. */
  function FromCbor(v: Value): JsValue
    decreases v, 1
  {
    match v
    case Null => JNull
    case Bool(b) => JBool(b)
    case UInt(n) => JNumber(n as real)
    case Bin(bs) => JUint8Array(bs)
    case Text(bs) => JString(bs)
    case Array(items) => JArray(FromItems(items))
    case Map(es) => JObject(FromEntries(es))
  }

  function FromItems(items: seq<Value>): (r: seq<JsValue>)
    ensures |r| == |items|
    decreases items, 0
  {
    if items == [] then [] else [FromCbor(items[0])] + FromItems(items[1..])
  }

  function FromEntries(es: seq<Entry>): (r: seq<Prop>)
    ensures |r| == |es|
    decreases es, 0
  {
    if es == [] then [] else [Prop(es[0].key, FromCbor(es[0].val))] + FromEntries(es[1..])
  }

  lemma {:induction false} FromItemsAt(items: seq<Value>, i: nat)
    requires i < |items|
    ensures FromItems(items)[i] == FromCbor(items[i])
  {
    if i == 0 {
    } else {
      FromItemsAt(items[1..], i - 1);
    }
  }

  lemma {:induction false} FromEntriesAt(es: seq<Entry>, i: nat)
    requires i < |es|
    ensures FromEntries(es)[i] == Prop(es[i].key, FromCbor(es[i].val))
  {
    if i == 0 {
    } else {
      FromEntriesAt(es[1..], i - 1);
    }
  }

  /** Encoding what was decoded gives back the value. */
  lemma {:induction false} ToFrom(v: Value)
    ensures ToCbor(FromCbor(v)) == Some(v)
    decreases v, 1
  {
    match v
    case Array(items) => ToFromItems(items);
    case Map(es) => ToFromEntries(es);
    case UInt(n) => assert (n as real).Floor == n;
    case _ =>
  }

  lemma {:induction false} ConsItems(x: JsValue, xs: seq<JsValue>, v: Value, vs: seq<Value>)
    requires ToCbor(x) == Some(v) && ToCborItems(xs) == Some(vs)
    ensures ToCborItems([x] + xs) == Some([v] + vs)
  {
    assert ([x] + xs)[1..] == xs;
  }

  lemma {:induction false} ToFromItems(items: seq<Value>)
    ensures ToCborItems(FromItems(items)) == Some(items)
    decreases items, 0
  {
    if items == [] {
    } else {
      ToFrom(items[0]);
      ToFromItems(items[1..]);
      ConsItems(FromCbor(items[0]), FromItems(items[1..]), items[0], items[1..]);
      assert FromItems(items) == [FromCbor(items[0])] + FromItems(items[1..]);
      assert items == [items[0]] + items[1..];
    }
  }

  lemma {:induction false} ToFromEntries(es: seq<Entry>)
    ensures ToCborProps(FromEntries(es)) == Some(es)
    decreases es, 0
  {
    if es == [] {
    } else {
      ToFrom(es[0].val);
      ToFromEntries(es[1..]);
      assert FromEntries(es)[1..] == FromEntries(es[1..]);
      assert es == [Entry(es[0].key, es[0].val)] + es[1..];
    }
  }

  lemma {:induction false} FindFromEntries(es: seq<Entry>, key: ByteString)
    ensures Js.FindProp(FromEntries(es), key) ==
      match Lookup(es, key) case Some(v) => FromCbor(v) case None => JUndefined
  {
    if es == [] {
    } else {
      FindFromEntries(es[1..], key);
      assert FromEntries(es)[1..] == FromEntries(es[1..]);
    }
  }

  /** A member read in JavaScript is the item read in Python. */
  lemma {:induction false} MemberIsItem(d: Value, name: string)
    requires Item(d, name).Ok?
    ensures Js.Member(FromCbor(d), name) == Js.Ok(FromCbor(Item(d, name).value))
  {
    FindFromEntries(d.entries, Ascii(name));
  }

  // ----- the browser's view of what Python read

  function JsSiblingOf(s: Sibling): Js.JsSibling { Js.JsSibling(JUint8Array(s.h), FromCbor(s.side)) }

  function JsProofOf(p: MerkleProof): Js.JsProof {
    Js.JsProof(JUint8Array(p.leafHash), MapSeq(JsSiblingOf, p.siblings), JUint8Array(p.root))
  }

  function JsRecordOf(r: Record): Js.JsRecord {
    Js.JsRecord(FromCbor(r.did), JUint8Array(r.publicKey), FromCbor(r.issuedAt), JArray(FromItems(r.issuedBy)),
      FromCbor(r.validUntil), FromCbor(r.revokedAt), JObject(FromEntries(r.metadata)))
  }

  function JsEntryOf(e: IdentityEntry): Js.JsEntry { Js.JsEntry(JsRecordOf(e.record), JsProofOf(e.proof)) }

  function JsSignatureOf(s: Signature): Js.JsSignature {
    Js.JsSignature(FromCbor(s.validatorDid), JUint8Array(s.publicKey), JUint8Array(s.signature))
  }

  function JsBundleOf(b: TrustBundle): Js.JsBundle {
    Js.JsBundle(FromCbor(b.formatVersion), FromCbor(b.snapshotBlock), JUint8Array(b.snapshotRoot),
      FromCbor(b.issuedAt), FromCbor(b.expiresAt), FromCbor(b.threshold), JArray(FromItems(b.validatorSet)),
      MapSeq(JsEntryOf, b.identities), MapSeq(JsSignatureOf, b.signatures), None)
  }

  // ----- the payload is the signing value

  lemma {:induction false} LiteralIsMap(names: seq<string>, vals: seq<Value>, jvals: seq<JsValue>)
    requires |names| == |vals| == |jvals|
    requires forall i :: 0 <= i < |vals| ==> jvals[i] == FromCbor(vals[i])
    ensures Js.Literal(names, jvals) == FromCbor(MapOf(names, vals))
  {
    var es := FieldEntries(names, vals);
    forall i | 0 <= i < |names| ensures FromEntries(es)[i] == Prop(Ascii(names[i]), jvals[i]) {
      FromEntriesAt(es, i);
    }
  }

  lemma {:induction false} SiblingPayloadIs(s: Sibling)
    ensures Js.SiblingPayload(JsSiblingOf(s)) == FromCbor(SiblingValue(s))
  {
    LiteralIsMap(SIBLING, SiblingFields(s), [JUint8Array(s.h), FromCbor(s.side)]);
  }

  lemma {:induction false} ProofPayloadIs(p: MerkleProof)
    ensures Js.ProofPayload(JsProofOf(p)) == FromCbor(ProofValue(p))
  {
    var js, vs := MapSeq(Js.SiblingPayload, MapSeq(JsSiblingOf, p.siblings)), MapSeq(SiblingValue, p.siblings);
    forall i | 0 <= i < |js| ensures js[i] == FromItems(vs)[i] {
      SiblingPayloadIs(p.siblings[i]);
      FromItemsAt(vs, i);
    }
    assert js == FromItems(vs);
    LiteralIsMap(PROOF, ProofFields(p), [JUint8Array(p.leafHash), JUint8Array(p.root), JArray(js)]);
  }

  lemma {:induction false} EntryPayloadIs(e: IdentityEntry)
    ensures Js.EntryPayload(JsEntryOf(e)) == FromCbor(IdentityValue(e))
  {
    ProofPayloadIs(e.proof);
    var r := JsRecordOf(e.record);
    LiteralIsMap(IDENTITY, IdentityFields(e), [r.did, r.issuedAt, r.issuedBy, r.metadata,
      Js.ProofPayload(JsProofOf(e.proof)), r.publicKey, r.revokedAt, r.validUntil]);
  }

  lemma {:induction false} EntryPayloadsAre(es: seq<IdentityEntry>)
    ensures MapSeq(Js.EntryPayload, MapSeq(JsEntryOf, es)) == FromItems(MapSeq(IdentityValue, es))
  {
    var js, vs := MapSeq(Js.EntryPayload, MapSeq(JsEntryOf, es)), MapSeq(IdentityValue, es);
    forall i | 0 <= i < |js| ensures js[i] == FromItems(vs)[i] {
      EntryPayloadIs(es[i]);
      FromItemsAt(vs, i);
    }
  }

  lemma {:induction false} PayloadIsMap(b: TrustBundle)
    ensures Js.Payload(JsBundleOf(b)) == FromCbor(SigningValue(b))
  {
    var j := JsBundleOf(b);
    EntryPayloadsAre(b.identities);
    HeaderIsMap(b, j, MapSeq(Js.EntryPayload, j.identities), MapSeq(IdentityValue, b.identities));
  }

  lemma {:induction false} HeaderIsMap(b: TrustBundle, j: Js.JsBundle, payloads: seq<JsValue>, values: seq<Value>)
    requires j == JsBundleOf(b) && payloads == FromItems(values) && values == MapSeq(IdentityValue, b.identities)
    ensures Js.PayloadWith(j, payloads) == FromCbor(SigningValue(b))
  {
    ListsAre(values);
    ListsAre(b.validatorSet);
    ListsAre([]);
    SameNames();
    LiteralIsMap(BUNDLE, BundleFields(b, []), [j.expiresAt, j.fmtVer, JArray(payloads), j.issuedAt, JArray([]),
      j.snapBlock, j.snapRoot, j.threshold, j.valSet]);
  }

  lemma {:induction false} ListsAre(values: seq<Value>)
    ensures FromCbor(Array(values)) == JArray(FromItems(values))
  {
  }

  /** The payload is written out with the names of the published document. */
  lemma {:induction false} SameNames()
    ensures Js.BUNDLE == BUNDLE
  {
  }

  /** `buildSigningPayload` on the browser's view of a bundle builds Python's signing value. */
  lemma {:induction false} PayloadIsSigningValue(b: TrustBundle)
    ensures ToCbor(Js.Payload(JsBundleOf(b))) == Some(SigningValue(b))
  {
    PayloadIsMap(b);
    ToFrom(SigningValue(b));
  }

  // ----- decoding a published document

  /** A field of a published document, as Python and as the browser read it. */
  lemma {:induction false} MemberReadBack(d: Value, names: seq<string>, vals: seq<Value>, i: nat) returns (x: Value)
    requires GoodNames(names) && |names| == |vals| && i < |names|
    requires Valid(d) && Valid(MapOf(names, vals)) && Same(d, MapOf(names, vals))
    ensures d.Map? && Item(d, names[i]) == Ok(x) && Same(x, vals[i]) && Valid(x)
    ensures forall default :: Get(d.entries, names[i], default) == x
    ensures Js.Member(FromCbor(d), names[i]) == Js.Ok(FromCbor(x))
  {
    FieldReadBack(d, names, vals, i);
    x := Item(d, names[i]).value;
    MemberIsItem(d, names[i]);
  }

  lemma {:induction false} SiblingAgrees(d: Value, s: Sibling, page: bool)
    requires Valid(d) && Valid(SiblingValue(s)) && Same(d, SiblingValue(s)) && s.side.Text?
    ensures Js.DecodeSibling(FromCbor(d), page) == Js.Ok(JsSiblingOf(s))
  {
    SiblingNames();
    var x0 := MemberReadBack(d, SIBLING, SiblingFields(s), 0);
    var x1 := MemberReadBack(d, SIBLING, SiblingFields(s), 1);
  }

  lemma {:induction false} SiblingsAgree(items: seq<Value>, siblings: seq<Sibling>, page: bool)
    requires |items| == |siblings|
    requires forall i :: 0 <= i < |items| ==> Valid(items[i]) && Valid(SiblingValue(siblings[i]))
    requires forall i :: 0 <= i < |items| ==> Same(items[i], SiblingValue(siblings[i])) && siblings[i].side.Text?
    ensures Js.DecodeSiblings(FromItems(items), page) == Js.Ok(MapSeq(JsSiblingOf, siblings))
  {
    if items == [] {
    } else {
      SiblingAgrees(items[0], siblings[0], page);
      SiblingsAgree(items[1..], siblings[1..], page);
      assert FromItems(items)[1..] == FromItems(items[1..]);
    }
  }

  lemma {:induction false} SiblingListAgrees(v: Value, p: MerkleProof, page: bool)
    requires Valid(v) && Valid(Array(MapSeq(SiblingValue, p.siblings)))
    requires Same(v, Array(MapSeq(SiblingValue, p.siblings))) && TextSides(p)
    ensures v.Array? && Js.DecodeSiblings(FromItems(v.items), page) == Js.Ok(MapSeq(JsSiblingOf, p.siblings))
  {
    ValidArrayIff(v.items);
    ValidArrayIff(MapSeq(SiblingValue, p.siblings));
    SiblingsAgree(v.items, p.siblings, page);
  }

  lemma {:induction false} ProofDecodes(
      v: JsValue, leaf: ByteString, items: seq<JsValue>, siblings: seq<Js.JsSibling>, root: ByteString, page: bool)
    requires Js.Member(v, "leaf") == Js.Ok(JUint8Array(leaf)) && Js.Member(v, "root") == Js.Ok(JUint8Array(root))
    requires Js.Member(v, "siblings") == Js.Ok(JArray(items)) && Js.DecodeSiblings(items, page) == Js.Ok(siblings)
    ensures Js.DecodeProof(v, page) == Js.Ok(Js.JsProof(JUint8Array(leaf), siblings, JUint8Array(root)))
  {
  }

  lemma {:induction false} ProofAgrees(d: Value, p: MerkleProof, page: bool)
    requires Valid(d) && Valid(ProofValue(p)) && Same(d, ProofValue(p)) && TextSides(p)
    ensures Js.DecodeProof(FromCbor(d), page) == Js.Ok(JsProofOf(p))
  {
    ProofNames();
    var vals := ProofFields(p);
    var x0 := MemberReadBack(d, PROOF, vals, 0);
    var x1 := MemberReadBack(d, PROOF, vals, 1);
    var x2 := MemberReadBack(d, PROOF, vals, 2);
    ValidMapIff(PROOF, vals);
    assert Valid(vals[2]);
    SiblingListAgrees(x2, p, page);
    ProofDecodes(FromCbor(d), p.leafHash, FromItems(x2.items), MapSeq(JsSiblingOf, p.siblings), p.root, page);
  }

  lemma {:induction false} RecordDecodes(v: JsValue, j: Js.JsRecord, pubkey: JsValue, page: bool)
    requires Js.Member(v, "did") == Js.Ok(j.did) && Js.Member(v, "pubkey") == Js.Ok(pubkey)
    requires Js.Member(v, "issued_at") == Js.Ok(j.issuedAt) && Js.Member(v, "issued_by") == Js.Ok(j.issuedBy)
    requires Js.Member(v, "valid_until") == Js.Ok(j.validUntil) && Js.Member(v, "revoked_at") == Js.Ok(j.revokedAt)
    requires Js.Member(v, "meta") == Js.Ok(j.metadata) && j.metadata.JObject?
    requires !j.validUntil.JUndefined? && !j.revokedAt.JUndefined? && j.publicKey == Js.ToUint8(pubkey, page)
    ensures Js.DecodeRecord(v, page) == Js.Ok(j)
  {
  }

  lemma {:induction false} RecordAgrees(d: Value, e: IdentityEntry, page: bool)
    requires Valid(d) && Valid(IdentityValue(e)) && Same(d, IdentityValue(e))
    ensures RecordFrom(d).Ok? && Js.DecodeRecord(FromCbor(d), page) == Js.Ok(JsRecordOf(RecordFrom(d).value))
  {
    IdentityNames();
    var vals := IdentityFields(e);
    var x0 := MemberReadBack(d, IDENTITY, vals, 0);
    var x1 := MemberReadBack(d, IDENTITY, vals, 1);
    var x2 := MemberReadBack(d, IDENTITY, vals, 2);
    var x3 := MemberReadBack(d, IDENTITY, vals, 3);
    var x5 := MemberReadBack(d, IDENTITY, vals, 5);
    var x6 := MemberReadBack(d, IDENTITY, vals, 6);
    var x7 := MemberReadBack(d, IDENTITY, vals, 7);
    RecordDecodes(FromCbor(d), JsRecordOf(RecordFrom(d).value), FromCbor(x5), page);
  }

  lemma {:induction false} EntryAgrees(d: Value, e: IdentityEntry, page: bool)
    requires Valid(d) && Valid(IdentityValue(e)) && Same(d, IdentityValue(e)) && TextSides(e.proof)
    ensures EntryFrom(d).Ok? && Js.DecodeEntry(FromCbor(d), page) == Js.Ok(JsEntryOf(EntryFrom(d).value))
  {
    RecordAgrees(d, e, page);
    EntryReadBack(d, e);
    IdentityNames();
    var x4 := MemberReadBack(d, IDENTITY, IdentityFields(e), 4);
    VerifySound.IdentityFieldsValid(e);
    ProofAgrees(x4, e.proof, page);
  }

  lemma {:induction false} EntriesAgree(items: seq<Value>, es: seq<IdentityEntry>, page: bool)
    requires |items| == |es|
    requires forall i :: 0 <= i < |items| ==> Valid(items[i]) && Valid(IdentityValue(es[i]))
    requires forall i :: 0 <= i < |items| ==> Same(items[i], IdentityValue(es[i])) && TextSides(es[i].proof)
    ensures EntriesFrom(items).Ok?
    ensures Js.DecodeEntries(FromItems(items), page) == Js.Ok(MapSeq(JsEntryOf, EntriesFrom(items).value))
  {
    if items == [] {
    } else {
      EntryAgrees(items[0], es[0], page);
      EntriesAgree(items[1..], es[1..], page);
      assert FromItems(items)[1..] == FromItems(items[1..]);
      var e, rest := EntryFrom(items[0]).value, EntriesFrom(items[1..]).value;
      assert ([e] + rest)[1..] == rest;
    }
  }

  lemma {:induction false} SignatureAgrees(d: Value, s: Signature, page: bool)
    requires Valid(d) && Valid(SignatureValue(s)) && Same(d, SignatureValue(s)) && s.validatorDid.Text?
    ensures Js.DecodeSignature(FromCbor(d), page) == Js.Ok(JsSignatureOf(s))
  {
    SignatureNames();
    var x0 := MemberReadBack(d, SIGNATURE, SignatureFields(s), 0);
    var x1 := MemberReadBack(d, SIGNATURE, SignatureFields(s), 1);
    var x2 := MemberReadBack(d, SIGNATURE, SignatureFields(s), 2);
  }

  lemma {:induction false} SignaturesAgree(items: seq<Value>, sigs: seq<Signature>, page: bool)
    requires |items| == |sigs|
    requires forall i :: 0 <= i < |items| ==> Valid(items[i]) && Valid(SignatureValue(sigs[i]))
    requires forall i :: 0 <= i < |items| ==> Same(items[i], SignatureValue(sigs[i])) && sigs[i].validatorDid.Text?
    ensures Js.DecodeSignatures(FromItems(items), page) == Js.Ok(MapSeq(JsSignatureOf, sigs))
  {
    if items == [] {
    } else {
      SignatureAgrees(items[0], sigs[0], page);
      SignaturesAgree(items[1..], sigs[1..], page);
      assert FromItems(items)[1..] == FromItems(items[1..]);
    }
  }

  lemma {:induction false} HeaderDecodes(v: JsValue, b: Js.JsBundle, root: JsValue, valSet: JsValue, page: bool)
    requires Js.Member(v, "fmt_ver") == Js.Ok(b.fmtVer) && Js.Member(v, "snap_block") == Js.Ok(b.snapBlock)
    requires Js.Member(v, "snap_root") == Js.Ok(root) && b.snapRoot == Js.ToUint8(root, page)
    requires Js.Member(v, "issued_at") == Js.Ok(b.issuedAt) && Js.Member(v, "expires_at") == Js.Ok(b.expiresAt)
    requires Js.Member(v, "threshold") == Js.Ok(b.threshold)
    requires Js.Member(v, "val_set") == Js.Ok(valSet) && b.valSet == Js.Or(valSet, JArray([])) && b.validSigCount.None?
    ensures Js.DecodeHeader(v, b.identities, b.signatures, page) == Js.Ok(b)
  {
  }

  /** The numbers of the header, as the browser reads them. */
  lemma {:induction false} NumbersAgree(m: Value, b: TrustBundle)
    requires Valid(m) && Valid(PublishedValue(b)) && Same(m, PublishedValue(b)) && PlainHeader(b)
    ensures var v := FromCbor(m);
      && Js.Member(v, "expires_at") == Js.Ok(FromCbor(b.expiresAt))
      && Js.Member(v, "fmt_ver") == Js.Ok(FromCbor(b.formatVersion))
      && Js.Member(v, "issued_at") == Js.Ok(FromCbor(b.issuedAt))
      && Js.Member(v, "snap_block") == Js.Ok(FromCbor(b.snapshotBlock))
      && Js.Member(v, "threshold") == Js.Ok(FromCbor(b.threshold))
  {
    BundleNames();
    var vals := BundleFields(b, MapSeq(SignatureValue, b.signatures));
    var x0 := MemberReadBack(m, BUNDLE, vals, 0);
    var x1 := MemberReadBack(m, BUNDLE, vals, 1);
    var x3 := MemberReadBack(m, BUNDLE, vals, 3);
    var x5 := MemberReadBack(m, BUNDLE, vals, 5);
    var x7 := MemberReadBack(m, BUNDLE, vals, 7);
  }

  lemma {:induction false} RootAgrees(m: Value, b: TrustBundle)
    requires Valid(m) && Valid(PublishedValue(b)) && Same(m, PublishedValue(b))
    ensures Js.Member(FromCbor(m), "snap_root") == Js.Ok(JUint8Array(b.snapshotRoot))
  {
    BundleNames();
    var x6 := MemberReadBack(m, BUNDLE, BundleFields(b, MapSeq(SignatureValue, b.signatures)), 6);
  }

  lemma {:induction false} ValidatorsAgree(m: Value, b: TrustBundle, ids: seq<IdentityEntry>, c: TrustBundle)
    requires Valid(m) && Valid(PublishedValue(b)) && Same(m, PublishedValue(b))
    requires HeaderFrom(m, ids, b.signatures) == Ok(c)
    ensures Js.Member(FromCbor(m), "val_set") == Js.Ok(JArray(FromItems(c.validatorSet)))
  {
    BundleNames();
    var x8 := MemberReadBack(m, BUNDLE, BundleFields(b, MapSeq(SignatureValue, b.signatures)), 8);
  }

  lemma {:induction false} HeaderAgrees(m: Value, b: TrustBundle, ids: seq<IdentityEntry>, page: bool)
    requires Valid(m) && Valid(PublishedValue(b)) && Same(m, PublishedValue(b)) && PlainHeader(b)
    ensures HeaderFrom(m, ids, b.signatures).Ok?
    ensures Js.DecodeHeader(FromCbor(m), MapSeq(JsEntryOf, ids), MapSeq(JsSignatureOf, b.signatures), page) ==
      Js.Ok(JsBundleOf(HeaderFrom(m, ids, b.signatures).value))
  {
    BundleNames();
    var c := HeaderReadBack(m, b, ids);
    NumbersAgree(m, b);
    RootAgrees(m, b);
    ValidatorsAgree(m, b, ids, c);
    HeaderDecodes(FromCbor(m), JsBundleOf(c), JUint8Array(b.snapshotRoot), JArray(FromItems(c.validatorSet)), page);
  }

  lemma {:induction false} IdentityListAgrees(m: Value, b: TrustBundle, page: bool)
    requires Valid(m) && Valid(PublishedValue(b)) && Same(m, PublishedValue(b)) && PlainHeader(b)
    ensures Item(m, "identities").Ok? && Item(m, "identities").value.Array?
    ensures var items := Item(m, "identities").value.items;
      EntriesFrom(items).Ok? &&
      Js.DecodeEntries(FromItems(items), page) == Js.Ok(MapSeq(JsEntryOf, EntriesFrom(items).value))
  {
    BundleNames();
    var vals := BundleFields(b, MapSeq(SignatureValue, b.signatures));
    FieldReadBack(m, BUNDLE, vals, 2);
    ValidMapIff(BUNDLE, vals);
    assert Valid(vals[2]);
    var items, es := Item(m, "identities").value.items, MapSeq(IdentityValue, b.identities);
    ValidArrayIff(items);
    ValidArrayIff(es);
    forall i | 0 <= i < |es| ensures Same(items[i], IdentityValue(b.identities[i])) && Valid(IdentityValue(b.identities[i])) {
      assert Same(items[i], es[i]) && Valid(es[i]);
    }
    EntriesAgree(items, b.identities, page);
  }

  lemma {:induction false} SignatureListAgrees(m: Value, b: TrustBundle, page: bool)
    requires Valid(m) && Valid(PublishedValue(b)) && Same(m, PublishedValue(b)) && PlainHeader(b)
    ensures Item(m, "signatures").Ok? && Item(m, "signatures").value.Array?
    ensures var items := Item(m, "signatures").value.items;
      Js.DecodeSignatures(FromItems(items), page) == Js.Ok(MapSeq(JsSignatureOf, b.signatures))
  {
    BundleNames();
    var vals := BundleFields(b, MapSeq(SignatureValue, b.signatures));
    FieldReadBack(m, BUNDLE, vals, 4);
    ValidMapIff(BUNDLE, vals);
    assert Valid(vals[4]);
    var items, sigs := Item(m, "signatures").value.items, MapSeq(SignatureValue, b.signatures);
    ValidArrayIff(items);
    ValidArrayIff(sigs);
    forall i | 0 <= i < |sigs| ensures Same(items[i], SignatureValue(b.signatures[i])) && Valid(SignatureValue(b.signatures[i])) {
      assert Same(items[i], sigs[i]) && Valid(sigs[i]);
    }
    SignaturesAgree(items, b.signatures, page);
  }

  /** Both copies of `decodeBundle` read from a published document what Python reads from it. */
  lemma {:induction false} BundleAgrees(m: Value, b: TrustBundle, page: bool) returns (c: TrustBundle)
    requires Valid(m) && Valid(PublishedValue(b)) && Same(m, PublishedValue(b)) && PlainHeader(b)
    ensures BundleFrom(m) == Ok(c) && ReadBack(c, b) && c.formatVersion == UInt(1)
    ensures Js.DecodeBundle(FromCbor(m), page) == Js.Ok(JsBundleOf(c))
  {
    BundleReadBack(m, b);
    ListsArePresent(m, b);
    IdentityListAgrees(m, b, page);
    SignatureListAgrees(m, b, page);
    SignatureListReadBack(m, b);
    var ids := EntriesFrom(Item(m, "identities").value.items).value;
    HeaderAgrees(m, b, ids, page);
    c := HeaderReadBack(m, b, ids);
    assert BundleFrom(m) == Ok(c);
    DecodesBy(m, Item(m, "identities").value.items, MapSeq(JsEntryOf, ids), Item(m, "signatures").value.items,
      MapSeq(JsSignatureOf, b.signatures), page);
  }

  lemma {:induction false} ListsArePresent(m: Value, b: TrustBundle)
    requires Valid(m) && Valid(PublishedValue(b)) && Same(m, PublishedValue(b)) && PlainHeader(b)
    ensures Item(m, "fmt_ver") == Ok(UInt(1)) && Item(m, "identities").Ok? && Item(m, "signatures").Ok?
    ensures m.Map? && Get(m.entries, "fmt_ver", Null) == UInt(1)
    ensures Get(m.entries, "identities", Array([])) == Item(m, "identities").value
    ensures Get(m.entries, "signatures", Array([])) == Item(m, "signatures").value
  {
    BundleNames();
    var vals := BundleFields(b, MapSeq(SignatureValue, b.signatures));
    FieldReadBack(m, BUNDLE, vals, 1);
    FieldReadBack(m, BUNDLE, vals, 2);
    FieldReadBack(m, BUNDLE, vals, 4);
  }

  lemma {:induction false} ItemAgrees(m: Value, name: string, items: seq<Value>)
    requires Item(m, name) == Ok(Array(items))
    ensures Js.Member(FromCbor(m), name) == Js.Ok(JArray(FromItems(items)))
  {
    MemberIsItem(m, name);
  }

  lemma {:induction false} DecodesBy(
      m: Value, items: seq<Value>, ids: seq<Js.JsEntry>, sigItems: seq<Value>, sigs: seq<Js.JsSignature>, page: bool)
    requires Item(m, "fmt_ver") == Ok(UInt(1))
    requires Item(m, "identities") == Ok(Array(items)) && Item(m, "signatures") == Ok(Array(sigItems))
    requires Js.DecodeEntries(FromItems(items), page) == Js.Ok(ids)
    requires Js.DecodeSignatures(FromItems(sigItems), page) == Js.Ok(sigs)
    ensures Js.DecodeBundle(FromCbor(m), page) == Js.DecodeHeader(FromCbor(m), ids, sigs, page)
  {
    VersionAgrees(m);
    ItemAgrees(m, "identities", items);
    ItemAgrees(m, "signatures", sigItems);
    DecodesLists(FromCbor(m), FromItems(items), ids, FromItems(sigItems), sigs, page);
  }

  lemma {:induction false} VersionAgrees(m: Value)
    requires Item(m, "fmt_ver") == Ok(UInt(1))
    ensures Js.Member(FromCbor(m), "fmt_ver") == Js.Ok(JNumber(1.0))
  {
    MemberIsItem(m, "fmt_ver");
  }

  lemma {:induction false} DecodesLists(
      doc: JsValue, items: seq<JsValue>, ids: seq<Js.JsEntry>, sigItems: seq<JsValue>, sigs: seq<Js.JsSignature>,
      page: bool)
    requires Js.Member(doc, "fmt_ver") == Js.Ok(JNumber(1.0))
    requires Js.Member(doc, "identities") == Js.Ok(JArray(items)) && Js.DecodeEntries(items, page) == Js.Ok(ids)
    requires Js.Member(doc, "signatures") == Js.Ok(JArray(sigItems)) && Js.DecodeSignatures(sigItems, page) == Js.Ok(sigs)
    ensures Js.DecodeBundle(doc, page) == Js.DecodeHeader(doc, ids, sigs, page)
  {
    Js.DecodesListsFirst(doc, items, ids, sigItems, sigs, page);
  }

  // ----- every signature counts

  /** The browser's signature check answers as Python's does on a byte key and a byte signature. */
  ghost predicate ChecksAlike(w: World, check: Js.SigCheck) {
    forall key, message, sig :: check(JUint8Array(key), message, JUint8Array(sig)) == Js.Ok(w.check(key, message, sig))
  }

  lemma {:induction false} AllCount(w: World, check: Js.SigCheck, sigs: seq<Signature>, message: ByteString)
    requires ChecksAlike(w, check)
    requires forall i :: 0 <= i < |sigs| ==> w.check(sigs[i].publicKey, message, sigs[i].signature)
    ensures Js.CountValid(check, MapSeq(JsSignatureOf, sigs), message) == Js.Ok(|sigs|)
  {
    if sigs == [] {
    } else {
      var n := |sigs| - 1;
      AllCount(w, check, sigs[..n], message);
      assert MapSeq(JsSignatureOf, sigs)[..n] == MapSeq(JsSignatureOf, sigs[..n]);
    }
  }

  /** The parser gives back the encoded document with plain numbers, its maps in some order. */
  ghost predicate ParsesPlainly(parse: ByteString -> Js.Try<JsValue>, v: Value) {
    exists m :: Valid(m) && Same(m, v) && parse(Encode(v)) == Js.Ok(FromCbor(m))
  }

  /** From the parsed document of a generated bundle, the page and the service worker alike rebuild
      byte for byte what Python signed and, until the second of expiry, count the signature of
      every validator. */
  lemma {:induction false} DocumentCountsEverySignature(
      w: World, g: Generation, vs: seq<Validator>, m: Value, f: Js.Platform, now: int, page: bool)
    returns (j: Js.JsBundle)
    requires ProperGeneration(w, g, vs) && IsPublished(w.sha, g, vs, m)
    requires now < g.now + g.grace && ChecksAlike(w, f.check)
    ensures Js.DecodeBundle(FromCbor(m), page) == Js.Ok(j)
    ensures EncodesSigned(w, g, j)
    ensures Js.Validated(f, j, now) == Js.Ok(j.(validSigCount := Some(|vs|)))
  {
    var c;
    c, j := PublishedAgrees(w, g, vs, m, page);
    ValidatesGenerated(w, f, g, c, now);
  }

  /** What the browser encodes is byte for byte what Python signed. */
  ghost predicate EncodesSigned(w: World, g: Generation, j: Js.JsBundle) {
    && g.now + g.grace >= 0 && ToCbor(Js.Payload(j)).Some?
    && Encode(ToCbor(Js.Payload(j)).value) == SigningBytes(Unsigned(w.sha, g))
  }

  lemma {:induction false} PublishedAgrees(w: World, g: Generation, vs: seq<Validator>, m: Value, page: bool)
    returns (c: TrustBundle, j: Js.JsBundle)
    requires ProperGeneration(w, g, vs) && IsPublished(w.sha, g, vs, m)
    ensures j == JsBundleOf(c) && Js.DecodeBundle(FromCbor(m), page) == Js.Ok(j)
    ensures SignedByAll(w, c, g.threshold, g.now + g.grace) && EncodesSigned(w, g, j)
    ensures |c.signatures| == |vs| && Valid(SigningValue(c)) && BundleFrom(m) == Ok(c)
  {
    SignedIsPlain(w.sha, g, vs);
    c := BundleAgrees(m, Signed(w.sha, g, vs), page);
    j := JsBundleOf(c);
    VerifySound.ReadValid(m);
    VerifySound.IdentitiesValid(m);
    RebuildsSigned(w, g, vs, c);
    PayloadIsSigningValue(c);
  }

  /** Every signature of `c` checks against its own signing bytes, and there are enough of them. */
  ghost predicate SignedByAll(w: World, c: TrustBundle, threshold: nat, expires: nat) {
    && c.expiresAt == UInt(expires) && c.threshold == UInt(threshold) && c.formatVersion == UInt(1)
    && threshold <= |c.signatures| && Verify.AllSignaturesHold(w, c.signatures, SigningBytes(c))
  }

  lemma {:induction false} PassableIsSigned(w: World, g: Generation, c: TrustBundle)
    requires Passable(w, g, c) && c.formatVersion == UInt(1)
    requires SigningBytes(c.(signatures := [])) == SigningBytes(c)
    ensures SignedByAll(w, c, g.threshold, g.now + g.grace)
  {
  }

  /** What was read back is what was signed, by all of them. */
  lemma {:induction false} RebuildsSigned(w: World, g: Generation, vs: seq<Validator>, c: TrustBundle)
    requires ProperGeneration(w, g, vs) && ReadBack(c, Signed(w.sha, g, vs)) && c.formatVersion == UInt(1)
    requires Valid(SigningValue(c)) && Valid(Array(MapSeq(IdentityValue, c.identities)))
    ensures SignedByAll(w, c, g.threshold, g.now + g.grace)
    ensures SigningBytes(c) == SigningBytes(Unsigned(w.sha, g)) && |c.signatures| == |vs|
  {
    IsPassable(w, g, vs, c);
    SignaturesHold(w, g, vs, c);
    PassableIsSigned(w, g, c);
  }

  lemma {:induction false} ValidatesAll(
      w: World, f: Js.Platform, c: TrustBundle, j: Js.JsBundle, count: nat, now: int, threshold: nat, expires: nat)
    requires SignedByAll(w, c, threshold, expires) && ChecksAlike(w, f.check) && now < expires
    requires j == JsBundleOf(c) && count == |c.signatures|
    ensures Js.Validated(f, j, now) == Js.Ok(j.(validSigCount := Some(count)))
  {
    PayloadIsSigningValue(c);
    AllCount(w, f.check, c.signatures, SigningBytes(c));
    Comparisons(f, threshold, count, expires, now);
    Js.Validates(f, j, SigningValue(c), count, now);
  }

  lemma {:induction false} ValidatesGenerated(w: World, f: Js.Platform, g: Generation, c: TrustBundle, now: int)
    requires 0 <= g.now + g.grace && SignedByAll(w, c, g.threshold, g.now + g.grace)
    requires ChecksAlike(w, f.check) && now < g.now + g.grace
    ensures Js.Validated(f, JsBundleOf(c), now) == Js.Ok(JsBundleOf(c).(validSigCount := Some(|c.signatures|)))
  {
    ValidatesAll(w, f, c, JsBundleOf(c), |c.signatures|, now, g.threshold, g.now + g.grace);
  }

  lemma {:induction false} Comparisons(f: Js.Platform, threshold: nat, count: nat, expires: nat, now: int)
    requires threshold <= count && now < expires
    ensures FromCbor(UInt(1)) == JNumber(1.0)
    ensures !Js.LessThan(f, count, FromCbor(UInt(threshold))) && !Js.AtMost(f, FromCbor(UInt(expires)), now)
  {
  }

  /** Cross-language agreement, from the published bytes on. */
  lemma {:induction false} BrowserCountsEverySignature(
      w: World, g: Generation, vs: seq<Validator>, parse: ByteString -> Js.Try<JsValue>,
      f: Js.Platform, now: int, page: bool)
    returns (doc: JsValue, j: Js.JsBundle)
    requires ProperGeneration(w, g, vs) && ParsesPlainly(parse, PublishedValue(Signed(w.sha, g, vs)))
    requires now < g.now + g.grace && ChecksAlike(w, f.check)
    ensures parse(Encode(PublishedValue(Signed(w.sha, g, vs)))) == Js.Ok(doc)
    ensures Js.DecodeBundle(doc, page) == Js.Ok(j)
    ensures EncodesSigned(w, g, j)
    ensures Js.Validated(f, j, now) == Js.Ok(j.(validSigCount := Some(|vs|)))
  {
    var v := PublishedValue(Signed(w.sha, g, vs));
    var m :| Valid(m) && Same(m, v) && parse(Encode(v)) == Js.Ok(FromCbor(m));
    doc := FromCbor(m);
    j := DocumentCountsEverySignature(w, g, vs, m, f, now, page);
  }

  // ----- the service worker's copy

  lemma {:induction false} Uint8Alike(v: JsValue)
    ensures ToCbor(Js.ToUint8(v, true)) == ToCbor(Js.ToUint8(v, false))
  {
  }

  /** Literals with the same encodable fields encode alike. */
  lemma {:induction false} LiteralsAlike(names: seq<string>, xs: seq<JsValue>, ys: seq<JsValue>)
    requires |names| == |xs| == |ys|
    requires forall i :: 0 <= i < |xs| ==> ToCbor(xs[i]) == ToCbor(ys[i])
    ensures ToCbor(Js.Literal(names, xs)) == ToCbor(Js.Literal(names, ys))
  {
    PropsAlike(Js.Literal(names, xs).props, Js.Literal(names, ys).props);
  }

  lemma {:induction false} PropsAlike(a: seq<Prop>, b: seq<Prop>)
    requires |a| == |b|
    requires forall i :: 0 <= i < |a| ==> a[i].name == b[i].name && ToCbor(a[i].val) == ToCbor(b[i].val)
    ensures ToCborProps(a) == ToCborProps(b)
  {
    if a == [] {
    } else {
      PropsAlike(a[1..], b[1..]);
    }
  }

  /** One field replaced by one that encodes alike. */
  lemma {:induction false} FieldAlike(names: seq<string>, xs: seq<JsValue>, i: nat, y: JsValue)
    requires |names| == |xs| && i < |xs| && ToCbor(xs[i]) == ToCbor(y)
    ensures ToCbor(Js.Literal(names, xs[i := y])) == ToCbor(Js.Literal(names, xs))
  {
    LiteralsAlike(names, xs[i := y], xs);
  }

  lemma {:induction false} ItemsAlike(a: seq<JsValue>, b: seq<JsValue>)
    requires |a| == |b| && forall i :: 0 <= i < |a| ==> ToCbor(a[i]) == ToCbor(b[i])
    ensures ToCborItems(a) == ToCborItems(b)
  {
    if a == [] {
    } else {
      ItemsAlike(a[1..], b[1..]);
    }
  }

  lemma {:induction false} SiblingsAlike(items: seq<JsValue>)
    ensures Js.DecodeSiblings(items, true).Ok? <==> Js.DecodeSiblings(items, false).Ok?
    ensures Js.DecodeSiblings(items, true).Ok? ==>
      var x, y := Js.DecodeSiblings(items, true).value, Js.DecodeSiblings(items, false).value;
      |x| == |y| == |items| && forall i :: 0 <= i < |x| ==>
        ToCbor(Js.SiblingPayload(x[i])) == ToCbor(Js.SiblingPayload(y[i]))
  {
    if items == [] {
    } else {
      SiblingsAlike(items[1..]);
      if Js.DecodeSibling(items[0], true).Ok? {
        var x, y := Js.DecodeSibling(items[0], true).value, Js.DecodeSibling(items[0], false).value;
        Uint8Alike(Js.Member(items[0], "h").value);
        LiteralsAlike(Js.SIBLING, [x.h, x.s], [y.h, y.s]);
      }
    }
  }

  lemma {:induction false} ProofPayloadsAlike(p: Js.JsProof, q: Js.JsProof)
    requires ToCbor(p.leafHash) == ToCbor(q.leafHash) && ToCbor(p.root) == ToCbor(q.root)
    requires var a, b := MapSeq(Js.SiblingPayload, p.siblings), MapSeq(Js.SiblingPayload, q.siblings);
      |a| == |b| && forall i :: 0 <= i < |a| ==> ToCbor(a[i]) == ToCbor(b[i])
    ensures ToCbor(Js.ProofPayload(p)) == ToCbor(Js.ProofPayload(q))
  {
    var a, b := MapSeq(Js.SiblingPayload, p.siblings), MapSeq(Js.SiblingPayload, q.siblings);
    ItemsAlike(a, b);
    LiteralsAlike(Js.PROOF, [p.leafHash, p.root, JArray(a)], [q.leafHash, q.root, JArray(b)]);
  }

  lemma {:induction false} ProofsAlike(v: JsValue)
    ensures Js.DecodeProof(v, true).Ok? <==> Js.DecodeProof(v, false).Ok?
    ensures Js.DecodeProof(v, true).Ok? ==>
      ToCbor(Js.ProofPayload(Js.DecodeProof(v, true).value)) == ToCbor(Js.ProofPayload(Js.DecodeProof(v, false).value))
  {
    if Js.DecodeProof(v, true).Ok? || Js.DecodeProof(v, false).Ok? {
      var items := Js.Elements(Js.Or(Js.Member(v, "siblings").value, JArray([]))).value;
      SiblingsAlike(items);
      Uint8Alike(Js.Member(v, "leaf").value);
      Uint8Alike(Js.Member(v, "root").value);
      ProofPayloadsAlike(Js.DecodeProof(v, true).value, Js.DecodeProof(v, false).value);
    }
  }

  lemma {:induction false} EntryAlike(v: JsValue)
    ensures Js.DecodeEntry(v, true).Ok? <==> Js.DecodeEntry(v, false).Ok?
    ensures Js.DecodeEntry(v, true).Ok? ==>
      ToCbor(Js.EntryPayload(Js.DecodeEntry(v, true).value)) == ToCbor(Js.EntryPayload(Js.DecodeEntry(v, false).value))
  {
    if Js.DecodeRecord(v, true).Ok? && Js.Member(v, "proof").Ok? {
      var p := Js.Member(v, "proof").value;
      ProofsAlike(p);
      if Js.DecodeProof(p, true).Ok? {
        Uint8Alike(Js.Member(v, "pubkey").value);
        var x, y := Js.DecodeEntry(v, true).value, Js.DecodeEntry(v, false).value;
        EntryPayloadsAlike(x, y);
      }
    }
  }

  lemma {:induction false} EntryPayloadsAlike(x: Js.JsEntry, y: Js.JsEntry)
    requires y.record == x.record.(publicKey := y.record.publicKey)
    requires ToCbor(x.record.publicKey) == ToCbor(y.record.publicKey)
    requires ToCbor(Js.ProofPayload(x.proof)) == ToCbor(Js.ProofPayload(y.proof))
    ensures ToCbor(Js.EntryPayload(x)) == ToCbor(Js.EntryPayload(y))
  {
    var r := x.record;
    var xs := [r.did, r.issuedAt, r.issuedBy, r.metadata, Js.ProofPayload(x.proof), r.publicKey, r.revokedAt,
      r.validUntil];
    FieldAlike(Js.IDENTITY, xs, 4, Js.ProofPayload(y.proof));
    FieldAlike(Js.IDENTITY, xs[4 := Js.ProofPayload(y.proof)], 5, y.record.publicKey);
    assert xs[4 := Js.ProofPayload(y.proof)][5 := y.record.publicKey] ==
      [r.did, r.issuedAt, r.issuedBy, r.metadata, Js.ProofPayload(y.proof), y.record.publicKey, r.revokedAt,
       r.validUntil];
  }

  lemma {:induction false} EntriesAlike(items: seq<JsValue>)
    ensures Js.DecodeEntries(items, true).Ok? <==> Js.DecodeEntries(items, false).Ok?
    ensures Js.DecodeEntries(items, true).Ok? ==>
      var x, y := Js.DecodeEntries(items, true).value, Js.DecodeEntries(items, false).value;
      |x| == |y| == |items| && forall i :: 0 <= i < |x| ==>
        ToCbor(Js.EntryPayload(x[i])) == ToCbor(Js.EntryPayload(y[i]))
  {
    if items == [] {
    } else {
      EntryAlike(items[0]);
      EntriesAlike(items[1..]);
    }
  }

  lemma {:induction false} SignaturesAlike(items: seq<JsValue>)
    ensures Js.DecodeSignatures(items, true).Ok? <==> Js.DecodeSignatures(items, false).Ok?
  {
    if items == [] {
    } else {
      SignaturesAlike(items[1..]);
    }
  }

  /** On every parsed document, generated or not, the page's copy and the service worker's copy
      throw together, and otherwise rebuild the same signing payload. */
  lemma {:induction false} CopiesAgree(m: JsValue)
    ensures Js.DecodeBundle(m, true).Ok? <==> Js.DecodeBundle(m, false).Ok?
    ensures Js.DecodeBundle(m, true).Ok? ==>
      ToCbor(Js.Payload(Js.DecodeBundle(m, true).value)) == ToCbor(Js.Payload(Js.DecodeBundle(m, false).value))
  {
    if Js.Member(m, "fmt_ver") == Js.Ok(JNumber(1.0)) {
      var ids, sigs := Js.Or(Js.Member(m, "identities").value, JArray([])), Js.Or(Js.Member(m, "signatures").value, JArray([]));
      if ids.JArray? && sigs.JArray? {
        EntriesAlike(ids.items);
        SignaturesAlike(sigs.items);
        if Js.DecodeBundle(m, true).Ok? {
          SamePayload(m, Js.DecodeBundle(m, true).value, Js.DecodeBundle(m, false).value);
        }
      }
    }
  }

  lemma {:induction false} HeadersAlike(m: JsValue, x: Js.JsBundle, y: Js.JsBundle)
    requires Js.DecodeHeader(m, x.identities, x.signatures, true) == Js.Ok(x)
    requires Js.DecodeHeader(m, y.identities, y.signatures, false) == Js.Ok(y)
    ensures x.expiresAt == y.expiresAt && x.fmtVer == y.fmtVer && x.issuedAt == y.issuedAt
    ensures x.snapBlock == y.snapBlock && x.threshold == y.threshold && x.valSet == y.valSet
    ensures ToCbor(x.snapRoot) == ToCbor(y.snapRoot)
  {
    Uint8Alike(Js.Member(m, "snap_root").value);
  }

  lemma {:induction false} PayloadsAlike(x: Js.JsBundle, y: Js.JsBundle)
    requires x.expiresAt == y.expiresAt && x.fmtVer == y.fmtVer && x.issuedAt == y.issuedAt
    requires x.snapBlock == y.snapBlock && x.threshold == y.threshold && x.valSet == y.valSet
    requires ToCbor(x.snapRoot) == ToCbor(y.snapRoot)
    requires |x.identities| == |y.identities| && forall i :: 0 <= i < |x.identities| ==>
      ToCbor(Js.EntryPayload(x.identities[i])) == ToCbor(Js.EntryPayload(y.identities[i]))
    ensures ToCbor(Js.Payload(x)) == ToCbor(Js.Payload(y))
  {
    var a, b := MapSeq(Js.EntryPayload, x.identities), MapSeq(Js.EntryPayload, y.identities);
    ItemsAlike(a, b);
    EntriesAndRootAlike(x, y, a, b);
  }

  lemma {:induction false} EntriesAndRootAlike(x: Js.JsBundle, y: Js.JsBundle, a: seq<JsValue>, b: seq<JsValue>)
    requires x.expiresAt == y.expiresAt && x.fmtVer == y.fmtVer && x.issuedAt == y.issuedAt
    requires x.snapBlock == y.snapBlock && x.threshold == y.threshold && x.valSet == y.valSet
    requires ToCbor(x.snapRoot) == ToCbor(y.snapRoot) && ToCbor(JArray(a)) == ToCbor(JArray(b))
    ensures ToCbor(Js.PayloadWith(x, a)) == ToCbor(Js.PayloadWith(y, b))
  {
    var xs := [x.expiresAt, x.fmtVer, JArray(a), x.issuedAt, JArray([]), x.snapBlock, x.snapRoot, x.threshold, x.valSet];
    FieldAlike(Js.BUNDLE, xs, 2, JArray(b));
    FieldAlike(Js.BUNDLE, xs[2 := JArray(b)], 6, y.snapRoot);
    assert xs[2 := JArray(b)][6 := y.snapRoot] ==
      [y.expiresAt, y.fmtVer, JArray(b), y.issuedAt, JArray([]), y.snapBlock, y.snapRoot, y.threshold, y.valSet];
  }

  lemma {:induction false} SamePayload(m: JsValue, x: Js.JsBundle, y: Js.JsBundle)
    requires Js.DecodeHeader(m, x.identities, x.signatures, true) == Js.Ok(x)
    requires Js.DecodeHeader(m, y.identities, y.signatures, false) == Js.Ok(y)
    requires |x.identities| == |y.identities| && forall i :: 0 <= i < |x.identities| ==>
      ToCbor(Js.EntryPayload(x.identities[i])) == ToCbor(Js.EntryPayload(y.identities[i]))
    ensures ToCbor(Js.Payload(x)) == ToCbor(Js.Payload(y))
  {
    HeadersAlike(m, x, y);
    PayloadsAlike(x, y);
  }
}
