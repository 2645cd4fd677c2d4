/** Soundness of the browser's check: what an answer VALID is worth when one of the keys that were
    counted belongs to a validator that signed only its own bundles. */
module JsSound {
  import opened Bytes
  import opened Sorting
  import opened Cbor
  import opened CborLaws
  import opened Fields
  import opened Models
  import opened Bundle
  import opened JsCbor
  import Js = JsBundle
  import opened SyncProtocol
  import VerifySound

  /** A document with fixed field names, as the encoder sees it. */
  lemma {:induction false} LiteralToCbor(names: seq<string>, vals: seq<JsValue>) returns (cs: seq<Value>)
    requires |names| == |vals| && ToCbor(Js.Literal(names, vals)).Some?
    ensures |cs| == |names| && ToCbor(Js.Literal(names, vals)) == Some(MapOf(names, cs))
    ensures forall i :: 0 <= i < |vals| ==> ToCbor(vals[i]) == Some(cs[i])
  {
    var props := Js.Literal(names, vals).props;
    ToCborPropsAt(props);
    cs := seq(|vals|, i requires 0 <= i < |vals| => ToCbor(props[i].val).value);
    var es := ToCborProps(props).value;
    assert es == FieldEntries(names, cs);
  }

  /** `v` is what the encoder makes of `x`, up to the order of keys. */
  ghost predicate Stands(x: JsValue, v: Value) {
    ToCbor(x).Some? && Same(ToCbor(x).value, v)
  }

  predicate IsNumber(x: JsValue, n: int) { x == JNumber(n as real) }

  /** The entry's record is that record, field by field. */
  ghost predicate RecordIs(j: Js.JsRecord, r: Record) {
    && Stands(j.did, r.did) && Stands(j.issuedAt, r.issuedAt) && Stands(j.issuedBy, Array(r.issuedBy))
    && Stands(j.metadata, Map(r.metadata)) && Stands(j.publicKey, Bin(r.publicKey))
    && Stands(j.revokedAt, r.revokedAt) && Stands(j.validUntil, r.validUntil)
  }

  lemma {:induction false} EntryIs(e: Js.JsEntry, v: Value, f: IdentityEntry)
    requires ToCbor(Js.EntryPayload(e)) == Some(v) && Same(v, IdentityValue(f))
    ensures RecordIs(e.record, f.record)
  {
    var r := e.record;
    var cs := LiteralToCbor(Js.IDENTITY, [r.did, r.issuedAt, r.issuedBy, r.metadata, Js.ProofPayload(e.proof),
      r.publicKey, r.revokedAt, r.validUntil]);
    IdentityNames();
    SameMapIff(IDENTITY, cs, IdentityFields(f));
    var fs := IdentityFields(f);
    assert Same(cs[0], fs[0]) && Same(cs[1], fs[1]) && Same(cs[2], fs[2]) && Same(cs[3], fs[3]);
    assert Same(cs[5], fs[5]) && Same(cs[6], fs[6]) && Same(cs[7], fs[7]);
  }

  /** Two bundles with the same signing value: the browser's and the generated one. */
  lemma {:induction false} BundleIs(b: Js.JsBundle, v: Value, u: TrustBundle)
    requires ToCbor(Js.Payload(b)) == Some(v) && Same(v, SigningValue(u))
    ensures Stands(b.expiresAt, u.expiresAt) && Stands(b.threshold, u.threshold)
    ensures |b.identities| == |u.identities|
    ensures forall i :: 0 <= i < |b.identities| ==> RecordIs(b.identities[i].record, u.identities[i].record)
  {
    var entries := MapSeq(Js.EntryPayload, b.identities);
    var cs := LiteralToCbor(Js.BUNDLE, [b.expiresAt, b.fmtVer, JArray(entries), b.issuedAt, JArray([]),
      b.snapBlock, b.snapRoot, b.threshold, b.valSet]);
    BundleNames();
    var us := BundleFields(u, []);
    SameMapIff(BUNDLE, cs, us);
    assert Same(cs[0], us[0]) && Same(cs[2], us[2]) && Same(cs[7], us[7]);
    EntriesAre(b.identities, cs[2], u.identities);
  }

  lemma {:induction false} EntriesAre(es: seq<Js.JsEntry>, v: Value, fs: seq<IdentityEntry>)
    requires ToCbor(JArray(MapSeq(Js.EntryPayload, es))) == Some(v) && Same(v, Array(MapSeq(IdentityValue, fs)))
    ensures |es| == |fs| && forall i :: 0 <= i < |es| ==> RecordIs(es[i].record, fs[i].record)
  {
    var payloads, values := MapSeq(Js.EntryPayload, es), MapSeq(IdentityValue, fs);
    ToCborItemsAt(payloads);
    forall i | 0 <= i < |es| ensures RecordIs(es[i].record, fs[i].record) {
      assert ToCbor(payloads[i]) == Some(v.items[i]) && Same(v.items[i], values[i]);
      EntryIs(es[i], v.items[i], fs[i]);
    }
  }

  /** Signature `k` counts. The encoded document is one: names once in a map, lengths and numbers below
      2^64. */
  ghost predicate Counts(f: Js.Platform, b: Js.JsBundle, k: nat) {
    && ToCbor(Js.Payload(b)).Some? && Valid(ToCbor(Js.Payload(b)).value) && k < |b.signatures|
    && var s := b.signatures[k];
    f.check(s.validatorPubkey, Encode(ToCbor(Js.Payload(b)).value), s.signature) == Js.Ok(true)
  }

  /** It is no forgery: if it counts, its message was signed. */
  ghost predicate Unforged(f: Js.Platform, b: Js.JsBundle, k: nat, signed: set<ByteString>) {
    Counts(f, b, k) ==> Encode(ToCbor(Js.Payload(b)).value) in signed
  }

  /** The record is that of an active record of the log. */
  ghost predicate InForce(j: Js.JsRecord, log: seq<Record>) {
    exists r :: r in log && r.IsActive() && RecordIs(j, r)
  }

  /** What is known of a bundle before it is signed, the tree aside. */
  ghost predicate MadeFrom(u: TrustBundle, g: Generation) {
    && g.now + g.grace >= 0 && u.expiresAt == UInt(g.now + g.grace) && u.threshold == UInt(g.threshold)
    && forall i :: 0 <= i < |u.identities| ==> u.identities[i].record in g.log && u.identities[i].record.IsActive()
  }

  lemma {:induction false} UnsignedIsMadeFrom(sha: Hash, g: Generation)
    requires g.now + g.grace >= 0
    ensures MadeFrom(Unsigned(sha, g), g)
  {
    var u := Unsigned(sha, g);
    forall i | 0 <= i < |u.identities| ensures u.identities[i].record in g.log && u.identities[i].record.IsActive() {
      VerifySound.ActiveOfEntry(sha, g, i);
    }
  }

  /** Threshold and expiry of the bundle are those of the generation. */
  ghost predicate HasNumbersOf(b: Js.JsBundle, g: Generation) {
    IsNumber(b.expiresAt, g.now + g.grace) && IsNumber(b.threshold, g.threshold)
  }

  /** A bundle that is signed as one of those is that one: its entries are active records of the log,
      and its threshold and expiry are the generation's and so are numbers. */
  lemma {:induction false} SameAsGenerated(b: Js.JsBundle, v: Value, u: TrustBundle, g: Generation)
    requires ToCbor(Js.Payload(b)) == Some(v) && Valid(v) && Valid(SigningValue(u)) && Encode(v) == SigningBytes(u)
    requires MadeFrom(u, g)
    ensures HasNumbersOf(b, g)
    ensures forall i :: 0 <= i < |b.identities| ==> InForce(b.identities[i].record, g.log)
  {
    SameBundle(b, v, u);
    StandsForMade(b, u, g);
  }

  lemma {:induction false} StandsForMade(b: Js.JsBundle, u: TrustBundle, g: Generation)
    requires MadeFrom(u, g) && Stands(b.expiresAt, u.expiresAt) && Stands(b.threshold, u.threshold)
    requires |b.identities| == |u.identities|
    requires forall i :: 0 <= i < |b.identities| ==> RecordIs(b.identities[i].record, u.identities[i].record)
    ensures HasNumbersOf(b, g)
    ensures forall i :: 0 <= i < |b.identities| ==> InForce(b.identities[i].record, g.log)
  {
    NumberStands(b.expiresAt, g.now + g.grace);
    NumberStands(b.threshold, g.threshold);
    forall i | 0 <= i < |b.identities| ensures InForce(b.identities[i].record, g.log) {
      assert RecordIs(b.identities[i].record, u.identities[i].record);
    }
  }

  lemma {:induction false} SameBundle(b: Js.JsBundle, v: Value, u: TrustBundle)
    requires ToCbor(Js.Payload(b)) == Some(v) && Valid(v) && Valid(SigningValue(u)) && Encode(v) == SigningBytes(u)
    ensures Stands(b.expiresAt, u.expiresAt) && Stands(b.threshold, u.threshold)
    ensures |b.identities| == |u.identities|
    ensures forall i :: 0 <= i < |b.identities| ==> RecordIs(b.identities[i].record, u.identities[i].record)
  {
    EncodeIffSame(v, SigningValue(u));
    BundleIs(b, v, u);
  }

  lemma {:induction false} HonestBundle(
      w: World, b: Js.JsBundle, v: Value, signed: set<ByteString>, history: set<Generation>) returns (g: Generation)
    requires ToCbor(Js.Payload(b)) == Some(v) && Valid(v) && Encode(v) in signed
    requires VerifySound.SignsOnlyBundles(w, signed, history)
    ensures g in history
    ensures HasNumbersOf(b, g)
    ensures forall i :: 0 <= i < |b.identities| ==> InForce(b.identities[i].record, g.log)
  {
    PayloadIsLong(b, v);
    g :| g in history && VerifySound.IsPayload(w, Encode(v), g);
    UnsignedIsMadeFrom(w.sha, g);
    SameAsGenerated(b, v, Unsigned(w.sha, g), g);
  }

  lemma {:induction false} PayloadIsLong(b: Js.JsBundle, v: Value)
    requires ToCbor(Js.Payload(b)) == Some(v)
    ensures |Encode(v)| > 32
  {
    var cs := LiteralToCbor(Js.BUNDLE, [b.expiresAt, b.fmtVer, JArray(MapSeq(Js.EntryPayload, b.identities)),
      b.issuedAt, JArray([]), b.snapBlock, b.snapRoot, b.threshold, b.valSet]);
    VerifySound.LongFields(cs);
  }

  lemma {:induction false} NumberStands(x: JsValue, n: nat)
    requires Stands(x, UInt(n))
    ensures IsNumber(x, n)
  {
  }

  lemma {:induction false} TextStands(x: JsValue, did: ByteString, v: Value)
    requires x == JString(did) && Stands(x, v)
    ensures v == Text(did)
  {
  }

  lemma {:induction false} NumbersAreEnforced(f: Js.Platform, b: Js.JsBundle, g: Generation, now: int)
    requires HasNumbersOf(b, g)
    ensures !Js.ToNumber(f, b.threshold).NaN? && !Js.ToNumber(f, b.expiresAt).NaN?
    ensures ReachesQuorum(f, b) ==> CountOf(b) >= g.threshold
    ensures NotPast(f, b, now) ==> now <= g.now + g.grace
  {
  }

  lemma {:induction false} RecordInForce(j: Js.JsRecord, log: seq<Record>, did: ByteString) returns (r: Record)
    requires InForce(j, log) && j.did == JString(did)
    ensures r in log && r.IsActive() && r.did == Text(did) && RecordIs(j, r)
  {
    r :| r in log && r.IsActive() && RecordIs(j, r);
    TextStands(j.did, did, r.did);
  }

  lemma {:induction false} SignedValue(f: Js.Platform, b: Js.JsBundle, k: nat, signed: set<ByteString>)
    returns (v: Value)
    requires Counts(f, b, k) && Unforged(f, b, k, signed)
    ensures ToCbor(Js.Payload(b)) == Some(v) && Valid(v) && Encode(v) in signed
  {
    v := ToCbor(Js.Payload(b)).value;
  }

  /** The first entry for the DID, in a bundle whose payload was signed. */
  lemma {:induction false} HonestEntry(
      w: World, b: Js.JsBundle, v: Value, did: ByteString, i: nat, signed: set<ByteString>, history: set<Generation>)
    returns (g: Generation, r: Record)
    requires ToCbor(Js.Payload(b)) == Some(v) && Valid(v) && Encode(v) in signed
    requires VerifySound.SignsOnlyBundles(w, signed, history) && IsFirst(b.identities, did, i)
    ensures g in history && r in g.log && r.IsActive() && r.did == Text(did) && RecordIs(b.identities[i].record, r)
    ensures HasNumbersOf(b, g)
  {
    g := HonestBundle(w, b, v, signed, history);
    r := RecordInForce(b.identities[i].record, g.log, did);
  }

  /** End-to-end soundness in the browser: if, after any run from an empty database, the client answers
      VALID for a DID, and a counted signature of its bundle is no forgery, with whose key nothing was
      signed but bundles of its owner and 32-byte digests, then the entry's record is an active record
      of a log that this validator bundled, its DID is the one asked for, that bundle's quorum has
      signed, and it is not past its expiry. */
  lemma {:induction false} ClientSound(
      w: World, f: Js.Platform, steps: seq<Step>, did: ByteString, now: int, k: nat, signed: set<ByteString>,
      history: set<Generation>) returns (i: nat, g: Generation, r: Record)
    requires Legal(f, START, steps)
    requires ClientVerify(f, Run(f, START, steps).page.bundle, did, now) == VALID
    requires Counts(f, Run(f, START, steps).page.bundle.value, k)
    requires Unforged(f, Run(f, START, steps).page.bundle.value, k, signed)
    requires VerifySound.SignsOnlyBundles(w, signed, history)
    ensures var b := Run(f, START, steps).page.bundle.value;
      && IsFirst(b.identities, did, i) && ProofHolds(f, b.identities[i].proof, b.snapRoot)
      && g in history && r in g.log && r.IsActive() && r.did == Text(did) && RecordIs(b.identities[i].record, r)
      && CountOf(b) >= g.threshold && now <= g.now + g.grace
  {
    i := ClientValidMeans(f, steps, did, now);
    var b := Run(f, START, steps).page.bundle.value;
    var v := SignedValue(f, b, k, signed);
    g, r := HonestEntry(w, b, v, did, i, signed, history);
    NumbersAreEnforced(f, b, g, now);
  }
}
