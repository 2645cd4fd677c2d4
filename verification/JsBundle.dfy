/** Bundles in the browser (browser/src/bundle.js, and the copy of the same functions in
    browser/sw/decpki-sw.js). */
module JsBundle {
  import opened Bytes
  import opened Sorting
  import opened Cbor
  import opened JsCbor

  datatype JsRecord = JsRecord(
    did: JsValue,
    publicKey: JsValue,
    issuedAt: JsValue,
    issuedBy: JsValue,
    validUntil: JsValue,
    revokedAt: JsValue,
    metadata: JsValue)

  datatype JsSibling = JsSibling(h: JsValue, s: JsValue)

  datatype JsProof = JsProof(leafHash: JsValue, siblings: seq<JsSibling>, root: JsValue)

  datatype JsEntry = JsEntry(record: JsRecord, proof: JsProof)

  datatype JsSignature = JsSignature(validatorDid: JsValue, validatorPubkey: JsValue, signature: JsValue)

  /** `validSigCount` is the property `_validSigCount` that validation attaches. */
  datatype JsBundle = JsBundle(
    fmtVer: JsValue,
    snapBlock: JsValue,
    snapRoot: JsValue,
    issuedAt: JsValue,
    expiresAt: JsValue,
    threshold: JsValue,
    valSet: JsValue,
    identities: seq<JsEntry>,
    signatures: seq<JsSignature>,
    validSigCount: Option<nat>)

  /** A computation that may throw. */
  datatype Try<+T> = Ok(value: T) | Threw {
    predicate IsFailure() { Threw? }

    function PropagateFailure<U>(): Try<U>
      requires IsFailure()
    {
      Threw
    }

    function Extract(): T
      requires !IsFailure()
    {
      value
    }
  }

  function FindProp(props: seq<Prop>, name: ByteString): JsValue {
    if props == [] then JUndefined
    else if props[0].name == name then props[0].val
    else FindProp(props[1..], name)
  }

  /** `v.name`, which throws on undefined and null and is undefined on anything without it. */
  function Member(v: JsValue, name: string): Try<JsValue> {
    match v
    case JUndefined => Threw
    case JNull => Threw
    case JObject(props) => Ok(FindProp(props, Ascii(name)))
    case _ => Ok(JUndefined)
  }

  predicate Truthy(v: JsValue) {
    match v
    case JUndefined => false
    case JNull => false
    case JBool(b) => b
    case JNumber(r) => r != 0.0
    case JNaN => false
    case JString(s) => s != []
    case _ => true
  }

  /** `v || other` */
  function Or(v: JsValue, other: JsValue): JsValue { if Truthy(v) then v else other }

  /** `v ?? null` */
  function OrNull(v: JsValue): JsValue { if v.JUndefined? then JNull else v }

  /** The elements that `v.map(...)` visits; throws where `v` has no `map`. Lists of entries, signatures and
      siblings are arrays: a byte array in their place counts as having none. */
  function Elements(v: JsValue): Try<seq<JsValue>> {
    if v.JArray? then Ok(v.items) else Threw
  }

  /** A number as an element of a byte array: truncated, modulo 256. */
  function ToByte(v: JsValue): Byte {
    match v
    case JNumber(r) => (if r >= 0.0 then r.Floor else -((-r).Floor)) % 0x100
    case JBool(b) => if b then 1 else 0
    case _ => 0
  }

  /** `toUint8`; the service worker's copy leaves an ArrayBuffer as it is. */
  function ToUint8(v: JsValue, page: bool): JsValue {
    match v
    case JArrayBuffer(bs) => if page then JUint8Array(bs) else v
    case JArray(items) => JUint8Array(seq(|items|, i requires 0 <= i < |items| => ToByte(items[i])))
    case _ => v
  }

  // ----- decodeBundle

  function DecodeSibling(s: JsValue, page: bool): Try<JsSibling> {
    var h :- Member(s, "h");
    var side :- Member(s, "s");
    Ok(JsSibling(ToUint8(h, page), side))
  }

  function DecodeSiblings(items: seq<JsValue>, page: bool): Try<seq<JsSibling>> {
    if items == [] then Ok([])
    else
      var first :- DecodeSibling(items[0], page);
      var rest :- DecodeSiblings(items[1..], page);
      Ok([first] + rest)
  }

  function DecodeRecord(entry: JsValue, page: bool): Try<JsRecord> {
    var did :- Member(entry, "did");
    var pubkey :- Member(entry, "pubkey");
    var issuedAt :- Member(entry, "issued_at");
    var issuedBy :- Member(entry, "issued_by");
    var validUntil :- Member(entry, "valid_until");
    var revokedAt :- Member(entry, "revoked_at");
    var meta :- Member(entry, "meta");
    Ok(JsRecord(did, ToUint8(pubkey, page), issuedAt, issuedBy, OrNull(validUntil), OrNull(revokedAt),
      Or(meta, JObject([]))))
  }

  function DecodeProof(proof: JsValue, page: bool): Try<JsProof> {
    var leaf :- Member(proof, "leaf");
    var s :- Member(proof, "siblings");
    var items :- Elements(Or(s, JArray([])));
    var siblings :- DecodeSiblings(items, page);
    var root :- Member(proof, "root");
    Ok(JsProof(ToUint8(leaf, page), siblings, ToUint8(root, page)))
  }

  function DecodeEntry(entry: JsValue, page: bool): Try<JsEntry> {
    var record :- DecodeRecord(entry, page);
    var p :- Member(entry, "proof");
    var proof :- DecodeProof(p, page);
    Ok(JsEntry(record, proof))
  }

  function DecodeEntries(items: seq<JsValue>, page: bool): Try<seq<JsEntry>> {
    if items == [] then Ok([])
    else
      var first :- DecodeEntry(items[0], page);
      var rest :- DecodeEntries(items[1..], page);
      Ok([first] + rest)
  }

  function DecodeSignature(sig: JsValue, page: bool): Try<JsSignature> {
    var did :- Member(sig, "val_did");
    var key :- Member(sig, "val_pk");
    var s :- Member(sig, "sig");
    Ok(JsSignature(did, ToUint8(key, page), ToUint8(s, page)))
  }

  function DecodeSignatures(items: seq<JsValue>, page: bool): Try<seq<JsSignature>> {
    if items == [] then Ok([])
    else
      var first :- DecodeSignature(items[0], page);
      var rest :- DecodeSignatures(items[1..], page);
      Ok([first] + rest)
  }

  /** `decodeBundle` after cbor-x has parsed the bytes; `page` tells the page's copy from the
      service worker's. */
  function DecodeBundle(m: JsValue, page: bool): Try<JsBundle> {
    var version :- Member(m, "fmt_ver");
    if version != JNumber(1.0) then Threw
    else
      var ids :- Member(m, "identities");
      var idItems :- Elements(Or(ids, JArray([])));
      var identities :- DecodeEntries(idItems, page);
      var sigs :- Member(m, "signatures");
      var sigItems :- Elements(Or(sigs, JArray([])));
      var signatures :- DecodeSignatures(sigItems, page);
      DecodeHeader(m, identities, signatures, page)
  }

  /** The lists are decoded before the header. */
  lemma {:induction false} DecodesListsFirst(
      m: JsValue, ids: seq<JsValue>, entries: seq<JsEntry>, sigs: seq<JsValue>, signatures: seq<JsSignature>, page: bool)
    requires Member(m, "fmt_ver") == Ok(JNumber(1.0))
    requires Member(m, "identities").Ok? && Or(Member(m, "identities").value, JArray([])) == JArray(ids)
    requires Member(m, "signatures").Ok? && Or(Member(m, "signatures").value, JArray([])) == JArray(sigs)
    requires DecodeEntries(ids, page) == Ok(entries) && DecodeSignatures(sigs, page) == Ok(signatures)
    ensures DecodeBundle(m, page) == DecodeHeader(m, entries, signatures, page)
  {
  }

  function DecodeHeader(m: JsValue, identities: seq<JsEntry>, signatures: seq<JsSignature>, page: bool): Try<JsBundle> {
    var version :- Member(m, "fmt_ver");
    var snapBlock :- Member(m, "snap_block");
    var snapRoot :- Member(m, "snap_root");
    var issuedAt :- Member(m, "issued_at");
    var expiresAt :- Member(m, "expires_at");
    var threshold :- Member(m, "threshold");
    var valSet :- Member(m, "val_set");
    Ok(JsBundle(version, snapBlock, ToUint8(snapRoot, page), issuedAt, expiresAt, threshold,
      Or(valSet, JArray([])), identities, signatures, None))
  }

  // ----- buildSigningPayload

  /** An object literal. */
  function Literal(names: seq<string>, vals: seq<JsValue>): JsValue
    requires |names| == |vals|
  {
    JObject(seq(|names|, i requires 0 <= i < |names| => Prop(Ascii(names[i]), vals[i])))
  }

  const PROOF: seq<string> := ["leaf", "root", "siblings"]
  const SIBLING: seq<string> := ["h", "s"]
  const IDENTITY: seq<string> :=
    ["did", "issued_at", "issued_by", "meta", "proof", "pubkey", "revoked_at", "valid_until"]
  const BUNDLE: seq<string> :=
    ["expires_at", "fmt_ver", "identities", "issued_at", "signatures", "snap_block", "snap_root", "threshold", "val_set"]

  function SiblingPayload(s: JsSibling): JsValue { Literal(SIBLING, [s.h, s.s]) }

  function ProofPayload(p: JsProof): JsValue {
    Literal(PROOF, [p.leafHash, p.root, JArray(MapSeq(SiblingPayload, p.siblings))])
  }

  function EntryPayload(e: JsEntry): JsValue {
    var r := e.record;
    Literal(IDENTITY, [r.did, r.issuedAt, r.issuedBy, r.metadata, ProofPayload(e.proof), r.publicKey,
      r.revokedAt, r.validUntil])
  }

  /** The object that `buildSigningPayload` hands to the encoder. */
  function Payload(b: JsBundle): JsValue { PayloadWith(b, MapSeq(EntryPayload, b.identities)) }

  function PayloadWith(b: JsBundle, entries: seq<JsValue>): JsValue {
    Literal(BUNDLE, [b.expiresAt, b.fmtVer, JArray(entries), b.issuedAt, JArray([]), b.snapBlock, b.snapRoot,
      b.threshold, b.valSet])
  }

  /** `buildSigningPayload`; throws if the encoder does. */
  method BuildSigningPayload(b: JsBundle) returns (r: Option<ByteString>)
    ensures r == match ToCbor(Payload(b)) case None => None case Some(v) => Some(Encode(v))
  {
    r := EncodeCbor(Payload(b));
  }

  // ----- validateBundle

  /** The signature check on (public key, message, signature); it may throw on a malformed key. */
  type SigCheck = (JsValue, ByteString, JsValue) -> Try<bool>

  /** What a number comparison works on. */
  datatype Number = NaN | MinusInfinity | Finite(value: real) | PlusInfinity

  /** What the platform does: the signature check, what a comparison takes a text, a list, an object or
      a buffer for, SHA-256, and what the Merkle check makes of a proof that holds something other
      than bytes. */
  datatype Platform = Platform(
    check: SigCheck, coerce: JsValue -> Number, sha: Hash, odd: (JsProof, JsValue) -> bool)

  /** The number that a comparison takes `v` for. */
  function ToNumber(f: Platform, v: JsValue): Number {
    match v
    case JUndefined => NaN
    case JNull => Finite(0.0)
    case JBool(b) => Finite(if b then 1.0 else 0.0)
    case JNumber(r) => Finite(r)
    case JNaN => NaN
    case JInfinity(positive) => if positive then PlusInfinity else MinusInfinity
    case _ => f.coerce(v)
  }

  /** `x < y`; false if one of them is NaN. */
  predicate Below(x: Number, y: Number) {
    match (x, y)
    case (Finite(a), Finite(b)) => a < b
    case (MinusInfinity, Finite(_)) => true
    case (MinusInfinity, PlusInfinity) => true
    case (Finite(_), PlusInfinity) => true
    case _ => false
  }

  /** `n < v` */
  predicate LessThan(f: Platform, n: int, v: JsValue) { Below(Finite(n as real), ToNumber(f, v)) }

  /** `n > v` */
  predicate Exceeds(f: Platform, n: int, v: JsValue) { Below(ToNumber(f, v), Finite(n as real)) }

  /** `v <= n` */
  predicate AtMost(f: Platform, v: JsValue, n: int) {
    Exceeds(f, n, v) || ToNumber(f, v) == Finite(n as real)
  }

  /** How many of the signatures check; throws if one of the checks throws. */
  function CountValid(check: SigCheck, sigs: seq<JsSignature>, message: ByteString): (r: Try<nat>)
    ensures r.Ok? ==> r.value <= |sigs|
  {
    if sigs == [] then Ok(0)
    else
      var rest :- CountValid(check, sigs[..|sigs| - 1], message);
      var s := sigs[|sigs| - 1];
      var ok :- check(s.validatorPubkey, message, s.signature);
      Ok(if ok then rest + 1 else rest)
  }

  /** What validation returns: the bundle with the count of valid signatures attached. */
  function Validated(f: Platform, b: JsBundle, now: int): Try<JsBundle> {
    if b.fmtVer != JNumber(1.0) || AtMost(f, b.expiresAt, now) then Threw
    else
      match ToCbor(Payload(b))
      case None => Threw
      case Some(v) =>
        var count :- CountValid(f.check, b.signatures, Encode(v));
        if LessThan(f, count, b.threshold) then Threw else Ok(b.(validSigCount := Some(count)))
  }

  /** The signature checks. */
  predicate Checks(check: SigCheck, s: JsSignature, message: ByteString) {
    check(s.validatorPubkey, message, s.signature) == Ok(true)
  }

  /** The positions of the signatures that check. */
  ghost function Checking(check: SigCheck, sigs: seq<JsSignature>, message: ByteString): set<int> {
    set i | 0 <= i < |sigs| && Checks(check, sigs[i], message)
  }

  ghost predicate SomeThrows(check: SigCheck, sigs: seq<JsSignature>, message: ByteString) {
    exists i :: 0 <= i < |sigs| && check(sigs[i].validatorPubkey, message, sigs[i].signature).Threw?
  }

  /** The count is that of the signatures that check, and it fails exactly if one of the checks throws. */
  lemma {:induction false} CountMeans(check: SigCheck, sigs: seq<JsSignature>, message: ByteString)
    ensures CountValid(check, sigs, message) ==
      if SomeThrows(check, sigs, message) then Threw else Ok(|Checking(check, sigs, message)|)
  {
    if sigs == [] {
      assert Checking(check, sigs, message) == {};
    } else {
      var n := |sigs| - 1;
      CountMeans(check, sigs[..n], message);
      CheckingNext(check, sigs, message);
    }
  }

  lemma {:induction false} CheckingNext(check: SigCheck, sigs: seq<JsSignature>, message: ByteString)
    requires sigs != []
    ensures var n := |sigs| - 1;
      && (SomeThrows(check, sigs, message) <==>
            SomeThrows(check, sigs[..n], message) || check(sigs[n].validatorPubkey, message, sigs[n].signature).Threw?)
      && |Checking(check, sigs, message)| ==
           |Checking(check, sigs[..n], message)| + if Checks(check, sigs[n], message) then 1 else 0
  {
    var n := |sigs| - 1;
    if SomeThrows(check, sigs[..n], message) {
      var i :| 0 <= i < n && check(sigs[..n][i].validatorPubkey, message, sigs[..n][i].signature).Threw?;
      assert sigs[i] == sigs[..n][i];
    }
    if SomeThrows(check, sigs, message) {
      var i :| 0 <= i < |sigs| && check(sigs[i].validatorPubkey, message, sigs[i].signature).Threw?;
      if i < n { assert sigs[i] == sigs[..n][i]; }
    }
    assert Checking(check, sigs, message) ==
      Checking(check, sigs[..n], message) + if Checks(check, sigs[n], message) then {n} else {};
  }

  /** At second `now` the expiry has come: it is a number that is not above it. */
  ghost predicate IsExpired(f: Platform, b: JsBundle, now: int) {
    match ToNumber(f, b.expiresAt)
    case Finite(r) => r <= now as real
    case MinusInfinity => true
    case _ => false
  }

  /** The threshold is a number above `n`. */
  ghost predicate AsksMoreThan(f: Platform, b: JsBundle, n: int) {
    match ToNumber(f, b.threshold)
    case Finite(r) => r > n as real
    case PlusInfinity => true
    case _ => false
  }

  /** What the signatures of a bundle are over, if it can be encoded. */
  ghost function MessageOf(b: JsBundle): Option<ByteString> {
    match ToCbor(Payload(b)) case None => None case Some(v) => Some(Encode(v))
  }

  /** A bundle of version 1 that has not expired and can be encoded, none of whose signature checks throws, and
      of which no more signatures are asked for than check. */
  ghost predicate Passes(f: Platform, b: JsBundle, now: int) {
    && b.fmtVer == JNumber(1.0) && !IsExpired(f, b, now) && MessageOf(b).Some?
    && !SomeThrows(f.check, b.signatures, MessageOf(b).value)
    && !AsksMoreThan(f, b, |Checking(f.check, b.signatures, MessageOf(b).value)|)
  }

  /** Validation returns exactly those, with the number of signatures that check attached. */
  lemma {:induction false} ValidatesIff(f: Platform, b: JsBundle, now: int)
    ensures Validated(f, b, now) ==
      if Passes(f, b, now) then
        Ok(b.(validSigCount := Some(|Checking(f.check, b.signatures, MessageOf(b).value)|)))
      else Threw
  {
    if MessageOf(b).Some? { CountMeans(f.check, b.signatures, MessageOf(b).value); }
  }

  /** A bundle of the right version that has not expired passes if enough of its signatures count. */
  lemma {:induction false} Validates(f: Platform, b: JsBundle, v: Value, count: nat, now: int)
    requires b.fmtVer == JNumber(1.0) && !AtMost(f, b.expiresAt, now) && ToCbor(Payload(b)) == Some(v)
    requires CountValid(f.check, b.signatures, Encode(v)) == Ok(count) && !LessThan(f, count, b.threshold)
    ensures Validated(f, b, now) == Ok(b.(validSigCount := Some(count)))
  {
  }

  /** `validateBundle` at second `now`. */
  method ValidateBundle(f: Platform, b: JsBundle, now: int) returns (r: Try<JsBundle>)
    ensures r == Validated(f, b, now)
  {
    if b.fmtVer != JNumber(1.0) { return Threw; }
    if AtMost(f, b.expiresAt, now) { return Threw; }
    var payload := BuildSigningPayload(b);
    if payload.None? { return Threw; }
    var validSigCount := CountSignatures(f.check, b.signatures, payload.value);
    if validSigCount.Threw? { return Threw; }
    if LessThan(f, validSigCount.value, b.threshold) { return Threw; }
    r := Ok(b.(validSigCount := Some(validSigCount.value)));
  }

  /** The loop over the signatures. */
  method CountSignatures(check: SigCheck, sigs: seq<JsSignature>, message: ByteString) returns (r: Try<nat>)
    ensures r == CountValid(check, sigs, message)
  {
    var validSigCount := 0;
    for i := 0 to |sigs|
      invariant CountValid(check, sigs[..i], message) == Ok(validSigCount)
    {
      var ok := check(sigs[i].validatorPubkey, message, sigs[i].signature);
      assert sigs[..i + 1][..i] == sigs[..i];
      if ok.Threw? {
        CountThrows(check, sigs, message, i);
        return Threw;
      }
      if ok.value { validSigCount := validSigCount + 1; }
    }
    assert sigs[..|sigs|] == sigs;
    r := Ok(validSigCount);
  }

  lemma {:induction false} CountThrows(check: SigCheck, sigs: seq<JsSignature>, message: ByteString, i: nat)
    requires i < |sigs| && check(sigs[i].validatorPubkey, message, sigs[i].signature).Threw?
    ensures CountValid(check, sigs, message).Threw?
  {
    if i < |sigs| - 1 { CountThrows(check, sigs[..|sigs| - 1], message, i); }
  }
}
