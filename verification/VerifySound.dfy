/** Soundness of the offline check: what `verify` calls VALID was an active record of a log that
    an honest validator bundled. */
module VerifySound {
  import opened Bytes
  import opened Sorting
  import opened Cbor
  import opened CborLaws
  import opened Fields
  import opened Models
  import opened PyValues
  import opened Bundle
  import opened Verify

  // ----- what was read from a file can be encoded again

  lemma {:induction false} RecordFromValid(d: Value)
    requires Valid(d) && RecordFrom(d).Ok?
    ensures forall i :: 0 <= i < |RECORD| ==> Valid(RecordFields(RecordFrom(d).value)[i])
  {
    ItemValid(d, "did");
    ItemValid(d, "pubkey");
    PyBytesValid(Item(d, "pubkey").value);
    ItemValid(d, "issued_at");
    ItemValid(d, "issued_by");
    PyListValid(Item(d, "issued_by").value);
    GetValid(d.entries, "meta", Map([]));
    PyDictValid(Get(d.entries, "meta", Map([])));
    GetValid(d.entries, "valid_until", Null);
    GetValid(d.entries, "revoked_at", Null);
  }

  lemma {:induction false} SiblingFromValid(d: Value)
    requires Valid(d) && SiblingFrom(d).Ok?
    ensures Valid(SiblingValue(SiblingFrom(d).value))
  {
    ItemValid(d, "h");
    PyBytesValid(Item(d, "h").value);
    ItemValid(d, "s");
    SiblingNames();
    ValidMapIff(SIBLING, SiblingFields(SiblingFrom(d).value));
  }

  lemma {:induction false} SiblingsFromValid(items: seq<Value>)
    requires (forall i :: 0 <= i < |items| ==> Valid(items[i])) && SiblingsFrom(items).Ok?
    ensures forall i :: 0 <= i < |items| ==> Valid(SiblingValue(SiblingsFrom(items).value[i]))
  {
    if items == [] {
    } else {
      SiblingFromValid(items[0]);
      SiblingsFromValid(items[1..]);
    }
  }

  lemma {:induction false} ProofFromValid(d: Value)
    requires Valid(d) && ProofFrom(d).Ok?
    ensures Valid(ProofValue(ProofFrom(d).value))
  {
    var p := ProofFrom(d).value;
    ItemValid(d, "leaf");
    PyBytesValid(Item(d, "leaf").value);
    ItemValid(d, "siblings");
    var items := PyList(Item(d, "siblings").value).value;
    PyListValid(Item(d, "siblings").value);
    ValidArrayIff(items);
    SiblingsFromValid(items);
    ValidArrayIff(MapSeq(SiblingValue, p.siblings));
    ItemValid(d, "root");
    PyBytesValid(Item(d, "root").value);
    ProofNames();
    ValidMapIff(PROOF, ProofFields(p));
  }

  lemma {:induction false} EntryFromValid(d: Value)
    requires Valid(d) && EntryFrom(d).Ok?
    ensures Valid(IdentityValue(EntryFrom(d).value))
  {
    var e := EntryFrom(d).value;
    RecordFromValid(d);
    ItemValid(d, "proof");
    ProofFromValid(Item(d, "proof").value);
    IdentityFieldsValid(e);
  }

  lemma {:induction false} IdentityFieldsValid(e: IdentityEntry)
    ensures Valid(IdentityValue(e)) <==>
      Valid(ProofValue(e.proof)) && forall i :: 0 <= i < |RECORD| ==> Valid(RecordFields(e.record)[i])
  {
    IdentityNames();
    ValidMapIff(IDENTITY, IdentityFields(e));
    var f, r := IdentityFields(e), RecordFields(e.record);
    assert r[0] == f[0] && r[1] == f[1] && r[2] == f[2] && r[3] == f[3];
    assert r[4] == f[5] && r[5] == f[6] && r[6] == f[7] && f[4] == ProofValue(e.proof);
  }

  lemma {:induction false} EntriesFromValid(items: seq<Value>)
    requires (forall i :: 0 <= i < |items| ==> Valid(items[i])) && EntriesFrom(items).Ok?
    ensures forall i :: 0 <= i < |items| ==> Valid(IdentityValue(EntriesFrom(items).value[i]))
  {
    if items == [] {
    } else {
      EntryFromValid(items[0]);
      EntriesFromValid(items[1..]);
    }
  }

  /** The document that `verify` rebuilds for the signature check has an encoding of its own. */
  lemma {:induction false} ReadValid(m: Value)
    requires Valid(m) && BundleFrom(m).Ok?
    ensures Valid(SigningValue(BundleFrom(m).value))
  {
    var b := BundleFrom(m).value;
    IdentitiesValid(m);
    HeaderFromValid(m, b.identities, b.signatures);
  }

  lemma {:induction false} IdentitiesValid(m: Value)
    requires Valid(m) && BundleFrom(m).Ok?
    ensures Valid(Array(MapSeq(IdentityValue, BundleFrom(m).value.identities)))
  {
    var list := Get(m.entries, "identities", Array([]));
    GetValid(m.entries, "identities", Array([]));
    PyListValid(list);
    var ids := PyList(list).value;
    ValidArrayIff(ids);
    EntriesFromValid(ids);
    var entries := EntriesFrom(ids).value;
    assert BundleFrom(m).value.identities == entries;
    ValidArrayIff(MapSeq(IdentityValue, entries));
  }

  lemma {:induction false} HeaderFromValid(m: Value, identities: seq<IdentityEntry>, signatures: seq<Signature>)
    requires Valid(m) && HeaderFrom(m, identities, signatures).Ok?
    requires Valid(Array(MapSeq(IdentityValue, identities)))
    ensures Valid(SigningValue(HeaderFrom(m, identities, signatures).value))
  {
    ItemValid(m, "fmt_ver");
    ItemValid(m, "snap_block");
    ItemValid(m, "snap_root");
    PyBytesValid(Item(m, "snap_root").value);
    ItemValid(m, "issued_at");
    ItemValid(m, "expires_at");
    ItemValid(m, "threshold");
    ItemValid(m, "val_set");
    PyListValid(Item(m, "val_set").value);
    BundleNames();
    ValidArrayIff([]);
    ValidMapIff(BUNDLE, BundleFields(HeaderFrom(m, identities, signatures).value, []));
  }

  // ----- a bundle's signing bytes are never as short as a digest

  lemma {:induction false} LongEntries(es: seq<Entry>)
    requires forall e :: e in es ==> |e.key| >= 7
    ensures |EncodeEntries(es)| >= 9 * |es|
  {
    if es == [] {
    } else {
      assert es[0] in es;
      forall e | e in es[1..] ensures e in es {}
      LongEntries(es[1..]);
    }
  }

  lemma {:induction false} LongFields(vals: seq<Value>)
    requires |vals| == |BUNDLE|
    ensures |Encode(MapOf(BUNDLE, vals))| > 32
  {
    var fields := FieldEntries(BUNDLE, vals);
    var ces := CanonEntries(fields);
    LongNames(fields, ces);
    LongEntries(SortEntries(ces));
    assert Canon(MapOf(BUNDLE, vals)) == Map(SortEntries(ces));
  }

  lemma {:induction false} LongNames(fields: seq<Entry>, ces: seq<Entry>)
    requires ces == CanonEntries(fields) && |fields| == |BUNDLE|
    requires forall i :: 0 <= i < |BUNDLE| ==> fields[i].key == Ascii(BUNDLE[i])
    ensures forall e :: e in SortEntries(ces) ==> |e.key| >= 7
  {
    CanonEntriesAt(fields);
    SameElements(ces, SortEntries(ces));
    forall e | e in SortEntries(ces) ensures |e.key| >= 7 {
      assert e in ces;
      var i :| 0 <= i < |ces| && ces[i] == e;
      ShortestName(i);
    }
  }

  /** Enrolment digests are 32 bytes; no signature on one of them is a signature on a bundle. */
  lemma {:induction false} SigningBytesAreLong(b: TrustBundle)
    ensures |SigningBytes(b)| > 32
  {
    LongFields(BundleFields(b, []));
  }

  lemma {:induction false} ShortestName(i: nat)
    requires i < |BUNDLE|
    ensures |BUNDLE[i]| >= 7
  {
  }

  // ----- soundness

  /** What was signed with a key is payloads of generated bundles and 32-byte enrolment digests. */
  ghost predicate SignsOnlyBundles(w: World, signed: set<ByteString>, history: set<Generation>) {
    forall message :: message in signed ==> |message| == 32 || exists g :: g in history && IsPayload(w, message, g)
  }

  /** Signature `k` of the bundle is no forgery: if it checks, its message was signed. */
  ghost predicate Unforged(w: World, b: TrustBundle, k: nat, signed: set<ByteString>)
    requires k < |b.signatures|
  {
    w.check(b.signatures[k].publicKey, SigningBytes(b), b.signatures[k].signature) ==> SigningBytes(b) in signed
  }

  ghost predicate IsPayload(w: World, message: ByteString, g: Generation) {
    && g.now + g.grace >= 0
    && Valid(SigningValue(Unsigned(w.sha, g)))
    && message == SigningBytes(Unsigned(w.sha, g))
  }

  /** The record of `e` is, up to the order of metadata, an active record of the log. */
  ghost predicate FromLog(r: Record, active: Record, g: Generation) {
    active in g.log && active.IsActive() && Same(RecordValue(r), RecordValue(active))
  }

  lemma {:induction false} SameIdentityRecords(e: IdentityEntry, f: IdentityEntry)
    requires Same(IdentityValue(e), IdentityValue(f))
    ensures Same(RecordValue(e.record), RecordValue(f.record)) && Same(e.record.did, f.record.did)
  {
    IdentityNames();
    RecordNames();
    var a, b := IdentityFields(e), IdentityFields(f);
    SameMapIff(IDENTITY, a, b);
    assert forall i :: 0 <= i < |a| ==> Same(a[i], b[i]);
    var r, s := RecordFields(e.record), RecordFields(f.record);
    assert Same(a[0], b[0]) && Same(a[1], b[1]) && Same(a[2], b[2]) && Same(a[3], b[3]);
    assert Same(a[5], b[5]) && Same(a[6], b[6]) && Same(a[7], b[7]);
    assert r[4] == a[5] && r[5] == a[6] && r[6] == a[7];
    assert s[4] == b[5] && s[5] == b[6] && s[6] == b[7];
    SameMapIff(RECORD, r, s);
  }

  /** Bundles with the same signing value have the same expiry and, entry by entry, the same
      records. */
  lemma {:induction false} SameSigned(b: TrustBundle, c: TrustBundle, i: nat)
    requires Same(SigningValue(b), SigningValue(c)) && i < |b.identities|
    ensures |b.identities| == |c.identities| && Same(b.expiresAt, c.expiresAt)
    ensures Same(IdentityValue(b.identities[i]), IdentityValue(c.identities[i]))
  {
    BundleNames();
    var x, y := BundleFields(b, []), BundleFields(c, []);
    SameMapIff(BUNDLE, x, y);
    assert Same(x[0], y[0]) && Same(x[2], y[2]);
    var xs, ys := MapSeq(IdentityValue, b.identities), MapSeq(IdentityValue, c.identities);
    assert Same(Array(xs), Array(ys));
    assert Same(xs[i], ys[i]);
  }

  lemma {:induction false} ActiveOfEntry(sha: Hash, g: Generation, i: nat)
    requires g.now + g.grace >= 0 && i < |Unsigned(sha, g).identities|
    ensures var r := Unsigned(sha, g).identities[i].record; r in g.log && r.IsActive()
  {
    var active := SortedActive(g.log);
    SameElements(active, ActiveRecords(g.log));
    assert active[i] in active;
  }

  /** What an answer VALID has checked. */
  lemma {:induction false} ValidMeans(
      w: World, b: TrustBundle, did: ByteString, now: real, expires: Value, record: Option<Record>)
    returns (i: nat)
    requires VerifyBundle(w, b, did, now) == Result(VALID, expires, record)
    ensures AllSignaturesHold(w, b.signatures, SigningBytes(b.(signatures := [])))
    ensures expires == b.expiresAt && AsNumber(expires).Some? && now < AsNumber(expires).value as real
    ensures i < |b.identities| && b.identities[i].record.did == Text(did) && record == Some(b.identities[i].record)
  {
    i := IncludedMeans(w, b, did, expires, record);
  }

  lemma {:induction false} IncludedMeans(
      w: World, b: TrustBundle, did: ByteString, expires: Value, record: Option<Record>)
    returns (i: nat)
    requires CheckInclusion(w, b, did) == Result(VALID, expires, record)
    ensures expires == b.expiresAt
    ensures i < |b.identities| && b.identities[i].record.did == Text(did) && record == Some(b.identities[i].record)
  {
    var e := FindDid(b.identities, did).value;
    i :| 0 <= i < |b.identities| && b.identities[i] == e;
  }

  lemma {:induction false} SignedByHistory(
      w: World, b: TrustBundle, k: nat, signed: set<ByteString>, history: set<Generation>) returns (g: Generation)
    requires k < |b.signatures| && AllSignaturesHold(w, b.signatures, SigningBytes(b))
    requires Unforged(w, b, k, signed) && SignsOnlyBundles(w, signed, history)
    ensures g in history && IsPayload(w, SigningBytes(b), g)
  {
    SigningBytesAreLong(b);
    var message := SigningBytes(b);
    assert message in signed;
    g :| g in history && IsPayload(w, message, g);
  }

  /** End-to-end soundness: if `verify` answers VALID for a record, some signature on the bundle is no
      forgery, and with that key nothing was signed but bundles of its owner and 32-byte digests, then
      the record is an active record of a log that this validator bundled, its DID is the one asked
      for, and the bundle generated from that log has not expired. Nothing is assumed of SHA-256, nor
      of the bytes but that their maps, if they parse, have texts as keys, each of them once. */
  lemma {:induction false} VerifySound(w: World, raw: ByteString, b: TrustBundle, did: ByteString, now: real,
                    expires: Value, record: Record, k: nat, signed: set<ByteString>, history: set<Generation>)
    requires w.loads(raw).Some? ==> Valid(w.loads(raw).value)
    requires VerifyFile(w, raw, did, now) == Result(VALID, expires, Some(record))
    requires Read(w, raw) == Ok(b) && k < |b.signatures|
    requires Unforged(w, b, k, signed) && SignsOnlyBundles(w, signed, history)
    ensures exists g, r ::
      && g in history && FromLog(record, r, g) && r.did == Text(did) && g.now + g.grace >= 0
      && expires == UInt(g.now + g.grace) && now < (g.now + g.grace) as real
  {
    var i := ValidMeans(w, b, did, now, expires, Some(record));
    assert SigningBytes(b.(signatures := [])) == SigningBytes(b);
    var g := SignedByHistory(w, b, k, signed, history);
    ReadValid(w.loads(raw).value);
    SignedEntry(w, b, g, i);
    var r := Unsigned(w.sha, g).identities[i].record;
    assert g in history && FromLog(record, r, g) && r.did == Text(did);
  }

  /** The i-th entry of a bundle that carries a validator's signing bytes. */
  lemma {:induction false} SignedEntry(w: World, b: TrustBundle, g: Generation, i: nat)
    requires Valid(SigningValue(b)) && IsPayload(w, SigningBytes(b), g) && i < |b.identities|
    ensures var u := Unsigned(w.sha, g);
      && i < |u.identities| && FromLog(b.identities[i].record, u.identities[i].record, g)
      && Same(b.identities[i].record.did, u.identities[i].record.did)
      && Same(b.expiresAt, u.expiresAt)
  {
    var u := Unsigned(w.sha, g);
    EncodeIffSame(SigningValue(b), SigningValue(u));
    SameSigned(b, u, i);
    SameIdentityRecords(b.identities[i], u.identities[i]);
    ActiveOfEntry(w.sha, g, i);
  }
}
