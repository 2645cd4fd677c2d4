/** Completeness of the offline check: what `generate_bundle` publishes verifies as VALID for every
    active record and as NOT_FOUND for every other DID, until it expires. */
module VerifyComplete {
  import opened Bytes
  import opened Sorting
  import opened Cbor
  import opened CborLaws
  import opened Fields
  import opened Models
  import opened PyValues
  import opened Bundle
  import opened Verify
  import opened VerifySound
  import Merkle
  import MerkleLaws

  // ----- reading back what was written

  /** A field of a document that is the same as the one written. */
  lemma {:induction false} FieldReadBack(d: Value, names: seq<string>, vals: seq<Value>, i: nat)
    requires GoodNames(names) && |names| == |vals| && i < |names|
    requires Valid(d) && Valid(MapOf(names, vals)) && Same(d, MapOf(names, vals))
    ensures d.Map? && Item(d, names[i]).Ok? && Same(Item(d, names[i]).value, vals[i])
    ensures forall default :: Get(d.entries, names[i], default) == Item(d, names[i]).value
    ensures Valid(Item(d, names[i]).value)
  {
    LookupSame(d.entries, names, vals, i);
    LookupValid(d.entries, Ascii(names[i]));
  }

  lemma {:induction false} SiblingReadBack(d: Value, s: Sibling)
    requires Valid(d) && Valid(SiblingValue(s)) && Same(d, SiblingValue(s)) && s.side.Text?
    ensures SiblingFrom(d) == Ok(s)
  {
    SiblingNames();
    FieldReadBack(d, SIBLING, SiblingFields(s), 0);
    FieldReadBack(d, SIBLING, SiblingFields(s), 1);
  }

  lemma {:induction false} SiblingsReadBack(items: seq<Value>, siblings: seq<Sibling>)
    requires |items| == |siblings|
    requires forall i :: 0 <= i < |items| ==> Valid(items[i]) && Valid(SiblingValue(siblings[i]))
    requires forall i :: 0 <= i < |items| ==> Same(items[i], SiblingValue(siblings[i])) && siblings[i].side.Text?
    ensures SiblingsFrom(items) == Ok(siblings)
  {
    forall i | 0 <= i < |items| ensures SiblingFrom(items[i]) == Ok(siblings[i]) {
      SiblingReadBack(items[i], siblings[i]);
    }
    SiblingsAreRead(items, siblings);
  }

  lemma {:induction false} SiblingsAreRead(items: seq<Value>, siblings: seq<Sibling>)
    requires |items| == |siblings| && forall i :: 0 <= i < |items| ==> SiblingFrom(items[i]) == Ok(siblings[i])
    ensures SiblingsFrom(items) == Ok(siblings)
  {
    if items == [] {
    } else {
      SiblingsAreRead(items[1..], siblings[1..]);
      assert siblings == [siblings[0]] + siblings[1..];
    }
  }

  ghost predicate TextSides(p: MerkleProof) {
    forall i :: 0 <= i < |p.siblings| ==> p.siblings[i].side.Text?
  }

  lemma {:induction false} ProofReadBack(d: Value, p: MerkleProof)
    requires Valid(d) && Valid(ProofValue(p)) && Same(d, ProofValue(p)) && TextSides(p)
    ensures ProofFrom(d) == Ok(p)
  {
    ProofNames();
    var vals := ProofFields(p);
    FieldReadBack(d, PROOF, vals, 0);
    FieldReadBack(d, PROOF, vals, 1);
    FieldReadBack(d, PROOF, vals, 2);
    ValidMapIff(PROOF, vals);
    var items := Item(d, "siblings").value.items;
    ValidArrayIff(items);
    assert Valid(vals[2]);
    ValidArrayIff(MapSeq(SiblingValue, p.siblings));
    SiblingsReadBack(items, p.siblings);
  }

  /** The record that comes back is the same up to the order of its metadata. */
  ghost predicate SameRecord(r: Record, s: Record) {
    forall i :: 0 <= i < |RECORD| ==> Same(RecordFields(r)[i], RecordFields(s)[i])
  }

  ghost predicate SameEntry(e: IdentityEntry, f: IdentityEntry) {
    SameRecord(e.record, f.record) && e.proof == f.proof
  }

  lemma {:induction false} RecordReadBack(d: Value, e: IdentityEntry)
    requires Valid(d) && Valid(IdentityValue(e)) && Same(d, IdentityValue(e))
    ensures RecordFrom(d).Ok? && SameRecord(RecordFrom(d).value, e.record)
  {
    IdentityNames();
    var vals := IdentityFields(e);
    FieldReadBack(d, IDENTITY, vals, 0);
    FieldReadBack(d, IDENTITY, vals, 1);
    FieldReadBack(d, IDENTITY, vals, 2);
    FieldReadBack(d, IDENTITY, vals, 3);
    FieldReadBack(d, IDENTITY, vals, 5);
    FieldReadBack(d, IDENTITY, vals, 6);
    FieldReadBack(d, IDENTITY, vals, 7);
  }

  lemma {:induction false} EntryReadBack(d: Value, e: IdentityEntry)
    requires Valid(d) && Valid(IdentityValue(e)) && Same(d, IdentityValue(e)) && TextSides(e.proof)
    ensures EntryFrom(d).Ok? && SameEntry(EntryFrom(d).value, e)
  {
    RecordReadBack(d, e);
    IdentityNames();
    FieldReadBack(d, IDENTITY, IdentityFields(e), 4);
    IdentityFieldsValid(e);
    ProofReadBack(Item(d, "proof").value, e.proof);
  }

  lemma {:induction false} EntriesReadBack(items: seq<Value>, es: seq<IdentityEntry>)
    requires |items| == |es|
    requires forall i :: 0 <= i < |items| ==> Valid(items[i]) && Valid(IdentityValue(es[i]))
    requires forall i :: 0 <= i < |items| ==> Same(items[i], IdentityValue(es[i])) && TextSides(es[i].proof)
    ensures EntriesFrom(items).Ok? && |EntriesFrom(items).value| == |es|
    ensures forall i :: 0 <= i < |es| ==> SameEntry(EntriesFrom(items).value[i], es[i])
  {
    if items == [] {
    } else {
      EntryReadBack(items[0], es[0]);
      EntriesReadBack(items[1..], es[1..]);
    }
  }

  lemma {:induction false} SignatureReadBack(d: Value, s: Signature)
    requires Valid(d) && Valid(SignatureValue(s)) && Same(d, SignatureValue(s)) && s.validatorDid.Text?
    ensures SignatureFrom(d) == Ok(s)
  {
    SignatureNames();
    FieldReadBack(d, SIGNATURE, SignatureFields(s), 0);
    FieldReadBack(d, SIGNATURE, SignatureFields(s), 1);
    FieldReadBack(d, SIGNATURE, SignatureFields(s), 2);
  }

  lemma {:induction false} SignaturesReadBack(items: seq<Value>, sigs: seq<Signature>)
    requires |items| == |sigs|
    requires forall i :: 0 <= i < |items| ==> Valid(items[i]) && Valid(SignatureValue(sigs[i]))
    requires forall i :: 0 <= i < |items| ==> Same(items[i], SignatureValue(sigs[i])) && sigs[i].validatorDid.Text?
    ensures SignaturesFrom(items) == Ok(sigs)
  {
    forall i | 0 <= i < |items| ensures SignatureFrom(items[i]) == Ok(sigs[i]) {
      SignatureReadBack(items[i], sigs[i]);
    }
    SignaturesAreRead(items, sigs);
  }

  lemma {:induction false} SignaturesAreRead(items: seq<Value>, sigs: seq<Signature>)
    requires |items| == |sigs| && forall i :: 0 <= i < |items| ==> SignatureFrom(items[i]) == Ok(sigs[i])
    ensures SignaturesFrom(items) == Ok(sigs)
  {
    if items == [] {
    } else {
      SignaturesAreRead(items[1..], sigs[1..]);
      assert sigs == [sigs[0]] + sigs[1..];
    }
  }

  /** The bundle that comes back from the bytes of `b`. */
  ghost predicate ReadBack(c: TrustBundle, b: TrustBundle) {
    && c.expiresAt == b.expiresAt && c.threshold == b.threshold && c.snapshotRoot == b.snapshotRoot
    && c.signatures == b.signatures
    && |c.identities| == |b.identities|
    && (forall i :: 0 <= i < |b.identities| ==> SameEntry(c.identities[i], b.identities[i]))
    && Same(SigningValue(c), SigningValue(b))
  }

  ghost predicate PlainHeader(b: TrustBundle) {
    && b.formatVersion == UInt(1) && b.snapshotBlock.UInt? && b.issuedAt.UInt? && b.expiresAt.UInt?
    && b.threshold.UInt?
    && (forall i :: 0 <= i < |b.identities| ==> TextSides(b.identities[i].proof))
    && (forall i :: 0 <= i < |b.signatures| ==> b.signatures[i].validatorDid.Text?)
  }

  /** The header fields of `c` are those of `b`. */
  ghost predicate SameHeader(c: TrustBundle, b: TrustBundle) {
    && c.expiresAt == b.expiresAt && c.threshold == b.threshold && c.snapshotRoot == b.snapshotRoot
    && c.formatVersion == b.formatVersion && c.issuedAt == b.issuedAt && c.snapshotBlock == b.snapshotBlock
    && Same(Array(c.validatorSet), Array(b.validatorSet))
  }

  lemma {:induction false} HeaderReadBack(m: Value, b: TrustBundle, ids: seq<IdentityEntry>)
    returns (c: TrustBundle)
    requires Valid(m) && Valid(PublishedValue(b)) && Same(m, PublishedValue(b)) && PlainHeader(b)
    ensures HeaderFrom(m, ids, b.signatures) == Ok(c) && SameHeader(c, b)
    ensures c.identities == ids && c.signatures == b.signatures
  {
    BundleNames();
    var vals := BundleFields(b, MapSeq(SignatureValue, b.signatures));
    FieldReadBack(m, BUNDLE, vals, 0);
    FieldReadBack(m, BUNDLE, vals, 1);
    FieldReadBack(m, BUNDLE, vals, 3);
    FieldReadBack(m, BUNDLE, vals, 5);
    FieldReadBack(m, BUNDLE, vals, 6);
    FieldReadBack(m, BUNDLE, vals, 7);
    FieldReadBack(m, BUNDLE, vals, 8);
    c := HeaderFrom(m, ids, b.signatures).value;
  }

  lemma {:induction false} SameIdentities(es: seq<IdentityEntry>, fs: seq<IdentityEntry>)
    requires |es| == |fs| && forall i :: 0 <= i < |fs| ==> SameEntry(es[i], fs[i])
    requires forall i :: 0 <= i < |fs| ==> Valid(IdentityValue(fs[i]))
    ensures Same(Array(MapSeq(IdentityValue, es)), Array(MapSeq(IdentityValue, fs)))
  {
    forall i | 0 <= i < |fs| ensures Same(IdentityValue(es[i]), IdentityValue(fs[i])) {
      SameIdentity(es[i], fs[i]);
    }
  }

  lemma {:induction false} SameIdentity(e: IdentityEntry, f: IdentityEntry)
    requires SameEntry(e, f) && Valid(IdentityValue(f))
    ensures Same(IdentityValue(e), IdentityValue(f))
  {
    IdentityNames();
    IdentityFieldsValid(f);
    SameReflexive(ProofValue(f.proof));
    var a, b, r, s := IdentityFields(e), IdentityFields(f), RecordFields(e.record), RecordFields(f.record);
    assert Same(r[0], s[0]) && Same(r[1], s[1]) && Same(r[2], s[2]) && Same(r[3], s[3]);
    assert Same(r[4], s[4]) && Same(r[5], s[5]) && Same(r[6], s[6]);
    assert forall i :: 0 <= i < |a| ==> Same(a[i], b[i]);
    SameMapIff(IDENTITY, a, b);
  }

  lemma {:induction false} IdentitiesReadBack(m: Value, b: TrustBundle)
    requires Valid(m) && Valid(PublishedValue(b)) && Same(m, PublishedValue(b)) && PlainHeader(b)
    ensures m.Map?
    ensures var ids := PyList(Get(m.entries, "identities", Array([])));
      ids.Ok? && var es := EntriesFrom(ids.value);
      && es.Ok? && |es.value| == |b.identities|
      && (forall i :: 0 <= i < |b.identities| ==> SameEntry(es.value[i], b.identities[i]))
      && (forall i :: 0 <= i < |b.identities| ==> Valid(IdentityValue(b.identities[i])))
  {
    BundleNames();
    var vals := BundleFields(b, MapSeq(SignatureValue, b.signatures));
    FieldReadBack(m, BUNDLE, vals, 2);
    ValidMapIff(BUNDLE, vals);
    assert Valid(vals[2]);
    var items, es := Item(m, "identities").value.items, MapSeq(IdentityValue, b.identities);
    ValidArrayIff(items);
    ValidArrayIff(es);
    forall i | 0 <= i < |es| ensures Same(items[i], IdentityValue(b.identities[i])) && Valid(IdentityValue(b.identities[i])) {
      assert Same(items[i], es[i]) && Valid(es[i]);
    }
    EntriesReadBack(items, b.identities);
  }

  lemma {:induction false} SignatureListReadBack(m: Value, b: TrustBundle)
    requires Valid(m) && Valid(PublishedValue(b)) && Same(m, PublishedValue(b)) && PlainHeader(b)
    ensures m.Map?
    ensures var sigs := PyList(Get(m.entries, "signatures", Array([])));
      sigs.Ok? && SignaturesFrom(sigs.value) == Ok(b.signatures)
  {
    BundleNames();
    var vals := BundleFields(b, MapSeq(SignatureValue, b.signatures));
    FieldReadBack(m, BUNDLE, vals, 4);
    ValidMapIff(BUNDLE, vals);
    assert Valid(vals[4]);
    var items, sigs := Item(m, "signatures").value.items, MapSeq(SignatureValue, b.signatures);
    ValidArrayIff(items);
    ValidArrayIff(sigs);
    forall i | 0 <= i < |sigs| ensures Same(items[i], SignatureValue(b.signatures[i])) && Valid(SignatureValue(b.signatures[i])) {
      assert Same(items[i], sigs[i]) && Valid(sigs[i]);
    }
    SignaturesReadBack(items, b.signatures);
  }

  lemma {:induction false} SameSigningValue(c: TrustBundle, b: TrustBundle)
    requires SameHeader(c, b) && PlainHeader(b)
    requires Same(Array(MapSeq(IdentityValue, c.identities)), Array(MapSeq(IdentityValue, b.identities)))
    ensures Same(SigningValue(c), SigningValue(b))
  {
    BundleNames();
    var x, y := BundleFields(c, []), BundleFields(b, []);
    assert forall i :: 0 <= i < |x| ==> Same(x[i], y[i]);
    SameMapIff(BUNDLE, x, y);
  }

  lemma {:induction false} VersionReadBack(m: Value, b: TrustBundle)
    requires Valid(m) && Valid(PublishedValue(b)) && Same(m, PublishedValue(b)) && PlainHeader(b)
    ensures m.Map? && Item(m, "fmt_ver") == Ok(UInt(1))
    ensures forall default :: Get(m.entries, "fmt_ver", default) == UInt(1)
  {
    BundleNames();
    FieldReadBack(m, BUNDLE, BundleFields(b, MapSeq(SignatureValue, b.signatures)), 1);
  }

  lemma {:induction false} IsReadBack(c: TrustBundle, b: TrustBundle)
    requires SameHeader(c, b) && PlainHeader(b) && c.signatures == b.signatures
    requires |c.identities| == |b.identities|
    requires forall i :: 0 <= i < |b.identities| ==> SameEntry(c.identities[i], b.identities[i])
    requires forall i :: 0 <= i < |b.identities| ==> Valid(IdentityValue(b.identities[i]))
    ensures ReadBack(c, b)
  {
    SameIdentities(c.identities, b.identities);
    SameSigningValue(c, b);
  }

  /** The wire round trip: a document that is the same as the published one, in whatever order the
      parser keeps its maps, is read back as the bundle that was published. */
  lemma {:induction false} BundleReadBack(m: Value, b: TrustBundle)
    requires Valid(m) && Valid(PublishedValue(b)) && Same(m, PublishedValue(b)) && PlainHeader(b)
    ensures BundleFrom(m).Ok? && ReadBack(BundleFrom(m).value, b)
  {
    VersionReadBack(m, b);
    IdentitiesReadBack(m, b);
    SignatureListReadBack(m, b);
    var ids := EntriesFrom(PyList(Get(m.entries, "identities", Array([]))).value).value;
    var c := HeaderReadBack(m, b, ids);
    assert BundleFrom(m) == Ok(c);
    IsReadBack(c, b);
  }

  // ----- the generated bundle

  ghost predicate DistinctDids(log: seq<Record>) {
    (forall r :: r in log ==> r.did.Text?) && DistinctBy(log, DidKey)
  }

  lemma {:induction false} LexOrder()
    ensures Sorting.TotalOrder(LexLe)
  {
    forall a, b ensures LexLe(a, b) || LexLe(b, a) { LexTotal(a, b); }
    forall a, b | LexLe(a, b) && LexLe(b, a) ensures a == b { LexAntisymmetric(a, b); }
    forall a, b, c | LexLe(a, b) && LexLe(b, c) ensures LexLe(a, c) { LexTransitive(a, b, c); }
  }

  lemma {:induction false} ActiveDistinct(log: seq<Record>)
    requires DistinctBy(log, DidKey)
    ensures DistinctBy(ActiveRecords(log), DidKey)
  {
    if log == [] {
    } else {
      forall i, j | 0 <= i < j < |log[1..]| ensures DidKey(log[1..][i]) != DidKey(log[1..][j]) {
        assert DidKey(log[i + 1]) != DidKey(log[j + 1]);
      }
      ActiveDistinct(log[1..]);
      var rest := ActiveRecords(log[1..]);
      forall j | 0 <= j < |rest| ensures DidKey(log[0]) != DidKey(rest[j]) {
        assert rest[j] in log[1..];
        var k :| 0 <= k < |log[1..]| && log[1..][k] == rest[j];
        assert DidKey(log[0]) != DidKey(log[k + 1]);
      }
    }
  }

  /** The active records in DID order. */
  lemma {:induction false} SortedActiveFacts(log: seq<Record>)
    requires DistinctDids(log)
    ensures var a := SortedActive(log);
      && DistinctBy(a, DidKey) && SortedBy(a, DidKey, LexLe)
      && (forall r :: r in a <==> r in log && r.IsActive())
      && (forall i :: 0 <= i < |a| ==> a[i].did.Text?)
  {
    var a := SortedActive(log);
    LexOrder();
    ActiveDistinct(log);
    SortSorts(ActiveRecords(log), DidKey, LexLe);
    PermutationDistinct(ActiveRecords(log), a, DidKey);
    SameElements(a, ActiveRecords(log));
    forall i | 0 <= i < |a| ensures a[i].did.Text? { assert a[i] in a; }
  }

  /** Entries whose records are those of a DID-sorted list stay in their order when sorted. */
  lemma {:induction false} AlreadySorted(es: seq<IdentityEntry>, a: seq<Record>)
    requires |es| == |a| && DistinctBy(a, DidKey) && SortedBy(a, DidKey, LexLe)
    requires forall i :: 0 <= i < |a| ==> DidKey(es[i].record) == DidKey(a[i])
    ensures Sort(es, EntryKey, LexLe) == es
  {
    LexOrder();
    forall i, j | 0 <= i < j < |es|
      ensures EntryKey(es[i]) != EntryKey(es[j]) && LexLe(EntryKey(es[i]), EntryKey(es[j]))
    {
      assert DidKey(a[i]) != DidKey(a[j]) && LexLe(DidKey(a[i]), DidKey(a[j]));
    }
    SortOfSorted(es, EntryKey, LexLe);
  }

  lemma {:induction false} SameRecordSameLeaf(r: Record, s: Record)
    requires SameRecord(r, s) && Valid(RecordValue(s)) && Valid(RecordValue(r))
    ensures SerialiseRecord(r) == SerialiseRecord(s)
  {
    RecordNames();
    SameMapIff(RECORD, RecordFields(r), RecordFields(s));
    EncodeIffSame(RecordValue(r), RecordValue(s));
  }

  /** A generation by validators that meet the threshold and whose signatures check, from a log with
      distinct DIDs. */
  ghost predicate ProperGeneration(w: World, g: Generation, vs: seq<Validator>) {
    && g.now + g.grace >= 0 && DistinctDids(g.log)
    && g.validators == MapSeq(DidOf, vs) && g.threshold <= |vs|
    && (forall i, message :: 0 <= i < |vs| ==> w.check(vs[i].publicKey, message, vs[i].sign(message)))
    && Valid(PublishedValue(Signed(w.sha, g, vs)))
  }

  /** `m` is the published document, with its maps in whatever order the parser keeps them. */
  ghost predicate IsPublished(sha: Hash, g: Generation, vs: seq<Validator>, m: Value) {
    g.now + g.grace >= 0 && Valid(m) && Same(m, PublishedValue(Signed(sha, g, vs)))
  }

  /** The published bytes are parsed as that document. */
  ghost predicate Proper(w: World, g: Generation, vs: seq<Validator>, m: Value) {
    && ProperGeneration(w, g, vs) && IsPublished(w.sha, g, vs, m)
    && w.loads(Encode(PublishedValue(Signed(w.sha, g, vs)))) == Some(m)
  }

  lemma {:induction false} EntryTextSides(sha: Hash, records: seq<Record>, i: nat)
    requires i < |records|
    ensures TextSides(EntryAt(sha, records, i).proof)
  {
  }

  lemma {:induction false} EntriesTextSides(sha: Hash, records: seq<Record>)
    ensures forall i :: 0 <= i < |records| ==> TextSides(Entries(sha, records)[i].proof)
  {
    forall i | 0 <= i < |records| ensures TextSides(Entries(sha, records)[i].proof) {
      EntryTextSides(sha, records, i);
    }
  }

  lemma {:induction false} SignedIsPlain(sha: Hash, g: Generation, vs: seq<Validator>)
    requires g.now + g.grace >= 0
    ensures PlainHeader(Signed(sha, g, vs))
  {
    EntriesTextSides(sha, SortedActive(g.log));
  }

  lemma {:induction false} ReadGenerated(w: World, g: Generation, vs: seq<Validator>, m: Value) returns (c: TrustBundle)
    requires ProperGeneration(w, g, vs) && IsPublished(w.sha, g, vs, m)
    ensures BundleFrom(m) == Ok(c)
    ensures ReadBack(c, Signed(w.sha, g, vs)) && Valid(SigningValue(c))
    ensures Valid(Array(MapSeq(IdentityValue, c.identities)))
  {
    var b := Signed(w.sha, g, vs);
    SignedIsPlain(w.sha, g, vs);
    BundleReadBack(m, b);
    c := BundleFrom(m).value;
    ReadValid(m);
    IdentitiesValid(m);
  }

  lemma {:induction false} SigningValueValid(b: TrustBundle)
    requires Valid(PublishedValue(b))
    ensures Valid(SigningValue(b)) && Valid(Array(MapSeq(IdentityValue, b.identities)))
  {
    BundleNames();
    var x, y := BundleFields(b, MapSeq(SignatureValue, b.signatures)), BundleFields(b, []);
    ValidMapIff(BUNDLE, x);
    assert forall i :: 0 <= i < |x| ==> Valid(x[i]);
    ValidArrayIff([]);
    assert forall i :: 0 <= i < |y| ==> i == 4 || y[i] == x[i];
    assert forall i :: 0 <= i < |y| ==> Valid(y[i]);
    ValidMapIff(BUNDLE, y);
    assert Valid(x[2]);
  }

  /** Every validator's signature checks against the rebuilt signing bytes. */
  lemma {:induction false} SignaturesHold(w: World, g: Generation, vs: seq<Validator>, c: TrustBundle)
    requires ProperGeneration(w, g, vs) && ReadBack(c, Signed(w.sha, g, vs)) && Valid(SigningValue(c))
    ensures AllSignaturesHold(w, c.signatures, SigningBytes(c.(signatures := [])))
    ensures |c.signatures| == |vs|
    ensures SigningBytes(c.(signatures := [])) == SigningBytes(c) == SigningBytes(Unsigned(w.sha, g))
  {
    var b := Signed(w.sha, g, vs);
    SigningValueValid(b);
    EncodeIffSame(SigningValue(c), SigningValue(b));
    assert SigningBytes(c.(signatures := [])) == SigningBytes(c) == SigningBytes(b) == SigningBytes(Unsigned(w.sha, g));
  }

  lemma {:induction false} EntryRecordValid(es: seq<IdentityEntry>, i: nat)
    requires Valid(Array(MapSeq(IdentityValue, es))) && i < |es|
    ensures Valid(RecordValue(es[i].record))
  {
    ValidArrayIff(MapSeq(IdentityValue, es));
    assert Valid(MapSeq(IdentityValue, es)[i]);
    IdentityFieldsValid(es[i]);
    RecordNames();
    ValidMapIff(RECORD, RecordFields(es[i].record));
  }

  /** The i-th entry read back belongs to the i-th active record and carries its proof. */
  ghost predicate EntryOf(sha: Hash, e: IdentityEntry, active: seq<Record>, i: nat)
    requires i < |active|
  {
    && e.record.did == active[i].did && SameRecord(e.record, active[i])
    && e.proof == EntryAt(sha, active, i).proof
    && SerialiseRecord(e.record) == SerialiseRecord(active[i])
  }

  lemma {:induction false} EntryReadBackAt(
      sha: Hash, g: Generation, vs: seq<Validator>, c: TrustBundle, i: nat)
    requires g.now + g.grace >= 0 && DistinctDids(g.log)
    requires ReadBack(c, Signed(sha, g, vs)) && i < |c.identities|
    requires Valid(Array(MapSeq(IdentityValue, c.identities)))
    requires Valid(Array(MapSeq(IdentityValue, Signed(sha, g, vs).identities)))
    ensures i < |SortedActive(g.log)| && EntryOf(sha, c.identities[i], SortedActive(g.log), i)
  {
    var b, a := Signed(sha, g, vs), SortedActive(g.log);
    SortedActiveFacts(g.log);
    assert SameEntry(c.identities[i], b.identities[i]);
    EntryRecordValid(c.identities, i);
    EntryRecordValid(b.identities, i);
    assert Same(RecordFields(c.identities[i].record)[0], RecordFields(a[i])[0]);
    SameRecordSameLeaf(c.identities[i].record, a[i]);
  }

  /** The rebuilt leaves are the generated ones, in the same order. */
  lemma {:induction false} SameLeaves(sha: Hash, g: Generation, c: TrustBundle)
    requires DistinctDids(g.log) && |c.identities| == |SortedActive(g.log)|
    requires forall i :: 0 <= i < |c.identities| ==> EntryOf(sha, c.identities[i], SortedActive(g.log), i)
    ensures CanSort(c.identities)
    ensures LeafData(SortedRecords(c.identities)) == LeafData(SortedActive(g.log))
  {
    var es, a := c.identities, SortedActive(g.log);
    SortedActiveFacts(g.log);
    forall i | 0 <= i < |es| ensures DidKey(es[i].record) == DidKey(a[i]) && es[i].record.did.Text? {
      assert EntryOf(sha, es[i], a, i);
    }
    AlreadySorted(es, a);
    SameSerialised(sha, es, a);
  }

  lemma {:induction false} SameSerialised(sha: Hash, es: seq<IdentityEntry>, a: seq<Record>)
    requires |es| == |a| && forall i :: 0 <= i < |es| ==> EntryOf(sha, es[i], a, i)
    ensures LeafData(MapSeq(RecordOf, es)) == LeafData(a)
  {
    var x, y := LeafData(MapSeq(RecordOf, es)), LeafData(a);
    forall i | 0 <= i < |x| ensures x[i] == y[i] {
      assert EntryOf(sha, es[i], a, i);
      assert x[i] == SerialiseRecord(MapSeq(RecordOf, es)[i]);
    }
  }

  /** A bundle in which the check finds what was generated. */
  ghost predicate Recovered(w: World, g: Generation, c: TrustBundle) {
    && g.now + g.grace >= 0
    && c.expiresAt == UInt(g.now + g.grace) && c.snapshotRoot == Unsigned(w.sha, g).snapshotRoot
    && |c.identities| == |SortedActive(g.log)|
    && (forall i :: 0 <= i < |c.identities| ==> EntryOf(w.sha, c.identities[i], SortedActive(g.log), i))
  }

  lemma {:induction false} IsRecovered(w: World, g: Generation, vs: seq<Validator>, c: TrustBundle)
    requires ProperGeneration(w, g, vs) && ReadBack(c, Signed(w.sha, g, vs))
    requires Valid(Array(MapSeq(IdentityValue, c.identities)))
    ensures Recovered(w, g, c) && CanSort(c.identities) && c.threshold == UInt(g.threshold)
    ensures Merkle.Root(w.sha, LeafData(SortedRecords(c.identities))) == c.snapshotRoot
  {
    EntriesOf(w.sha, g, vs, c);
    SameLeaves(w.sha, g, c);
  }

  /** All that the check asks before its last two steps. */
  ghost predicate Passable(w: World, g: Generation, c: TrustBundle) {
    && g.now + g.grace >= 0 && c.threshold == UInt(g.threshold) && c.expiresAt == UInt(g.now + g.grace)
    && g.threshold <= |c.signatures| && AllSignaturesHold(w, c.signatures, SigningBytes(c.(signatures := [])))
    && CanSort(c.identities) && Merkle.Root(w.sha, LeafData(SortedRecords(c.identities))) == c.snapshotRoot
  }

  lemma {:induction false} IsPassable(w: World, g: Generation, vs: seq<Validator>, c: TrustBundle)
    requires ProperGeneration(w, g, vs) && ReadBack(c, Signed(w.sha, g, vs)) && Valid(SigningValue(c))
    requires Valid(Array(MapSeq(IdentityValue, c.identities)))
    ensures Recovered(w, g, c) && Passable(w, g, c)
  {
    SignaturesHold(w, g, vs, c);
    IsRecovered(w, g, vs, c);
  }

  /** Before expiry the check of a generated bundle comes down to its last two steps. */
  lemma {:induction false} ReachesLookup(
      w: World, g: Generation, vs: seq<Validator>, m: Value, did: ByteString, now: real)
    returns (c: TrustBundle)
    requires ProperGeneration(w, g, vs) && IsPublished(w.sha, g, vs, m) && now < (g.now + g.grace) as real
    ensures Recovered(w, g, c)
    ensures BundleFrom(m) == Ok(c) && VerifyBundle(w, c, did, now) == LookUp(w, c, did)
  {
    c := ReadGenerated(w, g, vs, m);
    IsPassable(w, g, vs, c);
    PassesChecks(w, g, c, did, now);
  }

  lemma {:induction false} VerifyParsed(w: World, raw: ByteString, m: Value, c: TrustBundle, did: ByteString, now: real)
    requires w.loads(raw) == Some(m) && BundleFrom(m) == Ok(c)
    ensures VerifyFile(w, raw, did, now) == VerifyBundle(w, c, did, now)
  {
  }

  lemma {:induction false} EntriesOf(sha: Hash, g: Generation, vs: seq<Validator>, c: TrustBundle)
    requires g.now + g.grace >= 0 && DistinctDids(g.log) && Valid(PublishedValue(Signed(sha, g, vs)))
    requires ReadBack(c, Signed(sha, g, vs)) && Valid(Array(MapSeq(IdentityValue, c.identities)))
    ensures |c.identities| == |SortedActive(g.log)|
    ensures forall i :: 0 <= i < |c.identities| ==> EntryOf(sha, c.identities[i], SortedActive(g.log), i)
  {
    SigningValueValid(Signed(sha, g, vs));
    forall i | 0 <= i < |c.identities| ensures EntryOf(sha, c.identities[i], SortedActive(g.log), i) {
      EntryReadBackAt(sha, g, vs, c, i);
    }
  }

  lemma {:induction false} PassesChecks(w: World, g: Generation, c: TrustBundle, did: ByteString, now: real)
    requires Passable(w, g, c) && now < (g.now + g.grace) as real
    ensures VerifyBundle(w, c, did, now) == LookUp(w, c, did)
  {
    assert VerifyBundle(w, c, did, now) == CheckInclusion(w, c, did);
  }

  lemma {:induction false} FoundAt(es: seq<IdentityEntry>, did: ByteString, k: nat)
    requires k < |es| && es[k].record.did == Text(did)
    requires forall i :: 0 <= i < |es| && es[i].record.did == Text(did) ==> i == k
    ensures FindDid(es, did) == Some(es[k])
  {
    assert es[k] in es;
    var e := FindDid(es, did).value;
    var i :| 0 <= i < |es| && es[i] == e;
  }

  lemma {:induction false} NowhereFound(es: seq<IdentityEntry>, did: ByteString)
    requires forall i :: 0 <= i < |es| ==> es[i].record.did != Text(did)
    ensures FindDid(es, did).None?
  {
  }

  /** End-to-end completeness: until its expiry, the published bundle verifies as VALID for the DID
      of every active record, and returns that record up to the order of its metadata. */
  lemma {:induction false} GeneratedIsValid(
      w: World, g: Generation, vs: seq<Validator>, m: Value, r: Record, now: real) returns (found: Record)
    requires Proper(w, g, vs, m) && now < (g.now + g.grace) as real
    requires r in g.log && r.IsActive()
    ensures SameRecord(found, r)
    ensures VerifyFile(w, Encode(PublishedValue(Signed(w.sha, g, vs))), r.did.utf8, now) ==
      Result(VALID, UInt(g.now + g.grace), Some(found))
  {
    var c := ReachesLookup(w, g, vs, m, r.did.utf8, now);
    VerifyParsed(w, Encode(PublishedValue(Signed(w.sha, g, vs))), m, c, r.did.utf8, now);
    var k := ActiveIndex(w.sha, g.log, c.identities, r);
    assert EntryOf(w.sha, c.identities[k], SortedActive(g.log), k);
    found := c.identities[k].record;
    GeneratedProofHolds(w, g, c, k);
  }

  lemma {:induction false} ActiveIndex(sha: Hash, log: seq<Record>, es: seq<IdentityEntry>, r: Record) returns (k: nat)
    requires DistinctDids(log) && r in log && r.IsActive() && |es| == |SortedActive(log)|
    requires forall i :: 0 <= i < |es| ==> EntryOf(sha, es[i], SortedActive(log), i)
    ensures k < |es| && SortedActive(log)[k] == r && FindDid(es, r.did.utf8) == Some(es[k])
  {
    var a := SortedActive(log);
    SortedActiveFacts(log);
    k :| 0 <= k < |a| && a[k] == r;
    forall i | 0 <= i < |es| && es[i].record.did == r.did ensures i == k {
      assert EntryOf(sha, es[i], a, i);
      OnlyIndex(a, i, k);
    }
    assert EntryOf(sha, es[k], a, k);
    FoundAt(es, r.did.utf8, k);
  }

  lemma {:induction false} OnlyIndex(a: seq<Record>, i: nat, k: nat)
    requires DistinctBy(a, DidKey) && i < |a| && k < |a| && a[i].did == a[k].did
    ensures i == k
  {
    assert DidKey(a[i]) == DidKey(a[k]);
  }

  lemma {:induction false} GeneratedProofHolds(w: World, g: Generation, c: TrustBundle, k: nat)
    requires k < |c.identities| == |SortedActive(g.log)| && g.now + g.grace >= 0
    requires EntryOf(w.sha, c.identities[k], SortedActive(g.log), k)
    requires c.snapshotRoot == Unsigned(w.sha, g).snapshotRoot
    ensures CheckProof(w, c, c.identities[k]).outcome == VALID
  {
    var leaves := LeafData(SortedActive(g.log));
    StepsRoundTrip(Merkle.Proof(w.sha, leaves, k));
    MerkleLaws.ProofComplete(w.sha, leaves, k);
  }

  /** And it answers NOT_FOUND for every other DID: unknown, or of a revoked record only. */
  lemma {:induction false} GeneratedIsNotFound(
      w: World, g: Generation, vs: seq<Validator>, m: Value, did: ByteString, now: real)
    requires Proper(w, g, vs, m) && now < (g.now + g.grace) as real
    requires forall r :: r in g.log && r.IsActive() ==> r.did != Text(did)
    ensures VerifyFile(w, Encode(PublishedValue(Signed(w.sha, g, vs))), did, now) ==
      Result(NOT_FOUND, UInt(g.now + g.grace), None)
  {
    var c := ReachesLookup(w, g, vs, m, did, now);
    VerifyParsed(w, Encode(PublishedValue(Signed(w.sha, g, vs))), m, c, did, now);
    SortedActiveFacts(g.log);
    var a := SortedActive(g.log);
    forall i | 0 <= i < |c.identities| ensures c.identities[i].record.did != Text(did) {
      assert EntryOf(w.sha, c.identities[i], a, i);
      assert a[i] in a;
    }
    NowhereFound(c.identities, did);
  }

  /** The soundness theorem applies to every generated bundle and any of its validators: what that has
      signed may be this bundle's payload and any digests of enrolments. */
  lemma {:induction false} GeneratedIsUnforged(
      w: World, g: Generation, vs: seq<Validator>, m: Value, k: nat, digests: set<ByteString>, history: set<Generation>)
    returns (b: TrustBundle)
    requires Proper(w, g, vs, m) && k < |vs| && g in history && forall d :: d in digests ==> |d| == 32
    ensures Read(w, Encode(PublishedValue(Signed(w.sha, g, vs)))) == Ok(b) && k < |b.signatures|
    ensures var signed := digests + {SigningBytes(Unsigned(w.sha, g))};
      Unforged(w, b, k, signed) && SignsOnlyBundles(w, signed, history)
  {
    b := ReadGenerated(w, g, vs, m);
    SignaturesHold(w, g, vs, b);
    SigningValueValid(Signed(w.sha, g, vs));
    PayloadIsHonest(w, g, digests, history);
  }

  lemma {:induction false} PayloadIsHonest(w: World, g: Generation, digests: set<ByteString>, history: set<Generation>)
    requires g.now + g.grace >= 0 && Valid(SigningValue(Unsigned(w.sha, g)))
    requires g in history && forall d :: d in digests ==> |d| == 32
    ensures SignsOnlyBundles(w, digests + {SigningBytes(Unsigned(w.sha, g))}, history)
  {
    assert IsPayload(w, SigningBytes(Unsigned(w.sha, g)), g);
  }
}
