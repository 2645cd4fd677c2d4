/** What `deserialise_bundle` reads and what it refuses, told by the names of the fields. The reader makes
    one conversion after the other, and the first that raises decides. */
module BundleReading {
  import opened Bytes
  import opened Cbor
  import opened Fields
  import opened Models
  import opened PyValues
  import opened Bundle
  import opened Verify

  // ----- conversions

  /** Whether a conversion goes through, or else what it raises. */
  function Raises<T>(p: Py<T>): Py<()> {
    match p
    case Ok(_) => Ok(())
    case Caught => Caught
    case Uncaught => Uncaught
  }

  /** `d[name]` */
  function Needs(d: Value, name: string): Py<()> { Raises(Item(d, name)) }

  /** `bytes(d[name])` */
  function NeedsBytes(d: Value, name: string): Py<()> {
    match Item(d, name) case Ok(v) => Raises(PyBytes(v)) case _ => Caught
  }

  /** `list(d[name])`, or a loop over it */
  function NeedsList(d: Value, name: string): Py<()> {
    match Item(d, name) case Ok(v) => Raises(PyList(v)) case _ => Caught
  }

  /** The elements of a field that holds a list; none if it is missing or cannot be iterated over. */
  function Elements(d: Value, name: string): seq<Value> {
    if d.Map? && Lookup(d.entries, Ascii(name)).Some? && PyList(Lookup(d.entries, Ascii(name)).value).Ok? then
      PyList(Lookup(d.entries, Ascii(name)).value).value
    else []
  }

  /** A loop over `m.get(name, [])` */
  function MayIterate(m: Value, name: string): Py<()>
    requires m.Map?
  {
    match Lookup(m.entries, Ascii(name)) case None => Ok(()) case Some(v) => Raises(PyList(v))
  }

  /** `dict(d.get("meta", {}))` */
  function MetaIsDict(d: Value): Py<()> {
    if d.Map? && Lookup(d.entries, Ascii("meta")).Some? then Raises(PyDict(Lookup(d.entries, Ascii("meta")).value))
    else Ok(())
  }

  /** `m.get("fmt_ver") != 1`: True equals 1, and what is absent does not. */
  function IsVersionOne(m: Value): Py<()>
    requires m.Map?
  {
    match Lookup(m.entries, Ascii("fmt_ver"))
    case Some(UInt(n)) => if n == 1 then Ok(()) else Caught
    case Some(Bool(b)) => if b then Ok(()) else Caught
    case _ => Caught
  }

  /** What the first conversion that fails raises. */
  function First(tries: seq<Py<()>>): Py<()> {
    if tries == [] then Ok(())
    else if tries[0] == Ok(()) then First(tries[1..])
    else tries[0]
  }

  lemma {:induction false} FirstAppend(a: seq<Py<()>>, b: seq<Py<()>>)
    ensures First(a + b) == if First(a) == Ok(()) then First(b) else First(a)
  {
    if a == [] {
      assert a + b == b;
    } else {
      assert (a + b)[1..] == a[1..] + b;
      FirstAppend(a[1..], b);
    }
  }

  lemma {:induction false} FirstOfTwo(a: Py<()>, b: Py<()>)
    ensures First([a, b]) == if a == Ok(()) then b else a
  {
    assert [a, b][1..] == [b] && [b][1..] == [];
    assert First([b]) == if b == Ok(()) then First([]) else b;
  }

  lemma {:induction false} FirstOfThree(a: Py<()>, b: Py<()>, c: Py<()>)
    ensures First([a, b, c]) == if a != Ok(()) then a else if b != Ok(()) then b else c
  {
    assert [a, b, c][1..] == [b, c];
    FirstOfTwo(b, c);
  }

  lemma {:induction false} FirstOfFive(a: Py<()>, b: Py<()>, c: Py<()>, d: Py<()>, e: Py<()>)
    ensures First([a, b, c, d, e]) ==
      if a != Ok(()) then a else if b != Ok(()) then b else if c != Ok(()) then c else if d != Ok(()) then d else e
  {
    assert [a, b, c, d, e][1..] == [b, c, d, e] && [b, c, d, e][1..] == [c, d, e];
    FirstOfThree(c, d, e);
  }

  // ----- the conversions of a bundle, in order

  function RecordTries(d: Value): seq<Py<()>> {
    [Needs(d, "did"), NeedsBytes(d, "pubkey"), Needs(d, "issued_at"), NeedsList(d, "issued_by"), MetaIsDict(d)]
  }

  function SiblingTries(s: Value): seq<Py<()>> { [NeedsBytes(s, "h"), Needs(s, "s")] }

  function SiblingsTries(items: seq<Value>): seq<Py<()>> {
    if items == [] then [] else SiblingTries(items[0]) + SiblingsTries(items[1..])
  }

  function ProofTries(d: Value): seq<Py<()>> {
    [NeedsBytes(d, "leaf"), NeedsList(d, "siblings")] + SiblingsTries(Elements(d, "siblings")) + [NeedsBytes(d, "root")]
  }

  function EntryTries(d: Value): seq<Py<()>> {
    RecordTries(d) + [Needs(d, "proof")] + match Item(d, "proof") case Ok(p) => ProofTries(p) case _ => []
  }

  function EntriesTries(items: seq<Value>): seq<Py<()>> {
    if items == [] then [] else EntryTries(items[0]) + EntriesTries(items[1..])
  }

  function SignatureTries(d: Value): seq<Py<()>> {
    [Needs(d, "val_did"), NeedsBytes(d, "val_pk"), NeedsBytes(d, "sig")]
  }

  function SignaturesTries(items: seq<Value>): seq<Py<()>> {
    if items == [] then [] else SignatureTries(items[0]) + SignaturesTries(items[1..])
  }

  function HeaderTries(m: Value): seq<Py<()>> {
    [Needs(m, "fmt_ver"), Needs(m, "snap_block"), NeedsBytes(m, "snap_root")] +
    [Needs(m, "issued_at"), Needs(m, "expires_at"), Needs(m, "threshold")] + [NeedsList(m, "val_set")]
  }

  function BundleTries(m: Value): seq<Py<()>>
    requires m.Map?
  {
    [IsVersionOne(m)] + [MayIterate(m, "identities")] + EntriesTries(Elements(m, "identities")) +
    [MayIterate(m, "signatures")] + SignaturesTries(Elements(m, "signatures")) + HeaderTries(m)
  }

  // ----- the reader makes them

  lemma {:induction false} RecordReads(d: Value)
    ensures Raises(RecordFrom(d)) == First(RecordTries(d))
  {
    FirstOfFive(Needs(d, "did"), NeedsBytes(d, "pubkey"), Needs(d, "issued_at"), NeedsList(d, "issued_by"),
      MetaIsDict(d));
  }

  lemma {:induction false} SiblingReads(s: Value)
    ensures Raises(SiblingFrom(s)) == First(SiblingTries(s))
  {
    FirstOfTwo(NeedsBytes(s, "h"), Needs(s, "s"));
  }

  lemma {:induction false} SiblingsRead(items: seq<Value>)
    ensures Raises(SiblingsFrom(items)) == First(SiblingsTries(items))
  {
    if items == [] {
    } else {
      SiblingReads(items[0]);
      SiblingsRead(items[1..]);
      FirstAppend(SiblingTries(items[0]), SiblingsTries(items[1..]));
    }
  }

  lemma {:induction false} ProofReads(d: Value)
    ensures Raises(ProofFrom(d)) == First(ProofTries(d))
  {
    var a, b, c := [NeedsBytes(d, "leaf"), NeedsList(d, "siblings")], SiblingsTries(Elements(d, "siblings")),
      [NeedsBytes(d, "root")];
    FirstOfTwo(NeedsBytes(d, "leaf"), NeedsList(d, "siblings"));
    FirstAppend(a + b, c);
    FirstAppend(a, b);
    SiblingsRead(Elements(d, "siblings"));
    assert c[1..] == [];
  }

  lemma {:induction false} EntryReads(d: Value)
    ensures Raises(EntryFrom(d)) == First(EntryTries(d))
  {
    var a, b := RecordTries(d), [Needs(d, "proof")];
    var c := match Item(d, "proof") case Ok(p) => ProofTries(p) case _ => [];
    RecordReads(d);
    FirstAppend(a + b, c);
    FirstAppend(a, b);
    assert b[1..] == [];
    if Item(d, "proof").Ok? { ProofReads(Item(d, "proof").value); }
  }

  lemma {:induction false} EntriesRead(items: seq<Value>)
    ensures Raises(EntriesFrom(items)) == First(EntriesTries(items))
  {
    if items == [] {
    } else {
      EntryReads(items[0]);
      EntriesRead(items[1..]);
      FirstAppend(EntryTries(items[0]), EntriesTries(items[1..]));
    }
  }

  lemma {:induction false} SignatureReads(d: Value)
    ensures Raises(SignatureFrom(d)) == First(SignatureTries(d))
  {
    FirstOfThree(Needs(d, "val_did"), NeedsBytes(d, "val_pk"), NeedsBytes(d, "sig"));
  }

  lemma {:induction false} SignaturesRead(items: seq<Value>)
    ensures Raises(SignaturesFrom(items)) == First(SignaturesTries(items))
  {
    if items == [] {
    } else {
      SignatureReads(items[0]);
      SignaturesRead(items[1..]);
      FirstAppend(SignatureTries(items[0]), SignaturesTries(items[1..]));
    }
  }

  lemma {:induction false} HeaderReads(m: Value, ids: seq<IdentityEntry>, sigs: seq<Signature>)
    ensures Raises(HeaderFrom(m, ids, sigs)) == First(HeaderTries(m))
  {
    var a := [Needs(m, "fmt_ver"), Needs(m, "snap_block"), NeedsBytes(m, "snap_root")];
    var b := [Needs(m, "issued_at"), Needs(m, "expires_at"), Needs(m, "threshold")];
    var c := [NeedsList(m, "val_set")];
    FirstOfThree(Needs(m, "fmt_ver"), Needs(m, "snap_block"), NeedsBytes(m, "snap_root"));
    FirstOfThree(Needs(m, "issued_at"), Needs(m, "expires_at"), Needs(m, "threshold"));
    FirstAppend(a + b, c);
    FirstAppend(a, b);
    assert c[1..] == [];
  }

  lemma {:induction false} ListsRead(m: Value, name: string)
    requires m.Map?
    ensures Raises(PyList(Get(m.entries, name, Array([])))) == MayIterate(m, name)
    ensures PyList(Get(m.entries, name, Array([]))).Ok? ==>
      PyList(Get(m.entries, name, Array([]))).value == Elements(m, name)
  {
  }

  /** A document is read exactly if every conversion goes through, and otherwise the first that does not
      says what is raised: a KeyError or a TypeError is reported as a BundleDecodeError, a ValueError is
      not. */
  lemma {:induction false} ReadsIff(m: Value)
    ensures !m.Map? ==> BundleFrom(m) == Uncaught
    ensures m.Map? ==> Raises(BundleFrom(m)) == First(BundleTries(m))
  {
    if m.Map? {
      var ids, sigs := Elements(m, "identities"), Elements(m, "signatures");
      var a, b, c := [IsVersionOne(m)], [MayIterate(m, "identities")], EntriesTries(ids);
      var d, e, h := [MayIterate(m, "signatures")], SignaturesTries(sigs), HeaderTries(m);
      FirstAppend(a + b + c + d + e, h);
      FirstAppend(a + b + c + d, e);
      FirstAppend(a + b + c, d);
      FirstAppend(a + b, c);
      FirstOfTwo(IsVersionOne(m), MayIterate(m, "identities"));
      assert a + b == [IsVersionOne(m), MayIterate(m, "identities")] && d[1..] == [];
      ListsRead(m, "identities");
      ListsRead(m, "signatures");
      EntriesRead(ids);
      SignaturesRead(sigs);
      if EntriesFrom(ids).Ok? && SignaturesFrom(sigs).Ok? {
        HeaderReads(m, EntriesFrom(ids).value, SignaturesFrom(sigs).value);
      }
    }
  }

  /** Only version 1 is read; a map with another version, or none, is a BundleDecodeError whatever else it
      holds. */
  lemma {:induction false} OnlyVersionOne(m: Value)
    ensures BundleFrom(m).Ok? ==> EqualsOne(BundleFrom(m).value.formatVersion)
    ensures m.Map? && IsVersionOne(m) != Ok(()) ==> BundleFrom(m) == Caught
    ensures BundleFrom(m).Ok? ==> Item(m, "fmt_ver") == Ok(BundleFrom(m).value.formatVersion)
  {
  }

  /** `verify` reports a decoding error exactly for bytes that do not parse and for maps whose first failing
      conversion is a KeyError, a TypeError or a wrong version. */
  lemma {:induction false} DecodeFailsIff(w: World, raw: ByteString, did: ByteString, now: real)
    ensures VerifyFile(w, raw, did, now) == DecodeFailed <==>
      match w.loads(raw) case None => true case Some(m) => m.Map? && First(BundleTries(m)) == Caught
  {
    if w.loads(raw).Some? { ReadsIff(w.loads(raw).value); }
    NeverDecodeFailed(w, raw, did, now);
  }

  lemma {:induction false} NeverDecodeFailed(w: World, raw: ByteString, did: ByteString, now: real)
    ensures VerifyFile(w, raw, did, now) == DecodeFailed <==> Read(w, raw) == Caught
  {
  }

  // ----- lists of numbers as bytes

  /** An element that `bytes` takes. */
  predicate IsByteItem(v: Value) { v.Bool? || (v.UInt? && v.n < 0x100) }

  /** `bytes` of a list goes through exactly if all elements are bytes, and gives these; a number that is too
      large raises a ValueError if it comes before whatever else is wrong. */
  lemma {:induction false} BytesIff(items: seq<Value>)
    ensures BytesOf(items).Ok? <==> forall i :: 0 <= i < |items| ==> IsByteItem(items[i])
    ensures BytesOf(items).Ok? ==> forall i :: 0 <= i < |items| && items[i].UInt? ==> BytesOf(items).value[i] == items[i].n
    ensures BytesOf(items).Uncaught? <==> exists i :: FirstTooLarge(items, i)
  {
    if items == [] {
    } else {
      BytesIff(items[1..]);
      TooLargeNext(items);
      assert items == [items[0]] + items[1..];
    }
  }

  ghost predicate FirstTooLarge(items: seq<Value>, i: int) {
    && 0 <= i < |items| && items[i].UInt? && items[i].n >= 0x100
    && forall j :: 0 <= j < i ==> IsByteItem(items[j])
  }

  lemma {:induction false} TooLargeNext(items: seq<Value>)
    requires items != []
    ensures (exists i :: FirstTooLarge(items, i)) <==>
      (items[0].UInt? && items[0].n >= 0x100) || (IsByteItem(items[0]) && exists i :: FirstTooLarge(items[1..], i))
  {
    if items[0].UInt? && items[0].n >= 0x100 { assert FirstTooLarge(items, 0); }
    if i :| FirstTooLarge(items[1..], i) {
      if IsByteItem(items[0]) { assert FirstTooLarge(items, i + 1); }
    }
    if i :| FirstTooLarge(items, i) {
      if i > 0 { assert FirstTooLarge(items[1..], i - 1); }
    }
  }

  // ----- what is read

  ghost predicate IsField(d: Value, name: string, v: Value) { Item(d, name) == Ok(v) }

  ghost predicate IsBytesOf(d: Value, name: string, bs: ByteString) {
    Item(d, name).Ok? && PyBytes(Item(d, name).value) == Ok(bs)
  }

  ghost predicate IsListOf(d: Value, name: string, items: seq<Value>) {
    Item(d, name).Ok? && PyList(Item(d, name).value) == Ok(items)
  }

  /** A field that may be missing. */
  ghost predicate IsOptional(d: Value, name: string, v: Value) {
    d.Map? && v == match Lookup(d.entries, Ascii(name)) case Some(x) => x case None => Null
  }

  ghost predicate RecordIsOf(d: Value, r: Record) {
    && IsField(d, "did", r.did) && IsBytesOf(d, "pubkey", r.publicKey) && IsField(d, "issued_at", r.issuedAt)
    && IsListOf(d, "issued_by", r.issuedBy)
    && IsOptional(d, "valid_until", r.validUntil) && IsOptional(d, "revoked_at", r.revokedAt)
    && match Lookup(d.entries, Ascii("meta")) case None => r.metadata == [] case Some(v) => PyDict(v) == Ok(r.metadata)
  }

  ghost predicate SiblingIsOf(d: Value, s: Sibling) { IsBytesOf(d, "h", s.h) && IsField(d, "s", s.side) }

  ghost predicate ProofIsOf(d: Value, p: MerkleProof) {
    && IsBytesOf(d, "leaf", p.leafHash) && IsBytesOf(d, "root", p.root)
    && |p.siblings| == |Elements(d, "siblings")|
    && forall i :: 0 <= i < |p.siblings| ==> SiblingIsOf(Elements(d, "siblings")[i], p.siblings[i])
  }

  ghost predicate EntryIsOf(d: Value, e: IdentityEntry) {
    RecordIsOf(d, e.record) && Item(d, "proof").Ok? && ProofIsOf(Item(d, "proof").value, e.proof)
  }

  ghost predicate SignatureIsOf(d: Value, s: Signature) {
    && IsField(d, "val_did", s.validatorDid) && IsBytesOf(d, "val_pk", s.publicKey) && IsBytesOf(d, "sig", s.signature)
  }

  /** Every field of the bundle is the one of that name in the document. */
  ghost predicate BundleIsOf(m: Value, b: TrustBundle) {
    && IsField(m, "fmt_ver", b.formatVersion) && IsField(m, "snap_block", b.snapshotBlock)
    && IsBytesOf(m, "snap_root", b.snapshotRoot) && IsField(m, "issued_at", b.issuedAt)
    && IsField(m, "expires_at", b.expiresAt) && IsField(m, "threshold", b.threshold)
    && IsListOf(m, "val_set", b.validatorSet)
    && |b.identities| == |Elements(m, "identities")| && |b.signatures| == |Elements(m, "signatures")|
    && (forall i :: 0 <= i < |b.identities| ==> EntryIsOf(Elements(m, "identities")[i], b.identities[i]))
    && (forall i :: 0 <= i < |b.signatures| ==> SignatureIsOf(Elements(m, "signatures")[i], b.signatures[i]))
  }

  lemma {:induction false} SiblingsByName(items: seq<Value>, i: nat)
    requires SiblingsFrom(items).Ok? && i < |items|
    ensures SiblingIsOf(items[i], SiblingsFrom(items).value[i])
  {
    if i == 0 {
    } else {
      SiblingsByName(items[1..], i - 1);
    }
  }

  lemma {:induction false} EntryByName(d: Value)
    requires EntryFrom(d).Ok?
    ensures EntryIsOf(d, EntryFrom(d).value)
  {
    var p := Item(d, "proof").value;
    var items := Elements(p, "siblings");
    forall i | 0 <= i < |items| ensures SiblingIsOf(items[i], SiblingsFrom(items).value[i]) { SiblingsByName(items, i); }
  }

  lemma {:induction false} EntriesByName(items: seq<Value>, i: nat)
    requires EntriesFrom(items).Ok? && i < |items|
    ensures EntryIsOf(items[i], EntriesFrom(items).value[i])
  {
    if i == 0 {
      EntryByName(items[0]);
    } else {
      EntriesByName(items[1..], i - 1);
    }
  }

  lemma {:induction false} SignaturesByName(items: seq<Value>, i: nat)
    requires SignaturesFrom(items).Ok? && i < |items|
    ensures SignatureIsOf(items[i], SignaturesFrom(items).value[i])
  {
    if i == 0 {
    } else {
      SignaturesByName(items[1..], i - 1);
    }
  }

  /** Whatever document is read, nothing in the bundle comes from anywhere but the field of its name. */
  lemma {:induction false} ReadsByName(m: Value)
    requires BundleFrom(m).Ok?
    ensures BundleIsOf(m, BundleFrom(m).value)
  {
    ListsRead(m, "identities");
    ListsRead(m, "signatures");
    var ids, sigs := Elements(m, "identities"), Elements(m, "signatures");
    forall i | 0 <= i < |ids| ensures EntryIsOf(ids[i], EntriesFrom(ids).value[i]) { EntriesByName(ids, i); }
    forall i | 0 <= i < |sigs| ensures SignatureIsOf(sigs[i], SignaturesFrom(sigs).value[i]) {
      SignaturesByName(sigs, i);
    }
  }
}
