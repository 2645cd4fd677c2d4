/** Runs of the synchronisation that end where a reader would not expect it: a document without any
    signature that the browser accepts, and a failure that is announced for a bundle it has stored. */
module SyncWitness {
  import opened Bytes
  import opened Cbor
  import opened Fields
  import opened JsCbor
  import opened JsBundle
  import Js = JsBundle
  import opened SyncProtocol
  import opened SyncRuns
  import Merkle

  // ----- looking properties up by name

  function Pick(names: seq<string>, vals: seq<JsValue>, name: string): JsValue
    requires |names| == |vals|
  {
    if names == [] then JUndefined
    else if names[0] == name then vals[0]
    else Pick(names[1..], vals[1..], name)
  }

  lemma {:induction false} MemberIsPick(names: seq<string>, vals: seq<JsValue>, name: string)
    requires |names| == |vals| && IsAscii(name) && forall i :: 0 <= i < |names| ==> IsAscii(names[i])
    ensures Member(Literal(names, vals), name) == Ok(Pick(names, vals, name))
  {
    if names == [] {
    } else {
      MemberIsPick(names[1..], vals[1..], name);
      assert Literal(names, vals).props[1..] == Literal(names[1..], vals[1..]).props;
      if names[0] != name && Ascii(names[0]) == Ascii(name) { AsciiInjective(names[0], name); }
    }
  }

  lemma {:induction false} PickOfTwo(a: string, x: JsValue, b: string, y: JsValue, name: string)
    ensures Pick([a, b], [x, y], name) == if name == a then x else if name == b then y else JUndefined
  {
    assert [a, b][1..] == [b] && [x, y][1..] == [y] && [b][1..] == [] && [y][1..] == [];
    assert Pick([b], [y], name) == if name == b then y else JUndefined;
  }

  lemma {:induction false} PickOfThree(a: string, x: JsValue, b: string, y: JsValue, c: string, z: JsValue, name: string)
    ensures Pick([a, b, c], [x, y, z], name) ==
      if name == a then x else if name == b then y else if name == c then z else JUndefined
  {
    assert [a, b, c][1..] == [b, c] && [x, y, z][1..] == [y, z];
    PickOfTwo(b, y, c, z, name);
  }

  // ----- a document with no signatures, no threshold and no expiry

  function BareProof(h: ByteString): JsValue { Literal(["leaf"], [JUint8Array(h)]) }

  function BareEntry(did: ByteString, h: ByteString): JsValue {
    Literal(["did", "proof"], [JString(did), BareProof(h)])
  }

  /** It vouches for `did` with a tree of one leaf, which is its own root. */
  function BareDocument(did: ByteString, h: ByteString): JsValue {
    Literal(["fmt_ver", "identities", "snap_root"], [JNumber(1.0), JArray([BareEntry(did, h)]), JUint8Array(h)])
  }

  function BareJsEntry(did: ByteString, h: ByteString): JsEntry {
    JsEntry(
      JsRecord(JString(did), JUndefined, JUndefined, JUndefined, JNull, JNull, JObject([])),
      JsProof(JUint8Array(h), [], JUndefined))
  }

  function BareBundle(did: ByteString, h: ByteString): JsBundle {
    JsBundle(JNumber(1.0), JUndefined, JUint8Array(h), JUndefined, JUndefined, JUndefined, JArray([]),
      [BareJsEntry(did, h)], [], None)
  }

  lemma {:induction false} ProofMember(h: ByteString, name: string)
    requires IsAscii(name)
    ensures Member(BareProof(h), name) == Ok(if name == "leaf" then JUint8Array(h) else JUndefined)
  {
    MemberIsPick(["leaf"], [JUint8Array(h)], name);
    assert ["leaf"][1..] == [] && [JUint8Array(h)][1..] == [];
  }

  lemma {:induction false} EntryMember(did: ByteString, h: ByteString, name: string)
    requires IsAscii(name)
    ensures Member(BareEntry(did, h), name) ==
      Ok(if name == "did" then JString(did) else if name == "proof" then BareProof(h) else JUndefined)
  {
    MemberIsPick(["did", "proof"], [JString(did), BareProof(h)], name);
    PickOfTwo("did", JString(did), "proof", BareProof(h), name);
  }

  lemma {:induction false} DocumentMember(did: ByteString, h: ByteString, name: string)
    requires IsAscii(name)
    ensures Member(BareDocument(did, h), name) == Ok(
      if name == "fmt_ver" then JNumber(1.0)
      else if name == "identities" then JArray([BareEntry(did, h)])
      else if name == "snap_root" then JUint8Array(h)
      else JUndefined)
  {
    var ids := JArray([BareEntry(did, h)]);
    MemberIsPick(["fmt_ver", "identities", "snap_root"], [JNumber(1.0), ids, JUint8Array(h)], name);
    PickOfThree("fmt_ver", JNumber(1.0), "identities", ids, "snap_root", JUint8Array(h), name);
  }

  lemma {:induction false} BareProofDecodes(h: ByteString, page: bool)
    ensures DecodeProof(BareProof(h), page) == Ok(JsProof(JUint8Array(h), [], JUndefined))
  {
    ProofMember(h, "leaf");
    ProofMember(h, "siblings");
    ProofMember(h, "root");
  }

  lemma {:induction false} BareRecordDecodes(did: ByteString, h: ByteString, page: bool)
    ensures DecodeRecord(BareEntry(did, h), page) == Ok(BareJsEntry(did, h).record)
  {
    EntryMember(did, h, "did");
    EntryMember(did, h, "pubkey");
    EntryMember(did, h, "issued_at");
    EntryMember(did, h, "issued_by");
    EntryMember(did, h, "valid_until");
    EntryMember(did, h, "revoked_at");
    EntryMember(did, h, "meta");
  }

  lemma {:induction false} BareEntriesDecode(did: ByteString, h: ByteString, page: bool)
    ensures Js.DecodeEntries([BareEntry(did, h)], page) == Ok([BareJsEntry(did, h)])
  {
    BareRecordDecodes(did, h, page);
    BareProofDecodes(h, page);
    EntryMember(did, h, "proof");
    assert [BareEntry(did, h)][1..] == [] && Js.DecodeEntries([], page) == Ok([]);
    assert [BareJsEntry(did, h)] + [] == [BareJsEntry(did, h)];
  }

  lemma {:induction false} BareDecodes(did: ByteString, h: ByteString, page: bool)
    ensures DecodeBundle(BareDocument(did, h), page) == Ok(BareBundle(did, h))
  {
    BareEntriesDecode(did, h, page);
    DocumentMember(did, h, "fmt_ver");
    DocumentMember(did, h, "identities");
    DocumentMember(did, h, "signatures");
    DecodesListsFirst(BareDocument(did, h), [BareEntry(did, h)], [BareJsEntry(did, h)], [], [], page);
    BareHeaderDecodes(did, h, page);
  }

  lemma {:induction false} BareHeaderDecodes(did: ByteString, h: ByteString, page: bool)
    ensures DecodeHeader(BareDocument(did, h), [BareJsEntry(did, h)], [], page) == Ok(BareBundle(did, h))
  {
    DocumentMember(did, h, "fmt_ver");
    DocumentMember(did, h, "snap_block");
    DocumentMember(did, h, "snap_root");
    DocumentMember(did, h, "issued_at");
    DocumentMember(did, h, "expires_at");
    DocumentMember(did, h, "threshold");
    DocumentMember(did, h, "val_set");
  }

  lemma {:induction false} LiteralEncodes(names: seq<string>, vals: seq<JsValue>)
    requires |names| == |vals| && forall i :: 0 <= i < |vals| ==> ToCbor(vals[i]).Some?
    ensures ToCbor(Literal(names, vals)).Some?
  {
    ToCborPropsAt(Literal(names, vals).props);
  }

  lemma {:induction false} BareEncodes(did: ByteString, h: ByteString)
    ensures ToCbor(Payload(BareBundle(did, h))).Some?
  {
    var e := BareJsEntry(did, h);
    var none := JArray(Sorting.MapSeq(SiblingPayload, []));
    assert ToCbor(none).Some?;
    LiteralEncodes(Js.PROOF, [e.proof.leafHash, e.proof.root, none]);
    LiteralEncodes(Js.IDENTITY, [e.record.did, e.record.issuedAt, e.record.issuedBy, e.record.metadata,
      ProofPayload(e.proof), e.record.publicKey, e.record.revokedAt, e.record.validUntil]);
    var b := BareBundle(did, h);
    var entries := Sorting.MapSeq(EntryPayload, b.identities);
    assert entries == [EntryPayload(e)];
    ToCborItemsAt(entries);
    LiteralEncodes(Js.BUNDLE, [b.expiresAt, b.fmtVer, JArray(entries), b.issuedAt, JArray([]),
      b.snapBlock, b.snapRoot, b.threshold, b.valSet]);
  }

  function BareTrusted(did: ByteString, h: ByteString): JsBundle { BareBundle(did, h).(validSigCount := Some(0)) }

  /** Whatever the signature check and the time: the document decodes to a bundle without signatures,
      validation counts none and lets it pass, and the client answers VALID for its DID, then and at
      any other time. Its threshold and its expiry are undefined, which compares as NaN, and nothing is
      smaller than NaN. */
  lemma {:induction false} UnsignedIsAccepted(
      f: Platform, did: ByteString, h: ByteString, now: int, later: int)
    ensures DecodeBundle(BareDocument(did, h), false) == Ok(BareBundle(did, h)) && BareBundle(did, h).signatures == []
    ensures Validated(f, BareBundle(did, h), now) == Ok(BareTrusted(did, h))
    ensures ClientVerify(f, Some(BareTrusted(did, h)), did, later) == VALID
    ensures !ReachesQuorum(f, BareTrusted(did, h)) && !NotPast(f, BareTrusted(did, h), later)
  {
    BareDecodes(did, h, false);
    BareEncodes(did, h);
    var e := BareJsEntry(did, h);
    assert FindEntry([e], did) == Some(e);
    assert StepsIn([]) == Some([]) && Merkle.Climb(f.sha, h, []) == h;
  }

  // ----- a run

  /** A sync that reads `raw` and stores what validation makes of it, but not its own state. */
  function StoreOnly(raw: JsBundle, now: int): seq<Step> { Intake(0, raw, now) + STORE_ONLY }

  const STORE_ONLY := [Written(0), PutSettled(0, true), StateSettled(0, false), StateSettled(0, true)]

  function AfterStoreOnly(b: JsBundle): State {
    State(Worker(false, map[], 1), Some(b), START.page, [SyncFailed(AtState)])
  }

  /** The second half of the sync: the bundle is written, the sync state is not. */
  lemma {:induction false} StoresAndFails(f: Platform, b: JsBundle)
    ensures Legal(f, OnlySync(START, 0, Saving(b, false)), STORE_ONLY)
    ensures Run(f, OnlySync(START, 0, Saving(b, false)), STORE_ONLY) == AfterStoreOnly(b)
  {
    var end, stored := AfterStoreOnly(b), START.(db := Some(b));
    var s4, s5 := OnlySync(START, 0, Saving(b, false)), OnlySync(stored, 0, Saving(b, true));
    var s6, s7 := OnlySync(stored, 0, SavingState(b)), OnlySync(stored, 0, Failing(AtState));
    assert Legal(f, end, []) && Run(f, end, []) == end;
    assert s7.worker.running - {0} == map[];
    OneMore(f, s7, StateSettled(0, true), [], end, end);
    OneMore(f, s6, StateSettled(0, false), [StateSettled(0, true)] + [], s7, end);
    OneMore(f, s5, PutSettled(0, true), [StateSettled(0, false)] + ([StateSettled(0, true)] + []), s6, end);
    OneMore(f, s4, Written(0),
      [PutSettled(0, true)] + ([StateSettled(0, false)] + ([StateSettled(0, true)] + [])), s5, end);
    assert [Written(0)] + ([PutSettled(0, true)] + ([StateSettled(0, false)] + ([StateSettled(0, true)] + []))) ==
      STORE_ONLY;
  }

  /** From an empty database and for every bundle that validation passes: SYNC_FAILED is announced, and
      the bundle is stored. */
  lemma {:induction false} FailedThoughSaved(f: Platform, raw: JsBundle, b: JsBundle, now: int)
    requires Validated(f, raw, now) == Ok(b)
    ensures Legal(f, START, StoreOnly(raw, now))
    ensures Run(f, START, StoreOnly(raw, now)) == AfterStoreOnly(b)
  {
    TakesIn(f, START, raw, b, now);
    StoresAndFails(f, b);
    RunAppend(f, START, Intake(0, raw, now), STORE_ONLY);
  }

  /** The document without signatures takes that way from the network to the page, which then answers
      VALID at any time. */
  lemma {:induction false} ServedAsValid(f: Platform, did: ByteString, h: ByteString, now: int, later: int)
    ensures DecodeBundle(BareDocument(did, h), false) == Ok(BareBundle(did, h))
    ensures Legal(f, START, StoreOnly(BareBundle(did, h), now) + LoadSteps(PageInit, 0))
    ensures ClientVerify(f, Run(f, START, StoreOnly(BareBundle(did, h), now) + LoadSteps(PageInit, 0)).page.bundle, did, later) == VALID
  {
    UnsignedIsAccepted(f, did, h, now, later);
    FailedThoughSaved(f, BareBundle(did, h), BareTrusted(did, h), now);
    Reloads(f, AfterStoreOnly(BareTrusted(did, h)), PageInit);
    RunAppend(f, START, StoreOnly(BareBundle(did, h), now), LoadSteps(PageInit, 0));
  }
}
