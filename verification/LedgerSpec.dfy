/** The identity ledger as a list of records, what the commands do to it, and the JSON file it is
    kept in (src/decpki/models.py, src/decpki/quorum.py, cli/enrol_sign.py). */
module LedgerSpec {
  import opened Bytes
  import opened Sorting
  import opened Cbor
  import opened Fields
  import opened Models
  import opened PyValues
  import opened Bundle
  import opened Base64

  datatype Outcome =
    | Done
    | QuorumShort(required: int, provided: nat)
    | DuplicateDid
    | NotInLedger
    | AlreadyRevoked(block: Value)

  predicate HasDid(log: seq<Record>, did: Value) {
    exists i :: 0 <= i < |log| && log[i].did == did
  }

  /** `log.get(did)`, as a position; the length if there is none. */
  function Position(log: seq<Record>, did: Value): (i: nat)
    ensures i <= |log|
    ensures i < |log| ==> log[i].did == did
    ensures forall k :: 0 <= k < i ==> log[k].did != did
  {
    if log == [] then 0
    else if log[0].did == did then 0
    else
      var i := Position(log[1..], did);
      assert forall k :: 1 <= k < |log| ==> log[k] == log[1..][k - 1];
      i + 1
  }

  /** `log.add(record)` */
  function Added(log: seq<Record>, r: Record): (seq<Record>, Outcome) {
    if HasDid(log, r.did) then (log, DuplicateDid) else (log + [r], Done)
  }

  /** `register_identity`: the block and the issuers are set on the record that is passed in. */
  function Registered(log: seq<Record>, r: Record, validators: seq<Value>, threshold: int): (seq<Record>, Outcome) {
    if |validators| < threshold then (log, QuorumShort(threshold, |validators|))
    else Added(log, r.(issuedAt := UInt(NextBlock(log)), issuedBy := validators))
  }

  /** The record that `enrol_promote` makes. */
  function PromotedRecord(
      log: seq<Record>, did: Value, key: ByteString, signers: seq<Value>, metadata: seq<Entry>): Record {
    Record(did, key, UInt(NextBlock(log)), signers, Null, Null, metadata)
  }

  /** `enrol_promote` on the ledger: any exception of `log.add` is swallowed. */
  function Promoted(
      log: seq<Record>, did: Value, key: ByteString, signers: seq<Value>, metadata: seq<Entry>): seq<Record> {
    Added(log, PromotedRecord(log, did, key, signers, metadata)).0
  }

  /** `enrol_revoke`, once enough validators are given. */
  function RevokedNow(log: seq<Record>, did: Value): (seq<Record>, Outcome) {
    var i := Position(log, did);
    if i == |log| then (log, NotInLedger)
    else if log[i].revokedAt != Null then (log, AlreadyRevoked(log[i].revokedAt))
    else (log[i := log[i].(revokedAt := UInt(NextBlock(log)))], Done)
  }

  function Revoked(log: seq<Record>, did: Value, provided: nat, threshold: int): (seq<Record>, Outcome) {
    if provided < threshold then (log, QuorumShort(threshold, provided)) else RevokedNow(log, did)
  }

  // ----- the file

  const SAVED: seq<string> :=
    ["did", "public_key", "issued_at", "issued_by", "valid_until", "revoked_at", "metadata"]

  lemma {:induction false} SavedNames()
    ensures GoodNames(SAVED) && GoodNames(["records"])
  {
    assert SAVED[1][0] != SAVED[5][0] && SAVED[2][7] != SAVED[3][7];
  }

  function SavedFields(r: Record): (vals: seq<Value>)
    ensures |vals| == |SAVED|
  {
    [r.did, Text(Ascii(Hex(r.publicKey))), r.issuedAt, Array(r.issuedBy), r.validUntil, r.revokedAt, Map(r.metadata)]
  }

  function SavedRecord(r: Record): Value { MapOf(SAVED, SavedFields(r)) }

  /** What `save` hands to `json.dumps`; keys and strings are texts. */
  function SavedDoc(log: seq<Record>): Value { MapOf(["records"], [Array(MapSeq(SavedRecord, log))]) }

  /** JSON has no byte strings, at any depth. */
  predicate IsJson(v: Value) {
    match v
    case Bin(_) => false
    case Array(items) => AllJson(items)
    case Map(es) => EntriesJson(es)
    case _ => true
  }

  predicate AllJson(items: seq<Value>) { items == [] || (IsJson(items[0]) && AllJson(items[1..])) }

  predicate EntriesJson(es: seq<Entry>) { es == [] || (IsJson(es[0].val) && EntriesJson(es[1..])) }

  /** What a JSON file holds. */
  type Json = v: Value | IsJson(v) witness Null

  /** `save`; `json.dumps` raises a TypeError on byte values. */
  function Saved(log: seq<Record>): Py<Json> {
    if IsJson(SavedDoc(log)) then Ok(SavedDoc(log)) else Caught
  }

  predicate Savable(r: Record) {
    && IsJson(r.did) && IsJson(r.issuedAt) && AllJson(r.issuedBy) && IsJson(r.validUntil) && IsJson(r.revokedAt)
    && EntriesJson(r.metadata)
  }

  ghost predicate AllSavable(log: seq<Record>) {
    forall i :: 0 <= i < |log| ==> Savable(log[i])
  }

  function Characters(bs: ByteString): (s: string)
    ensures |s| == |bs|
  {
    seq(|bs|, i requires 0 <= i < |bs| => bs[i] as char)
  }

  /** `bytes.fromhex(v)` */
  function HexBytes(v: Value): Py<ByteString> {
    match v
    case Text(t) => (match FromHex(Characters(t)) case Some(bs) => Ok(bs) case None => Uncaught)
    case _ => Caught
  }

  /** One record of a ledger file. */
  function LoadedRecord(d: Value): Py<Record> {
    var did :- Item(d, "did");
    var hex :- Item(d, "public_key");
    var key :- HexBytes(hex);
    var issuedAt :- Item(d, "issued_at");
    var issuedBy :- Item(d, "issued_by");
    var metadata := Get(d.entries, "metadata", Map([]));
    if issuedBy.Array? && metadata.Map? then
      Ok(Record(did, key, issuedAt, issuedBy.items, Get(d.entries, "valid_until", Null),
        Get(d.entries, "revoked_at", Null), metadata.entries))
    else Uncaught
  }

  function LoadedRecords(items: seq<Value>): (r: Py<seq<Record>>)
    ensures r.Ok? ==> |r.value| == |items|
  {
    if items == [] then Ok([])
    else
      var first :- LoadedRecord(items[0]);
      var rest :- LoadedRecords(items[1..]);
      Ok([first] + rest)
  }

  function LoadedLog(doc: Value): Py<seq<Record>> {
    if !doc.Map? then Uncaught
    else
      var items :- PyList(Get(doc.entries, "records", Array([])));
      LoadedRecords(items)
  }

  lemma {:induction false} SavedField(names: seq<string>, vals: seq<Value>, i: nat)
    requires GoodNames(names) && |names| == |vals| && i < |names|
    ensures Item(MapOf(names, vals), names[i]) == Ok(vals[i])
    ensures forall default :: Get(FieldEntries(names, vals), names[i], default) == vals[i]
  {
    FieldKeysDistinct(names, vals);
    LookupAt(FieldEntries(names, vals), i);
  }

  lemma {:induction false} HexIsAscii(bs: ByteString)
    ensures forall i :: 0 <= i < |Hex(bs)| ==> Hex(bs)[i] as int < 128
  {
    if bs == [] {
    } else {
      HexIsAscii(bs[1..]);
    }
  }

  lemma {:induction false} CharactersOfAscii(s: string)
    requires forall i :: 0 <= i < |s| ==> s[i] as int < 128
    ensures Characters(Ascii(s)) == s
  {
  }

  lemma {:induction false} KeyReadBack(bs: ByteString)
    ensures HexBytes(Text(Ascii(Hex(bs)))) == Ok(bs)
  {
    HexIsAscii(bs);
    HexRoundTrip(bs);
    CharactersOfAscii(Hex(bs));
  }

  lemma {:induction false} RecordReadBack(r: Record)
    ensures LoadedRecord(SavedRecord(r)) == Ok(r)
  {
    SavedNames();
    KeyReadBack(r.publicKey);
    var vals := SavedFields(r);
    SavedField(SAVED, vals, 0);
    SavedField(SAVED, vals, 1);
    SavedField(SAVED, vals, 2);
    SavedField(SAVED, vals, 3);
    SavedField(SAVED, vals, 4);
    SavedField(SAVED, vals, 5);
    SavedField(SAVED, vals, 6);
  }

  lemma {:induction false} RecordsReadBack(log: seq<Record>)
    ensures LoadedRecords(MapSeq(SavedRecord, log)) == Ok(log)
  {
    if log == [] {
    } else {
      RecordReadBack(log[0]);
      RecordsReadBack(log[1..]);
      assert MapSeq(SavedRecord, log)[1..] == MapSeq(SavedRecord, log[1..]);
      assert log == [log[0]] + log[1..];
    }
  }

  lemma {:induction false} AllJsonIff(items: seq<Value>)
    ensures AllJson(items) <==> forall i :: 0 <= i < |items| ==> IsJson(items[i])
  {
    if items == [] {
    } else {
      AllJsonIff(items[1..]);
      assert items == [items[0]] + items[1..];
    }
  }

  lemma {:induction false} EntriesJsonIff(es: seq<Entry>)
    ensures EntriesJson(es) <==> forall i :: 0 <= i < |es| ==> IsJson(es[i].val)
  {
    if es == [] {
    } else {
      EntriesJsonIff(es[1..]);
      assert es == [es[0]] + es[1..];
    }
  }

  lemma {:induction false} MapJsonIff(names: seq<string>, vals: seq<Value>)
    requires |names| == |vals|
    ensures IsJson(MapOf(names, vals)) <==> forall i :: 0 <= i < |vals| ==> IsJson(vals[i])
  {
    var es := FieldEntries(names, vals);
    EntriesJsonIff(es);
    assert forall i :: 0 <= i < |vals| ==> es[i].val == vals[i];
  }

  lemma {:induction false} RecordJsonIff(r: Record)
    ensures IsJson(SavedRecord(r)) <==> Savable(r)
  {
    var vals := SavedFields(r);
    MapJsonIff(SAVED, vals);
    assert IsJson(vals[0]) == IsJson(r.did) && IsJson(vals[1]) && IsJson(vals[2]) == IsJson(r.issuedAt);
    assert IsJson(vals[3]) == AllJson(r.issuedBy) && IsJson(vals[4]) == IsJson(r.validUntil);
    assert IsJson(vals[5]) == IsJson(r.revokedAt) && IsJson(vals[6]) == EntriesJson(r.metadata);
  }

  /** Saving succeeds exactly if no record holds a byte value, at any depth, in a field that is not
      written in hexadecimal. */
  lemma {:induction false} SavesIff(log: seq<Record>)
    ensures Saved(log).Ok? <==> AllSavable(log)
  {
    var items := MapSeq(SavedRecord, log);
    MapJsonIff(["records"], [Array(items)]);
    assert [Array(items)][0] == Array(items);
    AllJsonIff(items);
    forall i | 0 <= i < |log| ensures IsJson(items[i]) == Savable(log[i]) { RecordJsonIff(log[i]); }
  }

  /** What was saved is loaded again as it was. */
  lemma {:induction false} LedgerReadBack(log: seq<Record>)
    ensures Saved(log).Ok? ==> LoadedLog(Saved(log).value) == Ok(log)
    ensures Saved(log).Ok? <==> AllSavable(log)
  {
    SavesIff(log);
    SavedNames();
    SavedField(["records"], [Array(MapSeq(SavedRecord, log))], 0);
    RecordsReadBack(log);
  }

  lemma {:induction false} LookupJson(es: seq<Entry>, key: ByteString)
    requires EntriesJson(es)
    ensures Lookup(es, key).Some? ==> IsJson(Lookup(es, key).value)
  {
    if es == [] {
    } else {
      LookupJson(es[1..], key);
    }
  }

  lemma {:induction false} LoadedRecordIsSavable(d: Value)
    requires IsJson(d) && LoadedRecord(d).Ok?
    ensures Savable(LoadedRecord(d).value)
  {
    forall key ensures Lookup(d.entries, key).Some? ==> IsJson(Lookup(d.entries, key).value) {
      LookupJson(d.entries, key);
    }
  }

  lemma {:induction false} LoadedRecordsAreSavable(items: seq<Value>)
    requires AllJson(items) && LoadedRecords(items).Ok?
    ensures AllSavable(LoadedRecords(items).value)
  {
    if items == [] {
    } else {
      LoadedRecordIsSavable(items[0]);
      LoadedRecordsAreSavable(items[1..]);
    }
  }

  lemma {:induction false} PyListJson(v: Value)
    requires IsJson(v) && PyList(v).Ok?
    ensures AllJson(PyList(v).value)
  {
    AllJsonIff(PyList(v).value);
    if v.Text? { CodePointsJson(v.utf8); }
  }

  lemma {:induction false} CodePointsJson(bs: ByteString)
    ensures forall i :: 0 <= i < |CodePoints(bs)| ==> IsJson(CodePoints(bs)[i])
  {
    if bs == [] {
    } else {
      CodePointsJson(bs[FirstLength(bs)..]);
    }
  }

  /** When an entry of a ledger file is loaded, and what of it: four fields are needed, the key must be
      hexadecimal, and a revocation, an end of validity or metadata may be missing. */
  lemma {:induction false} LoadsByName(d: Value)
    ensures LoadedRecord(d).Ok? <==>
      && Item(d, "did").Ok? && IsHexKey(d) && Item(d, "issued_at").Ok?
      && Item(d, "issued_by").Ok? && Item(d, "issued_by").value.Array?
      && (Lookup(d.entries, Ascii("metadata")).Some? ==> Lookup(d.entries, Ascii("metadata")).value.Map?)
    ensures LoadedRecord(d).Ok? ==> IsLoadedFrom(LoadedRecord(d).value, d)
  {
  }

  ghost predicate IsHexKey(d: Value) {
    && Item(d, "public_key").Ok? && Item(d, "public_key").value.Text?
    && FromHex(Characters(Item(d, "public_key").value.utf8)).Some?
  }

  ghost predicate IsLoadedFrom(r: Record, d: Value) {
    && IsHexKey(d) && r.publicKey == FromHex(Characters(Item(d, "public_key").value.utf8)).value
    && Item(d, "did") == Ok(r.did) && Item(d, "issued_at") == Ok(r.issuedAt) && Item(d, "issued_by") == Ok(Array(r.issuedBy))
    && r.validUntil == (match Lookup(d.entries, Ascii("valid_until")) case Some(v) => v case None => Null)
    && r.revokedAt == (match Lookup(d.entries, Ascii("revoked_at")) case Some(v) => v case None => Null)
    && Map(r.metadata) == match Lookup(d.entries, Ascii("metadata")) case Some(v) => v case None => Map([])
  }

  /** So a ledger that was read from a file can be saved again. */
  lemma {:induction false} LoadedIsSavable(doc: Json)
    requires LoadedLog(doc).Ok?
    ensures AllSavable(LoadedLog(doc).value)
  {
    LookupJson(doc.entries, Ascii("records"));
    var items := Get(doc.entries, "records", Array([]));
    PyListJson(items);
    LoadedRecordsAreSavable(PyList(items).value);
  }

  // ----- the commands on the file

  /** The ledger file, or none yet. */
  datatype File = Absent | Present(doc: Json)

  function Ledger(file: File): Py<seq<Record>> {
    match file case Absent => Ok([]) case Present(doc) => LoadedLog(doc)
  }

  /** The file after a command that saves only what it has done; None is an exception. */
  function Written(file: File, result: (seq<Record>, Outcome)): (File, Option<Outcome>) {
    if result.1 != Done then (file, Some(result.1))
    else match Saved(result.0) case Ok(doc) => (Present(doc), Some(Done)) case _ => (file, None)
  }

  function RevokedFile(file: File, did: Value, provided: nat, threshold: int): (File, Option<Outcome>) {
    if provided < threshold then (file, Some(QuorumShort(threshold, provided)))
    else match Ledger(file) case Ok(log) => Written(file, RevokedNow(log, did)) case _ => (file, None)
  }

  /** Whether an exception was raised comes second. */
  function PromotedFile(file: File, did: Value, key: ByteString, signers: seq<Value>, metadata: seq<Entry>): (File, bool) {
    match Ledger(file)
    case Ok(log) =>
      (match Saved(Promoted(log, did, key, signers, metadata))
       case Ok(doc) => (Present(doc), false)
       case _ => (file, true))
    case _ => (file, true)
  }

  lemma {:induction false} LedgerIsSavable(file: File)
    requires Ledger(file).Ok?
    ensures AllSavable(Ledger(file).value)
  {
    if file.Present? { LoadedIsSavable(file.doc); }
  }

  /** A revocation raises exactly if there are enough validators and the ledger does not load. The file is
      written exactly if a record is revoked, and then holds the ledger as the command has left it. */
  lemma {:induction false} RevokedFileHolds(file: File, did: Value, provided: nat, threshold: int)
    ensures var (after, outcome) := RevokedFile(file, did, provided, threshold);
      && (outcome == None <==> provided >= threshold && !Ledger(file).Ok?)
      && (provided < threshold ==> outcome == Some(QuorumShort(threshold, provided)))
      && (outcome != Some(Done) ==> after == file)
      && (Ledger(file).Ok? ==>
            var (log, result) := Revoked(Ledger(file).value, did, provided, threshold);
            Ledger(after) == Ok(log) && outcome == Some(result))
  {
    if Ledger(file).Ok? {
      LedgerIsSavable(file);
      var log := RevokedNow(Ledger(file).value, did).0;
      assert AllSavable(log);
      LedgerReadBack(log);
    }
  }

  /** So it is with a promotion: texts can always be saved. */
  lemma {:induction false} PromotedFileHolds(
      file: File, did: Value, key: ByteString, signers: seq<Value>, metadata: seq<Entry>)
    requires Ledger(file).Ok? && IsJson(did) && AllJson(signers) && EntriesJson(metadata)
    ensures var (after, raised) := PromotedFile(file, did, key, signers, metadata);
      !raised && Ledger(after) == Ok(Promoted(Ledger(file).value, did, key, signers, metadata))
  {
    LedgerIsSavable(file);
    var log := Promoted(Ledger(file).value, did, key, signers, metadata);
    assert AllSavable(log);
    LedgerReadBack(log);
  }
}
