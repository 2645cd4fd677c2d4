/** The ledger as the program keeps it: a log that holds record objects, whose fields the commands
    set in place. */
module IdentityLogs {
  import opened Bytes
  import opened Sorting
  import opened Cbor
  import opened Fields
  import opened Models
  import opened PyValues
  import opened Bundle
  import opened LedgerSpec

  class IdentityRecord {
    var did: Value
    var publicKey: ByteString
    var issuedAt: Value
    var issuedBy: seq<Value>
    var validUntil: Value
    var revokedAt: Value
    var metadata: seq<Entry>

    function View(): Record
      reads this
    {
      Record(did, publicKey, issuedAt, issuedBy, validUntil, revokedAt, metadata)
    }

    constructor (r: Record)
      ensures View() == r
    {
      did, publicKey, issuedAt, issuedBy := r.did, r.publicKey, r.issuedAt, r.issuedBy;
      validUntil, revokedAt, metadata := r.validUntil, r.revokedAt, r.metadata;
    }
  }

  function Views(rs: seq<IdentityRecord>): (views: seq<Record>)
    reads rs
    ensures |views| == |rs| && forall i :: 0 <= i < |rs| ==> views[i] == rs[i].View()
  {
    if rs == [] then [] else [rs[0].View()] + Views(rs[1..])
  }

  lemma {:induction false} ViewsAppend(rs: seq<IdentityRecord>, r: IdentityRecord)
    ensures Views(rs + [r]) == Views(rs) + [r.View()]
  {
  }

  class IdentityLog {
    var records: seq<IdentityRecord>

    /** No object is in the log twice. */
    ghost predicate Valid()
      reads this
    {
      forall i, j :: 0 <= i < j < |records| ==> records[i] != records[j]
    }

    function View(): seq<Record>
      reads this, records
    {
      Views(records)
    }

    constructor (rs: seq<IdentityRecord>)
      requires forall i, j :: 0 <= i < j < |rs| ==> rs[i] != rs[j]
      ensures Valid() && records == rs
    {
      records := rs;
    }

    /** The record must not be in the log already: it would be changed by its own registration. */
    method Add(record: IdentityRecord) returns (outcome: Outcome)
      requires Valid() && record !in records
      modifies this
      ensures Valid()
      ensures records == if outcome == Done then old(records) + [record] else old(records)
      ensures (View(), outcome) == Added(old(View()), record.View())
    {
      if HasDid(View(), record.did) { return DuplicateDid; }
      ViewsAppend(records, record);
      records := records + [record];
      return Done;
    }

    method Get(did: Value) returns (r: IdentityRecord?)
      ensures var i := Position(View(), did); r == if i < |records| then records[i] else null
    {
      for k := 0 to |records|
        invariant forall j :: 0 <= j < k ==> View()[j].did != did
      {
        if records[k].did == did {
          FirstPosition(View(), did, k);
          return records[k];
        }
      }
      FirstPosition(View(), did, |records|);
      return null;
    }

    /** `next_block` */
    method NextFreeBlock() returns (block: Value)
      ensures block == UInt(NextBlock(View()))
    {
      block := UInt(NextBlock(View()));
    }

    method Save() returns (doc: Py<Json>)
      ensures doc == Saved(View())
    {
      var items := [];
      for i := 0 to |records|
        invariant |items| == i && forall k :: 0 <= k < i ==> items[k] == SavedRecord(View()[k])
      {
        var r := records[i];
        items := items + [MapOf(SAVED,
          [r.did, Text(Ascii(Base64.Hex(r.publicKey))), r.issuedAt, Array(r.issuedBy), r.validUntil, r.revokedAt,
           Map(r.metadata)])];
      }
      assert items == MapSeq(SavedRecord, View());
      doc := Dumps(MapOf(["records"], [Array(items)]));
    }
  }

  /** `json.dumps` */
  function Dumps(v: Value): Py<Json> { if IsJson(v) then Ok(v) else Caught }

  lemma {:induction false} FirstPosition(log: seq<Record>, did: Value, k: nat)
    requires k <= |log| && (k < |log| ==> log[k].did == did)
    requires forall j :: 0 <= j < k ==> log[j].did != did
    ensures Position(log, did) == k
  {
  }

  /** `IdentityLog.load` */
  method Load(doc: Value) returns (r: Py<IdentityLog>)
    ensures r.Ok? ==> fresh(r.value) && fresh(r.value.records) && r.value.Valid()
    ensures r.Ok? ==> LoadedLog(doc) == Ok(r.value.View())
    ensures !r.Ok? ==> LoadedLog(doc).IsFailure()
  {
    if !doc.Map? { return Uncaught; }
    var items := PyList(Get(doc.entries, "records", Array([])));
    if items.IsFailure() { return items.PropagateFailure(); }
    var records: seq<IdentityRecord> := [];
    for i := 0 to |items.value|
      invariant |records| == i && fresh(records)
      invariant forall j, k :: 0 <= j < k < i ==> records[j] != records[k]
      invariant forall k :: 0 <= k < i ==> LoadedRecord(items.value[k]) == Ok(records[k].View())
    {
      var record := LoadedRecord(items.value[i]);
      if record.IsFailure() {
        OneFails(items.value, i);
        return record.PropagateFailure();
      }
      var loaded := new IdentityRecord(record.value);
      records := records + [loaded];
    }
    AllLoad(items.value, Views(records));
    var log := new IdentityLog(records);
    return Ok(log);
  }

  lemma {:induction false} OneFails(items: seq<Value>, i: nat)
    requires i < |items| && LoadedRecord(items[i]).IsFailure()
    ensures LoadedRecords(items).IsFailure()
  {
    if i == 0 {
    } else {
      OneFails(items[1..], i - 1);
    }
  }

  lemma {:induction false} AllLoad(items: seq<Value>, log: seq<Record>)
    requires |items| == |log| && forall k :: 0 <= k < |items| ==> LoadedRecord(items[k]) == Ok(log[k])
    ensures LoadedRecords(items) == Ok(log)
  {
    if items == [] {
    } else {
      AllLoad(items[1..], log[1..]);
      assert log == [log[0]] + log[1..];
    }
  }

  /** `register_identity`. A record refused as a duplicate keeps the block and issuers it was given. */
  method RegisterIdentity(log: IdentityLog, record: IdentityRecord, validators: seq<Value>, threshold: int)
    returns (outcome: Outcome)
    requires log.Valid() && record !in log.records
    modifies log, record
    ensures log.Valid() && (outcome == Done ==> record in log.records)
    ensures (log.View(), outcome) == Registered(old(log.View()), old(record.View()), validators, threshold)
    ensures outcome.QuorumShort? ==> record.View() == old(record.View())
    ensures !outcome.QuorumShort? ==>
      record.View() == old(record.View()).(issuedAt := UInt(NextBlock(old(log.View()))), issuedBy := validators)
  {
    if |validators| < threshold { return QuorumShort(threshold, |validators|); }
    var block := log.NextFreeBlock();
    record.issuedAt := block;
    record.issuedBy := validators;
    assert log.View() == old(log.View());
    outcome := log.Add(record);
  }

  method OpenLog(file: File) returns (r: Py<IdentityLog>)
    ensures r.Ok? ==> fresh(r.value) && fresh(r.value.records) && r.value.Valid()
    ensures r.Ok? ==> Ledger(file) == Ok(r.value.View())
    ensures !r.Ok? ==> Ledger(file).IsFailure()
  {
    if file.Present? {
      r := Load(file.doc);
    } else {
      var log := new IdentityLog([]);
      r := Ok(log);
    }
  }

  method RevokeIn(log: IdentityLog, did: Value) returns (outcome: Outcome)
    requires log.Valid()
    modifies log.records
    ensures (log.View(), outcome) == RevokedNow(old(log.View()), did)
  {
    ghost var before := log.View();
    ghost var i := Position(before, did);
    var record := log.Get(did);
    if record == null { return NotInLedger; }
    assert record.View() == before[i];
    if record.revokedAt != Null { return AlreadyRevoked(record.revokedAt); }
    var block := log.NextFreeBlock();
    SetRevokedAt(log, record, block, i);
    RevokesAt(before, did, i);
    return Done;
  }

  lemma {:induction false} RevokesAt(log: seq<Record>, did: Value, i: nat)
    requires i == Position(log, did) && i < |log| && log[i].revokedAt == Null
    ensures RevokedNow(log, did) == (log[i := log[i].(revokedAt := UInt(NextBlock(log)))], Done)
  {
  }

  method SetRevokedAt(ghost log: IdentityLog, record: IdentityRecord, block: Value, ghost i: nat)
    requires log.Valid() && i < |log.records| && log.records[i] == record
    modifies record
    ensures log.View() == old(log.View())[i := old(log.View())[i].(revokedAt := block)]
  {
    record.revokedAt := block;
  }

  /** `enrol_revoke`: the file afterwards and the outcome; None is an exception. */
  method EnrolRevoke(file: File, did: Value, provided: nat, threshold: int)
    returns (after: File, outcome: Option<Outcome>)
    ensures (after, outcome) == RevokedFile(file, did, provided, threshold)
  {
    if provided < threshold { return file, Some(QuorumShort(threshold, provided)); }
    var ledger := OpenLog(file);
    if ledger.IsFailure() { return file, None; }
    after, outcome := RevokeOpened(ledger.value, file, did);
  }

  method RevokeOpened(log: IdentityLog, file: File, did: Value) returns (after: File, outcome: Option<Outcome>)
    requires log.Valid()
    modifies log.records
    ensures (after, outcome) == Written(file, RevokedNow(old(log.View()), did))
  {
    ghost var result := RevokedNow(log.View(), did);
    var done := RevokeIn(log, did);
    assert result == (log.View(), done);
    after, outcome := SaveIf(log, file, done);
  }

  method SaveIf(log: IdentityLog, file: File, done: Outcome) returns (after: File, outcome: Option<Outcome>)
    ensures (after, outcome) == Written(file, (log.View(), done))
  {
    if done != Done { return file, Some(done); }
    var doc := log.Save();
    if doc.IsFailure() { return file, None; }
    return Present(doc.value), Some(Done);
  }

  /** The end of `enrol_promote`: the ledger file after the signatures have been found to suffice.
      Whatever `add` raises is swallowed. */
  method PromoteInLedger(file: File, did: Value, key: ByteString, signers: seq<Value>, metadata: seq<Entry>)
    returns (after: File, raised: bool)
    ensures (after, raised) == PromotedFile(file, did, key, signers, metadata)
  {
    var ledger := OpenLog(file);
    if ledger.IsFailure() { return file, true; }
    PromoteIn(ledger.value, did, key, signers, metadata);
    var doc := ledger.value.Save();
    if doc.IsFailure() { return file, true; }
    return Present(doc.value), false;
  }

  method PromoteIn(log: IdentityLog, did: Value, key: ByteString, signers: seq<Value>, metadata: seq<Entry>)
    requires log.Valid()
    modifies log
    ensures log.View() == Promoted(old(log.View()), did, key, signers, metadata)
  {
    var block := log.NextFreeBlock();
    var record := new IdentityRecord(Record(did, key, block, signers, Null, Null, metadata));
    assert log.View() == old(log.View());
    var _ := log.Add(record);
  }
}
